/** get, skip and crunch over chains of message blocks. */
module StreamTools {
  import opened Wrappers
  import opened MessageBlocks

  function Min(a: nat, b: nat): nat {
    if a < b then a else b
  }

  // ---- get ----

  /** duplicate: a fresh chain of views of the same data blocks. */
  lemma FirstHolds(b: MessageBlock, s: seq<MessageBlock>, c: seq<seq<Byte>>)
    requires Chain(b, s, c)
    ensures |s| == |c| > 0 && Holds(b, c[0]) && c == [c[0]] + c[1..] && (b.cont == null ==> c == [c[0]])
  {}

  lemma SameView(d: MessageBlock, b: MessageBlock, x: seq<Byte>)
    requires Holds(b, x) && d.data == b.data && d.rd == b.rd && d.wr == b.wr
    ensures Holds(d, x)
  {}

  lemma SingleChain(b: MessageBlock, x: seq<Byte>)
    requires Holds(b, x) && b.cont == null
    ensures Chain(b, [b], [x])
  {
    Alone(b);
    Single(b, x);
  }

  method Duplicate(b: MessageBlock, ghost s: seq<MessageBlock>, ghost c: seq<seq<Byte>>)
    returns (d: MessageBlock, ghost t: seq<MessageBlock>)
    requires Chain(b, s, c)
    ensures Chain(d, t, c) && fresh(d) && fresh(t) && d.rd == b.rd && d.wr == b.wr && d.data == b.data
    decreases |s|
  {
    hide *;
    FirstHolds(b, s, c);
    d := new MessageBlock.Sharing(b);
    t := [d];
    SameView(d, b, c[0]);
    if b.cont == null {
      SingleChain(d, c[0]);
    } else {
      RestChain(b, s, c);
      var next, u := Duplicate(b.cont, s[1..], c[1..]);
      Prepend(d, c[0], next, u, c[1..]);
      t := [d] + u;
    }
  }

  lemma RestChain(b: MessageBlock, s: seq<MessageBlock>, c: seq<seq<Byte>>)
    requires Chain(b, s, c)
    ensures Chain(b.cont, s[1..], c[1..]) && |s| > 0
  {
    Parted(s, 1);
    HoldPart(s, c, 1);
  }

  method Prepend(d: MessageBlock, ghost x: seq<Byte>, next: MessageBlock?, ghost u: seq<MessageBlock>,
                 ghost c: seq<seq<Byte>>)
    requires Chain(next, u, c) && Holds(d, x) && d !in u
    modifies d`cont
    ensures Chain(d, [d] + u, [x] + c)
  {
    Single(d, x);
    hide AllHold, Holds;
    d.cont := next;
    assert Linked([d], next) by { Alone(d); }
    hide Linked;
    Joined([d], u);
    HoldJoin([d], [x], u, c);
  }

  lemma Single(b: MessageBlock, x: seq<Byte>)
    requires Holds(b, x)
    ensures AllHold([b], [x])
  {}

  /** Where the cut falls: in block `i - 1` of the chain, or right behind it. */
  method FindCut(n: nat, head: MessageBlock, ghost s: seq<MessageBlock>, ghost c: seq<seq<Byte>>)
    returns (skipped: nat, p: MessageBlock?, q: MessageBlock, ghost i: nat)
    requires Chain(head, s, c) && 0 < n < |Flat(c)|
    ensures 0 < i <= |s| == |c| && p == At(s, i, null) && q == s[i - 1]
    ensures |Flat(c[..i - 1])| < n <= |Flat(c[..i])| == skipped
  {
    skipped, p, q, i := 0, head, head, 0;
    FlatWhole(c);
    while skipped < n
      invariant 0 <= i <= |s| == |c| && p == At(s, i, null) && skipped == |Flat(c[..i])|
      invariant i > 0 ==> q == s[i - 1] && |Flat(c[..i - 1])| < n
      decreases |s| - i
    {
      FlatSplit(c, i);
      assert Holds(p, c[i]);
      skipped := skipped + p.Length();
      q := p;
      p := p.cont;
      i := i + 1;
    }
  }

  /** The contents of the two parts when the cut leaves `keep` bytes in block `i - 1`. */
  ghost function FirstPart(c: seq<seq<Byte>>, i: nat, keep: nat): seq<seq<Byte>>
    requires 0 < i <= |c| && keep <= |c[i - 1]|
  {
    c[..i - 1] + [c[i - 1][..keep]]
  }

  ghost function SecondPart(c: seq<seq<Byte>>, i: nat, keep: nat): seq<seq<Byte>>
    requires 0 < i <= |c| && keep <= |c[i - 1]|
  {
    [c[i - 1][keep..]] + c[i..]
  }

  lemma PartsFlat(c: seq<seq<Byte>>, i: nat, keep: nat, n: nat)
    requires 0 < i <= |c| && keep <= |c[i - 1]| && n == |Flat(c[..i - 1])| + keep
    ensures n <= |Flat(c)|
    ensures Flat(FirstPart(c, i, keep)) == Flat(c)[..n] && Flat(SecondPart(c, i, keep)) == Flat(c)[n..]
  {
    var p, x, r := Flat(c[..i - 1]), c[i - 1], Flat(c[i..]);
    FlatSplit(c, i - 1);
    FlatAppend(c[..i - 1], [x[..keep]]);
    FlatAppend([x[keep..]], c[i..]);
    assert Flat(c) == p + (x + r) == p + x + r;
    assert (p + x + r)[..|p| + keep] == p + x[..keep];
    assert (p + x + r)[|p| + keep..] == x[keep..] + r;
  }

  /** The chain ends in block `i - 1`, which keeps its first bytes only. */
  method Shorten(head: MessageBlock, q: MessageBlock, keep: nat, ghost s: seq<MessageBlock>, ghost c: seq<seq<Byte>>,
                 ghost i: nat)
    requires Chain(head, s, c) && 0 < i <= |s| == |c| && q == s[i - 1] && keep <= |c[i - 1]|
    modifies q`cont, q`wr
    ensures Chain(head, s[..i], FirstPart(c, i, keep))
  {
    ghost var p, d, x := s[..i - 1], c[..i - 1], c[i - 1];
    BeforeCut(head, q, s, c, i);
    hide *;
    CutShort(q, keep, p, d, x);
    EndsChain(head, q, s, c, i, keep);
  }

  lemma BeforeCut(head: MessageBlock, q: MessageBlock, s: seq<MessageBlock>, c: seq<seq<Byte>>, i: nat)
    requires Chain(head, s, c) && 0 < i <= |s| == |c| && q == s[i - 1]
    ensures Linked(s[..i - 1], q) && AllHold(s[..i - 1], c[..i - 1]) && Holds(q, c[i - 1]) && q !in s[..i - 1]
    ensures head == At(s[..i], 0, null)
  {
    Parted(s, i - 1);
    HoldPart(s, c, i - 1);
  }

  lemma EndsChain(head: MessageBlock, q: MessageBlock, s: seq<MessageBlock>, c: seq<seq<Byte>>, i: nat, keep: nat)
    requires 0 < i <= |s| == |c| && q == s[i - 1] && keep <= |c[i - 1]| && head == At(s[..i], 0, null)
    requires Linked(s[..i - 1] + [q], null) && AllHold(s[..i - 1] + [q], c[..i - 1] + [c[i - 1][..keep]])
    ensures Chain(head, s[..i], FirstPart(c, i, keep))
  {
    assert s[..i] == s[..i - 1] + [q];
  }

  /** The block `q` becomes the end of the list `p` that leads to it. */
  method CutShort(q: MessageBlock, keep: nat, ghost p: seq<MessageBlock>, ghost d: seq<seq<Byte>>, ghost x: seq<Byte>)
    requires Linked(p, q) && AllHold(p, d) && Holds(q, x) && q !in p && keep <= |x|
    modifies q`cont, q`wr
    ensures Linked(p + [q], null) && AllHold(p + [q], d + [x[..keep]])
  {
    assert q.data[q.rd..q.rd + keep] == x[..keep];
    hide AllHold, Linked;
    q.cont := null;
    q.wr := q.rd + keep;
    Alone(q);
    assert Holds(q, x[..keep]);
    hide Holds;
    Single(q, x[..keep]);
    Joined(p, [q]);
    HoldJoin(p, d, [q], [x[..keep]]);
  }

  lemma Alone(q: MessageBlock)
    ensures Linked([q], q.cont)
  {}

  /** The other chain starts further on in its first block. */
  method Advance(out: MessageBlock, keep: nat, ghost b: seq<MessageBlock>, ghost x: seq<Byte>, ghost d: seq<seq<Byte>>)
    requires Chain(out, b, [x] + d) && keep <= |x|
    modifies out`rd
    ensures Chain(out, b, [x[keep..]] + d)
  {
    ghost var u := b[1..];
    HoldPart(b, [x] + d, 1);
    assert ([x] + d)[1..] == d && b == [out] + u && Holds(out, x) && out !in u;
    hide AllHold, Linked;
    out.rd := out.rd + keep;
    assert Holds(out, x[keep..]);
    Single(out, x[keep..]);
    HoldJoin([out], [x[keep..]], u, d);
  }

  /** The cut falls right behind block `i - 1`. */
  method DetachBehind(head: MessageBlock, q: MessageBlock, ghost s: seq<MessageBlock>, ghost c: seq<seq<Byte>>,
                      ghost i: nat)
    requires Chain(head, s, c) && 0 < i <= |s| == |c| && q == s[i - 1]
    modifies q`cont
    ensures Chain(head, s[..i], c[..i]) && Chain(At(s, i, null), s[i..], c[i..])
  {
    BeforeCutBehind(head, q, s, c, i);
    hide *;
    CutBehind(q, s[..i - 1], s[i..], c[..i], c[i..]);
    TwoChains(head, q, s, c, i);
  }

  lemma BeforeCutBehind(head: MessageBlock, q: MessageBlock, s: seq<MessageBlock>, c: seq<seq<Byte>>, i: nat)
    requires Chain(head, s, c) && 0 < i <= |s| == |c| && q == s[i - 1]
    ensures Linked(s[..i - 1], q) && Linked(s[i..], null) && q !in s[..i - 1] && q !in s[i..]
    ensures s[..i - 1] + [q] == s[..i] && head == At(s[..i], 0, null)
    ensures AllHold(s[..i - 1] + [q], c[..i]) && AllHold(s[i..], c[i..])
  {
    BeforeCut(head, q, s, c, i);
    Parted(s, i);
    HoldPart(s, c, i);
    assert s[..i - 1] + [q] == s[..i];
  }

  method CutBehind(q: MessageBlock, ghost p: seq<MessageBlock>, ghost u: seq<MessageBlock>, ghost d: seq<seq<Byte>>,
                   ghost e: seq<seq<Byte>>)
    requires Linked(p, q) && Linked(u, null) && q !in p && q !in u && AllHold(p + [q], d) && AllHold(u, e)
    modifies q`cont
    ensures Linked(p + [q], null) && Linked(u, null) && AllHold(p + [q], d) && AllHold(u, e)
  {
    hide AllHold, Linked;
    q.cont := null;
    Alone(q);
    Joined(p, [q]);
  }

  lemma TwoChains(head: MessageBlock, q: MessageBlock, s: seq<MessageBlock>, c: seq<seq<Byte>>, i: nat)
    requires 0 < i <= |s| == |c| && s[..i - 1] + [q] == s[..i] && head == At(s[..i], 0, null)
    requires Linked(s[..i - 1] + [q], null) && AllHold(s[..i - 1] + [q], c[..i])
    requires Linked(s[i..], null) && AllHold(s[i..], c[i..])
    ensures Chain(head, s[..i], c[..i]) && Chain(At(s, i, null), s[i..], c[i..])
  {}

  /** The cut falls inside it; both parts then view its data. */
  method DetachInside(head: MessageBlock, q: MessageBlock, keep: nat, ghost s: seq<MessageBlock>,
                      ghost c: seq<seq<Byte>>, ghost i: nat)
    returns (out: MessageBlock, ghost b: seq<MessageBlock>)
    requires Chain(head, s, c) && 0 < i <= |s| == |c| && q == s[i - 1] && keep <= |c[i - 1]|
    modifies q`cont, q`wr
    ensures Chain(head, s[..i], FirstPart(c, i, keep)) && Chain(out, b, SecondPart(c, i, keep))
    ensures forall x :: x in s ==> x !in b
  {
    hide Chain;
    SuffixChain(head, s, c, i);
    out, b := Duplicate(q, s[i - 1..], [c[i - 1]] + c[i..]);
    CutBoth(head, q, out, keep, s, c, b, i);
  }

  lemma SuffixChain(head: MessageBlock, s: seq<MessageBlock>, c: seq<seq<Byte>>, i: nat)
    requires Chain(head, s, c) && 0 < i <= |s| == |c|
    ensures Chain(s[i - 1], s[i - 1..], [c[i - 1]] + c[i..])
  {
    Parted(s, i - 1);
    HoldPart(s, c, i - 1);
    assert c[i - 1..] == [c[i - 1]] + c[i..];
  }

  /** Where the two chains part: one block is cut short, its copy starts later. */
  method CutBoth(head: MessageBlock, q: MessageBlock, out: MessageBlock, keep: nat,
                 ghost s: seq<MessageBlock>, ghost c: seq<seq<Byte>>, ghost b: seq<MessageBlock>, ghost i: nat)
    requires Chain(head, s, c) && 0 < i <= |s| == |c| && q == s[i - 1] && keep <= |c[i - 1]|
    requires Chain(out, b, [c[i - 1]] + c[i..]) && out !in s && q !in b
    requires forall x :: x in s ==> x !in b
    modifies q`cont, q`wr, out`rd
    ensures Chain(head, s[..i], FirstPart(c, i, keep)) && Chain(out, b, SecondPart(c, i, keep))
  {
    hide Chain, Flat;
    assert out !in s[..i];
    Shorten(head, q, keep, s, c, i);
    Advance(out, keep, b, c[i - 1], c[i..]);
  }

  /** get: the first `n` bytes stay in the chain `a`, the chain `b` has the rest. */
  method Get(n: nat, head: MessageBlock, ghost s: seq<MessageBlock>, ghost c: seq<seq<Byte>>)
    returns (first: MessageBlock?, out: MessageBlock?, ghost a: seq<MessageBlock>, ghost ca: seq<seq<Byte>>,
             ghost b: seq<MessageBlock>, ghost cb: seq<seq<Byte>>)
    requires Chain(head, s, c)
    modifies (set b | b in s)`cont, (set b | b in s)`wr
    ensures n == 0 ==> first == null && out == null && unchanged(s)
    ensures n > 0 ==> first == head && Chain(first, a, ca) && Chain(out, b, cb) && forall x :: x in a ==> x !in b
    ensures n > 0 ==> Flat(ca) == Flat(c)[..Min(n, |Flat(c)|)] && Flat(cb) == Flat(c)[Min(n, |Flat(c)|)..]
    ensures n > 0 && n >= |Flat(c)| ==> out == null && a == s && ca == c && unchanged(s)
    ensures 0 < n < |Flat(c)| ==> out != null
    ensures forall x :: x in a ==> x in s
  {
    var total := TotalLength(head, s, c);
    first, out, a, ca, b, cb := null, null, [], [], [], [];
    if n == 0 {
      return;
    } else if n >= total {
      first, a, ca := head, s, c;
      return;
    }
    var skipped, p, q, i := FindCut(n, head, s, c);
    Parted(s, i);
    FlatSplit(c, i);
    FlatSplit(c, i - 1);
    assert Holds(q, c[i - 1]);
    hide AllHold, Linked;
    first, a := head, s[..i];
    if skipped == n {
      FlatWhole(c);
      DetachBehind(head, q, s, c, i);
      out, b, ca, cb := p, s[i..], c[..i], c[i..];
    } else {
      var keep := q.Length() - (skipped - n);
      PartsFlat(c, i, keep, n);
      out, b := DetachInside(head, q, keep, s, c, i);
      ca, cb := FirstPart(c, i, keep), SecondPart(c, i, keep);
    }
  }

  // ---- skip ----

  ghost function Empties(i: nat): (e: seq<seq<Byte>>)
    ensures |e| == i && Flat(e) == []
  {
    if i == 0 then [] else
      var e := Empties(i - 1);
      FlatAppend(e, [[]]);
      e + [[]]
  }

  /** The contents once all before byte `x` of block `i` is skipped. */
  ghost function Skipped(c: seq<seq<Byte>>, i: nat, x: nat): (d: seq<seq<Byte>>)
    requires i < |c| && x <= |c[i]|
    ensures |d| == |c| && d[i] == c[i][x..]
  {
    Empties(i) + [c[i][x..]] + c[i + 1..]
  }

  lemma SkippedFlat(c: seq<seq<Byte>>, i: nat, x: nat)
    requires i < |c| && x <= |c[i]|
    ensures |Flat(c[..i])| + x <= |Flat(c)| && Flat(Skipped(c, i, x)) == Flat(c)[|Flat(c[..i])| + x..]
  {
    var y := c[i];
    FlatThree(c[..i], y, c[i + 1..]);
    FlatThree(Empties(i), y[x..], c[i + 1..]);
    assert c == c[..i] + [y] + c[i + 1..];
    hide Flat, Empties;
    SplitBytes(Flat(c[..i]), y, Flat(c[i + 1..]), x);
    assert [] + y[x..] == y[x..];
  }

  lemma FlatThree(c: seq<seq<Byte>>, y: seq<Byte>, d: seq<seq<Byte>>)
    ensures Flat(c + [y] + d) == Flat(c) + y + Flat(d)
  {
    hide Flat;
    FlatAppend(c + [y], d);
    FlatAppend(c, [y]);
    FlatOne(y);
  }

  lemma FlatOne(x: seq<Byte>)
    ensures Flat([x]) == x
  {}

  lemma SkippedNext(c: seq<seq<Byte>>, i: nat)
    requires i < |c|
    ensures i + 1 < |c| ==> Skipped(c, i, |c[i]|) == Skipped(c, i + 1, 0)
    ensures Skipped(c, 0, 0) == c
  {
    if i + 1 < |c| {
      assert c[i + 1..] == [c[i + 1]] + c[i + 2..];
    }
  }

  lemma SplitBytes(p: seq<Byte>, c: seq<Byte>, r: seq<Byte>, keep: nat)
    requires keep <= |c|
    ensures (p + c + r)[|p| + keep..] == c[keep..] + r
  {}

  /** The read pointer of one block moves on. */
  method SkipInBlock(p: MessageBlock, n: nat, ghost s: seq<MessageBlock>, ghost c: seq<seq<Byte>>, ghost i: nat,
                     ghost x: nat)
    requires i < |s| == |c| && p == s[i] && x + n <= |c[i]|
    requires Linked(s, null) && AllHold(s, Skipped(c, i, x))
    modifies p`rd
    ensures AllHold(s, Skipped(c, i, x + n))
  {
    ghost var d := Skipped(c, i, x);
    assert Holds(p, c[i][x..]) by {
      assert Holds(s[i], d[i]);
    }
    p.rd := p.rd + n;
    assert Holds(p, c[i][x + n..]);
    forall j | 0 <= j < |s|
      ensures Holds(s[j], Skipped(c, i, x + n)[j])
    {
      assert j != i ==> Holds(s[j], d[j]);
    }
  }

  /** How far `n` bytes reach, in terms of the last block. */
  lemma Reach(c: seq<seq<Byte>>, i: nat, x: nat)
    requires i < |c| && x <= |c[i]| && (x == 0 || x < |c[i]|)
    ensures var n := |Flat(c[..i])| + x;
      n <= |Flat(c)| && (n == |Flat(c)| ==> c[|c| - 1] == [])
    ensures i == |c| - 1 ==> |Flat(c)| == |Flat(c[..i])| + |c[i]|
  {
    FlatSplit(c, i);
    var last := |c| - 1;
    FlatSplit(c, last);
    if i == last {
      assert c[i + 1..] == [];
    } else {
      FlatSplit(c[..last], i);
      assert c[..last][..i] == c[..i] && c[..last][..i + 1] == c[..i + 1];
      FlatSplit(c[..last], i + 1);
      assert c[last + 1..] == [];
    }
  }

  /** After `n` bytes the walk stands at byte `x` of block `i`. */
  ghost predicate Stands(c: seq<seq<Byte>>, n: nat, i: nat, x: nat) {
    i < |c| && x <= |c[i]| && n == |Flat(c[..i])| + x
  }

  lemma StandsOn(c: seq<seq<Byte>>, n: nat, i: nat)
    requires i < |c| && Stands(c, n, i, |c[i]|)
    ensures i + 1 < |c| ==> Stands(c, n, i + 1, 0) && Skipped(c, i, |c[i]|) == Skipped(c, i + 1, 0)
    ensures i + 1 == |c| ==> n == |Flat(c)|
  {
    hide Flat;
    SkippedNext(c, i);
    Reach(c, i, 0);
    FlatSplit(c, i);
  }

  /** One turn of the loop of skip; a null result is the end of the chain. */
  method SkipTurn(left: nat, p: MessageBlock, ghost s: seq<MessageBlock>, ghost c: seq<seq<Byte>>, ghost n: nat,
                  ghost i: nat, ghost x: nat)
    returns (left': nat, p': MessageBlock?, ghost i': nat, ghost x': nat)
    requires left > 0 && |s| == |c| && Stands(c, n, i, x) && p == s[i]
    requires Linked(s, null) && AllHold(s, Skipped(c, i, x))
    modifies p`rd
    ensures Linked(s, null) && left' <= left && i <= i' && (left' == left ==> p' == null || i < i')
    ensures Stands(c, n + (left - left'), i', x') && AllHold(s, Skipped(c, i', x'))
    ensures p' != null ==> p' == s[i'] && (left' > 0 ==> x' == 0) && (x' == 0 || x' < |c[i']|)
    ensures p' == null ==> n + (left - left') == |Flat(c)| && (left' > 0 || c[|c| - 1] != [])
  {
    hide AllHold, Skipped, Flat;
    HoldAt(s, Skipped(c, i, x), i);
    var k := Min(left, p.Length());
    SkipInBlock(p, k, s, c, i, x);
    HoldAt(s, Skipped(c, i, x + k), i);
    left', p', i', x' := left - k, p, i, x + k;
    if p.Length() == 0 {
      StandsOn(c, n + k, i);
      p' := p.cont;
      if p' != null {
        i', x' := i + 1, 0;
      }
    }
  }

  /** The loop of skip. */
  method SkipBytes(bytesToSkip: nat, head: MessageBlock, ghost s: seq<MessageBlock>, ghost c: seq<seq<Byte>>)
    returns (result: bool, ghost d: seq<seq<Byte>>)
    requires Chain(head, s, c)
    modifies (set b | b in s)`rd
    ensures Chain(head, s, d) && Flat(d) == Flat(c)[Min(bytesToSkip, |Flat(c)|)..]
    ensures result <==> bytesToSkip == 0 || bytesToSkip < |Flat(c)| || (bytesToSkip == |Flat(c)| && c[|c| - 1] == [])
  {
    var left: nat, p := bytesToSkip, head;
    ghost var i: nat, x: nat := 0, 0;
    result := true;
    SkippedNext(c, 0);
    assert Stands(c, 0, 0, 0);
    hide AllHold, Skipped, Flat, Linked, Stands, Min;
    while left > 0
      invariant result && |s| == |c| && i < |s| && head == s[0] && p == s[i] && left <= bytesToSkip
      invariant Stands(c, bytesToSkip - left, i, x) && (x == 0 || x < |c[i]|)
      invariant AllHold(s, Skipped(c, i, x)) && Linked(s, null)
      decreases left + |s| - i
    {
      var next;
      left, next, i, x := SkipTurn(left, p, s, c, bytesToSkip - left, i, x);
      if next == null {
        result := false;
        break;
      }
      p := next;
    }
    d := Skipped(c, i, x);
    SkipDone(c, bytesToSkip, left, i, x, result);
  }

  lemma SkipDone(c: seq<seq<Byte>>, n: nat, left: nat, i: nat, x: nat, result: bool)
    requires left <= n && Stands(c, n - left, i, x)
    requires if result then left == 0 && (x == 0 || x < |c[i]|)
      else n > 0 && n - left == |Flat(c)| && (left > 0 || c[|c| - 1] != [])
    ensures Flat(Skipped(c, i, x)) == Flat(c)[Min(n, |Flat(c)|)..]
    ensures result <==> n == 0 || n < |Flat(c)| || (n == |Flat(c)| && c[|c| - 1] == [])
  {
    hide Flat;
    SkippedFlat(c, i, x);
    if result {
      Reach(c, i, x);
    }
  }

  lemma HoldAt(s: seq<MessageBlock>, c: seq<seq<Byte>>, i: nat)
    requires AllHold(s, c) && i < |s|
    ensures |s| == |c| && Holds(s[i], c[i])
  {}

  /** The blocks before the first that is not empty are given back. */
  method ReleaseEmpty(head: MessageBlock, ghost s: seq<MessageBlock>, ghost c: seq<seq<Byte>>)
    returns (p: MessageBlock, ghost k: nat)
    requires Chain(head, s, c) && Flat(c) != []
    modifies (set b | b in s)`cont
    ensures k < |s| == |c| && p == s[k] && c[k] != [] && (forall i :: 0 <= i < k ==> c[i] == [])
    ensures Chain(p, s[k..], c[k..]) && Flat(c[k..]) == Flat(c)
  {
    p, k := head, 0;
    assert s[0..] == s && c[0..] == c;
    HoldAt(s, c, 0);
    hide Chain, Flat;
    while p.Length() == 0
      invariant 0 <= k < |s| == |c| && p == s[k] && Chain(p, s[k..], c[k..]) && Flat(c[k..]) == Flat(c)
      invariant Holds(p, c[k]) && forall i :: 0 <= i < k ==> c[i] == []
      decreases |s| - k
    {
      Nonempty(p, s[k..], c[k..]);
      assert s[k..][1..] == s[k + 1..] && c[k..][1..] == c[k + 1..];
      var q := p.cont;
      p.cont := null;
      p, k := q, k + 1;
    }
  }

  lemma Nonempty(p: MessageBlock, s: seq<MessageBlock>, c: seq<seq<Byte>>)
    requires Chain(p, s, c) && Flat(c) != [] && c != [] && c[0] == []
    ensures |s| > 1 && p.cont == s[1] && p !in s[1..]
    ensures Chain(p.cont, s[1..], c[1..]) && Flat(c[1..]) == Flat(c) && Holds(s[1], c[1])
  {
    RestChain(p, s, c);
    FlatSplit(c, 1);
    HoldAt(s, c, 1);
  }

  /** skip */
  method Skip(bytesToSkip: nat, head: MessageBlock, release: bool, ghost s: seq<MessageBlock>, ghost c: seq<seq<Byte>>)
    returns (result: bool, out: MessageBlock, ghost r: seq<MessageBlock>, ghost d: seq<seq<Byte>>)
    requires Chain(head, s, c) && (release ==> bytesToSkip < |Flat(c)|)
    modifies (set b | b in s)`rd, (set b | b in s)`cont
    ensures Chain(out, r, d) && Flat(d) == Flat(c)[Min(bytesToSkip, |Flat(c)|)..]
    ensures result <==> bytesToSkip == 0 || bytesToSkip < |Flat(c)| || (bytesToSkip == |Flat(c)| && c[|c| - 1] == [])
    ensures !release ==> out == head && r == s
    ensures release ==> |r| <= |s| && r == s[|s| - |r|..] && out.rd < out.wr
  {
    result, d := SkipBytes(bytesToSkip, head, s, c);
    out, r := head, s;
    if release {
      hide Chain, Flat;
      ghost var k;
      out, k := ReleaseEmpty(head, s, d);
      r, d := s[k..], d[k..];
    }
  }

  /** Cutting a chain and joining its parts again restores its bytes. */
  method GetThenAppend(n: nat, head: MessageBlock, ghost s: seq<MessageBlock>, ghost c: seq<seq<Byte>>)
    returns (first: MessageBlock, ghost r: seq<MessageBlock>, ghost d: seq<seq<Byte>>, bytes: seq<Byte>)
    requires Chain(head, s, c) && 0 < n < |Flat(c)|
    modifies (set b | b in s)`cont, (set b | b in s)`wr
    ensures first == head && Chain(first, r, d) && bytes == Flat(d) == Flat(c)
  {
    hide *;
    var out, p;
    ghost var a, ca, b, cb;
    p, out, a, ca, b, cb := Get(n, head, s, c);
    first := head;
    Append(first, out, a, ca, b, cb);
    r, d := a + b, ca + cb;
    bytes := ToString(first, r, d);
    Rejoined(Flat(c), n);
  }

  lemma Rejoined(w: seq<Byte>, n: nat)
    requires n < |w|
    ensures w[..Min(n, |w|)] + w[Min(n, |w|)..] == w
  {}
}
