/** crunch: a chain of message blocks becomes a single block. */
module StreamCrunch {
  import opened Wrappers
  import opened MessageBlocks
  import opened StreamTools

  /** The bytes of a buffer from position `k` on. */
  ghost predicate SameFrom(now: seq<Byte>, before: seq<Byte>, k: nat) {
    |now| == |before| && forall j :: k <= j < |now| ==> now[j] == before[j]
  }

  /** ACE_Message_Block::crunch: the content moves to the front of its buffer. */
  method MoveToFront(b: MessageBlock, ghost x: seq<Byte>) returns (result: int)
    requires Holds(b, x)
    modifies b`rd, b`wr, b.data
    ensures result == 0 && b.rd == 0 && Holds(b, x) && SameFrom(b.data[..], old(b.data[..]), |x|)
  {
    if b.rd != 0 {
      if b.rd > b.wr {
        return -1;
      }
      var len := b.Length();
      for i := 0 to len
        modifies b.data
        invariant b.data[..i] == x[..i]
        invariant SameFrom(b.data[..], old(b.data[..]), i)
      {
        assert x[i] == old(b.data[..])[b.rd + i] == b.data[..][b.rd + i];
        b.data[i] := b.data[b.rd + i];
      }
      b.rd := 0;
      b.wr := len;
      assert x[..len] == x;
    }
    result := 0;
  }

  /** ACE_Message_Block::copy: `n` bytes are added behind the content. */
  method Copy(b: MessageBlock, src: array<Byte>, from: nat, n: nat, ghost x: seq<Byte>, ghost y: seq<Byte>)
    returns (result: int)
    requires Holds(b, x) && from + n <= src.Length && y == src[from..from + n]
    requires src == b.data && n > 0 ==> b.wr <= from || from + n <= b.wr
    modifies b`wr, b.data
    ensures result == if n <= old(b.Space()) then 0 else -1
    ensures result == 0 ==> b.wr == old(b.wr) + n && Holds(b, x + y)
    ensures result == 0 ==> SameFrom(b.data[..], old(b.data[..]), b.wr)
    ensures result == -1 ==> unchanged(b) && unchanged(b.data)
  {
    if b.Space() < n {
      return -1;
    }
    for i := 0 to n
      modifies b.data
      invariant b.data[b.rd..b.wr + i] == x + y[..i]
      invariant SameFrom(b.data[..], old(b.data[..]), b.wr + i)
      invariant b.data[..b.wr] == old(b.data[..b.wr])
      invariant src != b.data ==> unchanged(src)
    {
      assert y[i] == src[from + i] by {
        if src == b.data {
          assert from + i < b.wr ==> src[..b.wr][from + i] == old(src[..b.wr])[from + i];
          assert src[..][from + i] == old(src[..])[from + i];
        }
      }
      b.data[b.wr + i] := src[from + i];
      assert b.data[b.rd..b.wr + (i + 1)] == b.data[b.rd..b.wr + i] + [y[i]];
    }
    assert y[..n] == y;
    b.wr := b.wr + n;
    return 0;
  }

  /** Where the content of a block is: in the first block's buffer from `rd` on, or not there. */
  datatype Place = InHead(rd: nat) | Elsewhere

  ghost predicate Lies(s: seq<MessageBlock>, at: seq<Place>)
    reads s`data, s`rd
  {
    |at| == |s| && forall i :: 0 <= i < |s| ==> at[i] == if s[i].data == s[0].data then InHead(s[i].rd) else Elsewhere
  }

  /** Does part `i` lie where the bytes before it are going to be put? */
  ghost predicate Covered(c: seq<seq<Byte>>, at: seq<Place>, i: nat)
    requires i < |c| == |at|
  {
    at[i].InHead? && at[i].rd + |c[i]| <= |Flat(c[..i])|
  }

  /** Does it lie on both sides of the place that it is copied to? */
  ghost predicate Straddles(c: seq<seq<Byte>>, at: seq<Place>, i: nat)
    requires i < |c| == |at|
  {
    at[i].InHead? && at[i].rd < |Flat(c[..i])| < at[i].rd + |c[i]|
  }

  ghost predicate NoStraddle(c: seq<seq<Byte>>, at: seq<Place>)
    requires |c| == |at|
  {
    forall i :: 0 < i < |c| ==> !Straddles(c, at, i)
  }

  /** What the first `i` parts are put together to: a part that is covered is
      read from what was put there. */
  ghost function Crunched(c: seq<seq<Byte>>, at: seq<Place>, i: nat): (r: seq<Byte>)
    requires 0 < i <= |c| == |at|
    ensures |r| == |Flat(c[..i])|
  {
    FlatSplit(c, i - 1);
    FlatWhole(c);
    if i == 1 then c[0]
    else
      var r := Crunched(c, at, i - 1);
      r + if Covered(c, at, i - 1) then r[at[i - 1].rd..at[i - 1].rd + |c[i - 1]|] else c[i - 1]
  }

  /** Every part that is covered is found again where it lies. */
  ghost predicate Recurs(c: seq<seq<Byte>>, at: seq<Place>)
    requires |c| == |at|
  {
    forall i :: 0 < i < |c| && Covered(c, at, i) ==> RecursAt(c, at, i)
  }

  ghost predicate RecursAt(c: seq<seq<Byte>>, at: seq<Place>, i: nat)
    requires i < |c| == |at|
  {
    at[i].InHead? && at[i].rd + |c[i]| <= |Flat(c)| && Flat(c)[at[i].rd..at[i].rd + |c[i]|] == c[i]
  }

  /** The first `i` parts are put together to their bytes as long as those that
      are covered recur. */
  lemma {:induction false} CrunchedPrefix(c: seq<seq<Byte>>, at: seq<Place>, i: nat)
    requires 0 < i <= |c| == |at|
    ensures Crunched(c, at, i) == Flat(c[..i]) <==> forall j :: 0 < j < i && Covered(c, at, j) ==> RecursAt(c, at, j)
  {
    if i == 1 {
      FlatSplit(c, 0);
      FlatWhole(c);
    } else {
      CrunchedPrefix(c, at, i - 1);
      CrunchedStep(c, at, i - 1);
      hide Crunched, Flat, Covered, RecursAt;
    }
  }

  lemma CrunchedStep(c: seq<seq<Byte>>, at: seq<Place>, i: nat)
    requires 0 < i < |c| == |at|
    ensures Crunched(c, at, i + 1) == Flat(c[..i + 1]) <==>
      Crunched(c, at, i) == Flat(c[..i]) && (Covered(c, at, i) ==> RecursAt(c, at, i))
  {
    FlatSplit(c, i);
    var covered, rd := Covered(c, at, i), if at[i].InHead? then at[i].rd else 0;
    PartsEqual(Crunched(c, at, i), Flat(c[..i]), c[i], covered, rd, Flat(c));
    hide Flat;
  }

  /** Reading from what is there already yields `x` if it stands there in the whole. */
  lemma PartsEqual(r: seq<Byte>, f: seq<Byte>, x: seq<Byte>, covered: bool, rd: nat, whole: seq<Byte>)
    requires |r| == |f| && f <= whole && (covered ==> rd + |x| <= |f|)
    ensures var y := if covered then r[rd..rd + |x|] else x;
      r + y == f + x <==> r == f && (covered ==> whole[rd..rd + |x|] == x)
  {
    var y := if covered then r[rd..rd + |x|] else x;
    if r + y == f + x {
      assert r == (r + y)[..|r|] && y == (r + y)[|r|..];
      assert f == (f + x)[..|f|] && x == (f + x)[|f|..];
    }
    if covered {
      assert f[rd..rd + |x|] == whole[rd..rd + |x|];
    }
  }

  /** Putting the parts together gives their bytes if and only if those that are
      covered recur. */
  lemma CrunchedKeeps(c: seq<seq<Byte>>, at: seq<Place>)
    requires 0 < |c| == |at|
    ensures Crunched(c, at, |c|) == Flat(c) <==> Recurs(c, at)
  {
    CrunchedPrefix(c, at, |c|);
    FlatWhole(c);
  }

  /** So it does for an unshared first buffer, and if each part in it lies behind
      the place that it is copied to. */
  lemma BehindKeeps(c: seq<seq<Byte>>, at: seq<Place>)
    requires 0 < |c| == |at|
    requires forall i :: 0 < i < |c| && at[i].InHead? ==> |Flat(c[..i])| <= at[i].rd
    ensures NoStraddle(c, at) && Recurs(c, at) && Crunched(c, at, |c|) == Flat(c)
  {
    forall i | 0 < i < |c| && Covered(c, at, i)
      ensures RecursAt(c, at, i)
    {
      FlatMono(c, i, |c|);
    }
    CrunchedKeeps(c, at);
  }

  /** The blocks from `i` on can still be read while the bytes before them are
      written to `buffer`: all but those that are covered hold their content. */
  ghost predicate Waiting(s: seq<MessageBlock>, c: seq<seq<Byte>>, at: seq<Place>, buffer: array<Byte>, i: nat)
    requires |s| == |c| == |at|
    reads s`data, s`rd, s`wr, set b | b in s :: b.data
  {
    forall j :: i <= j < |s| ==> WaitingAt(s[j], c[j], at[j], buffer, |Flat(c[..j])|)
  }

  ghost predicate WaitingAt(b: MessageBlock, x: seq<Byte>, place: Place, buffer: array<Byte>, n: nat)
    reads b`data, b`rd, b`wr, b.data
  {
    && b.rd <= b.wr <= b.data.Length && b.wr - b.rd == |x|
    && place == (if b.data == buffer then InHead(b.rd) else Elsewhere)
    && if b.data == buffer && b.rd < n then b.wr <= n else Holds(b, x)
  }

  lemma FlatMono(c: seq<seq<Byte>>, i: nat, j: nat)
    requires i <= j <= |c|
    ensures |Flat(c[..i])| <= |Flat(c[..j])| <= |Flat(c)|
  {
    FlatSplit(c, j);
    FlatSplit(c[..j], i);
    assert c[..j][..i] == c[..i];
  }

  /** Writing below a block's content leaves it alone. */
  lemma SliceSame(now: seq<Byte>, before: seq<Byte>, n: nat, lo: nat, hi: nat)
    requires SameFrom(now, before, n) && n <= lo <= hi <= |now|
    ensures now[lo..hi] == before[lo..hi]
  {}

  /** The copy in progress: the blocks with their contents, the first of them
      that is not done yet and the number of bytes written. */
  datatype Progress = Progress(s: seq<MessageBlock>, c: seq<seq<Byte>>, at: seq<Place>, i: nat, n: nat)

  twostate lemma StillWaiting(w: Progress)
    requires 0 < |w.s| == |w.c| == |w.at| && w.i <= |w.s| && w.n <= |Flat(w.c[..w.i])|
    requires old(Waiting(w.s, w.c, w.at, w.s[0].data, w.i))
    requires forall b :: b in w.s ==> b.data == old(b.data)
    requires SameFrom(w.s[0].data[..], old(w.s[0].data[..]), w.n)
    requires forall j :: w.i <= j < |w.s| ==> w.s[j].rd == old(w.s[j].rd) && w.s[j].wr == old(w.s[j].wr)
    requires forall j :: w.i <= j < |w.s| ==> w.s[j].data == w.s[0].data || unchanged(w.s[j].data)
    ensures Waiting(w.s, w.c, w.at, w.s[0].data, w.i)
  {
    var s, c := w.s, w.c;
    var now, before := s[0].data[..], old(s[0].data[..]);
    forall j | w.i <= j < |s|
      ensures WaitingAt(s[j], c[j], w.at[j], s[0].data, |Flat(c[..j])|)
    {
      var b := s[j];
      assert old(WaitingAt(s[j], c[j], w.at[j], s[0].data, |Flat(c[..j])|));
      FlatMono(c, w.i, j);
      if b.data == s[0].data && |Flat(c[..j])| <= b.rd {
        assert b.data[b.rd..b.wr] == now[b.rd..b.wr];
        assert c[j] == before[b.rd..b.wr];
        SliceSame(now, before, w.n, b.rd, b.wr);
      }
    }
  }

  /** One turn of the copy loop: block `i` is added to the first one. */
  method AddBlock(head: MessageBlock, p: MessageBlock, ghost s: seq<MessageBlock>, ghost c: seq<seq<Byte>>,
                  ghost at: seq<Place>, ghost i: nat) returns (result: int)
    requires |s| == |c| == |at| && 0 < i < |s| && head == s[0] && p == s[i] && Linked(s, null)
    requires Holds(head, Crunched(c, at, i)) && head.rd == 0 && Waiting(s, c, at, head.data, i)
    requires |Flat(c)| <= head.data.Length
    modifies head`wr, head.data
    ensures result == 0
    ensures Holds(head, Crunched(c, at, i + 1)) && Waiting(s, c, at, head.data, i + 1)
  {
    hide Flat, Linked, Crunched, Covered, Holds, WaitingAt;
    ghost var r, y := Crunched(c, at, i), Next(c, at, i);
    ReadyToCopy(head, p, s, c, at, i);
    result := Copy(head, p.data, p.rd, p.Length(), r, y);
    HeldLength(head, r + y);
    StillWaiting(Progress(s, c, at, i + 1, head.wr));
  }

  lemma HeldLength(b: MessageBlock, x: seq<Byte>)
    requires Holds(b, x)
    ensures b.wr - b.rd == |x|
  {}

  /** What the next part adds. */
  ghost function Next(c: seq<seq<Byte>>, at: seq<Place>, i: nat): seq<Byte>
    requires 0 < i < |c| == |at|
  {
    var r := Crunched(c, at, i);
    if Covered(c, at, i) then r[at[i].rd..at[i].rd + |c[i]|] else c[i]
  }

  /** What is read when block `i` is copied. */
  lemma ReadyToCopy(head: MessageBlock, p: MessageBlock, s: seq<MessageBlock>, c: seq<seq<Byte>>, at: seq<Place>,
                    i: nat)
    requires |s| == |c| == |at| && 0 < i < |s| && head == s[0] && p == s[i] && Linked(s, null)
    requires Holds(head, Crunched(c, at, i)) && head.rd == 0 && Waiting(s, c, at, head.data, i)
    requires |Flat(c)| <= head.data.Length
    ensures p != head && p.rd <= p.wr <= p.data.Length && p.Length() <= head.Space() && head.wr == |Flat(c[..i])|
    ensures forall j :: i < j < |s| ==> s[j] != head
    ensures p.data[p.rd..p.wr] == Next(c, at, i) && |Next(c, at, i)| == |c[i]|
    ensures p.data == head.data && p.rd < p.wr ==> head.wr <= p.rd || p.wr <= head.wr
    ensures Crunched(c, at, i + 1) == Crunched(c, at, i) + Next(c, at, i)
    ensures |Flat(c[..i + 1])| == |Flat(c[..i])| + |c[i]|
  {
    FlatSplit(c, i);
    FlatMono(c, i + 1, |c|);
    assert WaitingAt(p, c[i], at[i], head.data, |Flat(c[..i])|);
    hide Flat, Waiting;
    if Covered(c, at, i) {
      assert p.data[p.rd..p.wr] == head.data[..head.wr][p.rd..p.wr];
    }
  }

  /** crunch when everything fits into the first block's buffer. */
  method CrunchInPlace(head: MessageBlock, ghost s: seq<MessageBlock>, ghost c: seq<seq<Byte>>, ghost at: seq<Place>)
    requires Chain(head, s, c) && |Flat(c)| <= head.data.Length && Lies(s, at) && NoStraddle(c, at)
    modifies head, head.data
    ensures |c| == |at| > 0 && Holds(head, Crunched(c, at, |c|)) && head.cont == null && head.data == old(head.data)
    ensures Holds(head, Flat(c)) <==> Recurs(c, at)
  {
    hide *;
    var result := BeginInPlace(head, s, c, at);
    var p := head.cont;
    ghost var i := 1;
    NextAt(s, 0);
    while p != null
      invariant 0 < i <= |s| == |c| == |at| && p == At(s, i, null) && Linked(s, null) && head == s[0]
      invariant Holds(head, Crunched(c, at, i)) && head.rd == 0 && Waiting(s, c, at, head.data, i)
      invariant head.data == old(head.data)
      decreases |s| - i
    {
      AtThere(s, i);
      result := AddBlock(head, p, s, c, at, i);
      NextAt(s, i);
      p := p.cont;
      i := i + 1;
    }
    AtThere(s, i);
    head.cont := null;
    CrunchedKeeps(c, at);
    FlatWhole(c);
    HoldsOne(head, Crunched(c, at, |c|), Flat(c));
  }

  /** A block holds one content. */
  lemma HoldsOne(b: MessageBlock, x: seq<Byte>, y: seq<Byte>)
    requires Holds(b, x)
    ensures Holds(b, y) <==> x == y
  {}

  /** The first block's own content is where the others can be added. */
  method BeginInPlace(head: MessageBlock, ghost s: seq<MessageBlock>, ghost c: seq<seq<Byte>>, ghost at: seq<Place>)
    returns (result: int)
    requires Chain(head, s, c) && |Flat(c)| <= head.data.Length && Lies(s, at) && NoStraddle(c, at)
    modifies head`rd, head`wr, head.data
    ensures |s| == |c| == |at| > 0 && head == s[0] && Linked(s, null) && result == 0
    ensures Holds(head, Crunched(c, at, 1)) && head.rd == 0 && Waiting(s, c, at, head.data, 1)
  {
    StartWaiting(head, s, c, at);
    hide Flat, AllHold, Linked, Waiting, Lies, NoStraddle, Chain;
    result := MoveToFront(head, c[0]);
    StillWaiting(Progress(s, c, at, 1, |c[0]|));
  }

  lemma NextAt(s: seq<MessageBlock>, i: nat)
    requires Linked(s, null) && i < |s|
    ensures s[i].cont == At(s, i + 1, null)
  {}

  lemma AtThere(s: seq<MessageBlock>, i: nat)
    requires i <= |s|
    ensures At(s, i, null) == if i == |s| then null else s[i]
  {}

  lemma StartWaiting(head: MessageBlock, s: seq<MessageBlock>, c: seq<seq<Byte>>, at: seq<Place>)
    requires Chain(head, s, c) && Lies(s, at) && NoStraddle(c, at)
    ensures |s| == |c| == |at| > 0 && head == s[0] && Linked(s, null) && forall i :: 0 < i < |s| ==> s[i] != head
    ensures Holds(head, c[0]) && Waiting(s, c, at, head.data, 1) && Flat(c[..1]) == c[0]
  {
    assert c[..1] == [c[0]];
    FlatOne(c[0]);
    forall j | 1 <= j < |s|
      ensures WaitingAt(s[j], c[j], at[j], head.data, |Flat(c[..j])|)
    {
      assert !Straddles(c, at, j) && Holds(s[j], c[j]);
    }
  }

  /** The other branch: all blocks are copied into a fresh one. */
  method CrunchAnew(head: MessageBlock, ghost s: seq<MessageBlock>, ghost c: seq<seq<Byte>>, total: nat)
    returns (b: MessageBlock)
    requires Chain(head, s, c) && total == |Flat(c)|
    ensures fresh(b) && Holds(b, Flat(c)) && b.cont == null && b.data.Length == total
  {
    b := new MessageBlock(total);
    var p: MessageBlock? := head;
    ghost var i := 0;
    FlatWhole(c);
    hide Flat, Linked, AllHold, Chain, Holds;
    BeginAnew(head, s, c, b);
    while p != null
      invariant 0 <= i <= |s| == |c| && p == At(s, i, null) && Chain(head, s, c)
      invariant fresh(b) && fresh(b.data) && Holds(b, Flat(c[..i])) && b.rd == 0 && b.cont == null
      invariant b.data.Length == total
      decreases |s| - i
    {
      AtThere(s, i);
      CopyFits(b, p, head, s, c, i);
      var _ := Copy(b, p.data, p.rd, p.Length(), Flat(c[..i]), c[i]);
      p := p.cont;
      i := i + 1;
    }
    AtThere(s, i);
  }

  lemma BeginAnew(head: MessageBlock, s: seq<MessageBlock>, c: seq<seq<Byte>>, b: MessageBlock)
    requires Chain(head, s, c) && b.rd == b.wr == 0
    ensures |s| == |c| && At(s, 0, null) == head && Holds(b, [])
  {}

  /** The next block to be copied fits into the new one. */
  lemma CopyFits(b: MessageBlock, p: MessageBlock, head: MessageBlock, s: seq<MessageBlock>, c: seq<seq<Byte>>, i: nat)
    requires Chain(head, s, c) && i < |s| == |c| && p == s[i]
    requires Holds(b, Flat(c[..i])) && b.rd == 0 && b.data.Length == |Flat(c)|
    ensures p.rd <= p.wr <= p.data.Length && p.data[p.rd..p.wr] == c[i] && p.Length() <= b.Space()
    ensures Flat(c[..i + 1]) == Flat(c[..i]) + c[i] && p.cont == At(s, i + 1, null)
  {
    FlatSplit(c, i);
    FlatMono(c, i + 1, |c|);
    HoldAt(s, c, i);
  }

  /** crunch; `available` is whether a new block can be had when one is needed. */
  method Crunch(head: MessageBlock, available: bool, ghost s: seq<MessageBlock>, ghost c: seq<seq<Byte>>,
                ghost at: seq<Place>)
    returns (out: MessageBlock?)
    requires Chain(head, s, c) && Lies(s, at)
    requires |Flat(c)| <= head.data.Length ==> NoStraddle(c, at)
    modifies head, head.data
    ensures out == null <==> |Flat(c)| > old(head.data.Length) && !available
    ensures |c| == |at| > 0
    ensures |Flat(c)| <= old(head.data.Length) ==> out == head && out.data == old(head.data)
    ensures |Flat(c)| <= old(head.data.Length) ==> Chain(out, [out], [Crunched(c, at, |c|)])
    ensures |Flat(c)| <= old(head.data.Length) ==> (Chain(out, [out], [Flat(c)]) <==> Recurs(c, at))
    ensures |Flat(c)| > old(head.data.Length) && available ==> fresh(out) && out.data.Length == |Flat(c)|
    ensures |Flat(c)| > old(head.data.Length) && available ==> Chain(out, [out], [Flat(c)])
    ensures |Flat(c)| > old(head.data.Length) ==> unchanged(head) && unchanged(head.data)
  {
    var total := TotalLength(head, s, c);
    if total > head.data.Length {
      if !available {
        return null;
      }
      out := CrunchAnew(head, s, c, total);
    } else {
      CrunchInPlace(head, s, c, at);
      out := head;
    }
  }

  /** A chain that loses bytes: the second block views the part of the buffer
      that the first one is moved over. */
  method CrunchShared() returns (before: seq<Byte>, after: seq<Byte>)
    ensures before == [1, 0] && after == [1, 1]
  {
    hide *;
    var head := TwoViews();
    ghost var s, c, at := [head, head.cont], [[1], [0]], [InHead(1), InHead(0)];
    before := ToString(head, s, c);
    SharedParts(c, at);
    var out := Crunch(head, true, s, c, at);
    after := ToString(out, [out], [Crunched(c, at, 2)]);
    FlatOne(Crunched(c, at, 2));
  }

  method TwoViews() returns (head: MessageBlock)
    ensures fresh(head) && fresh(head.data) && head.data.Length == 2 && head.cont != null
    ensures Chain(head, [head, head.cont], [[1], [0]]) && Lies([head, head.cont], [InHead(1), InHead(0)])
  {
    head := new MessageBlock(2);
    head.data[0], head.data[1] := 0, 1;
    var next := new MessageBlock.Sharing(head);
    head.rd, head.wr, next.rd, next.wr, head.cont := 1, 2, 0, 1, next;
  }

  lemma SharedParts(c: seq<seq<Byte>>, at: seq<Place>)
    requires c == [[1], [0]] && at == [InHead(1), InHead(0)]
    ensures Flat(c) == [1, 0] && Crunched(c, at, 2) == [1, 1] && NoStraddle(c, at)
  {
    assert c[..1] == [[1]] && c[1..] == [[0]];
    FlatSplit(c, 1);
    FlatOne(c[0]);
    FlatOne(c[1]);
    assert Covered(c, at, 1);
    assert Crunched(c, at, 1) == [1];
  }
}
