/** Message blocks: linked views, by read and write position, of data blocks
    that several of them may share. */
module MessageBlocks {
  import opened Wrappers

  class MessageBlock {
    var data: array<Byte>
    var rd: nat
    var wr: nat
    var cont: MessageBlock?

    /** A block of `capacity` bytes without content. */
    constructor (capacity: nat)
      ensures fresh(data) && data.Length == capacity && rd == wr == 0 && cont == null
    {
      data := new Byte[capacity];
      rd, wr, cont := 0, 0, null;
    }

    /** A second view of the same data block. */
    constructor Sharing(b: MessageBlock)
      ensures data == b.data && rd == b.rd && wr == b.wr && cont == null
    {
      data, rd, wr, cont := b.data, b.rd, b.wr, null;
    }

    function Length(): nat
      requires rd <= wr
      reads this
    {
      wr - rd
    }

    function Space(): int
      reads this
    {
      data.Length - wr
    }
  }

  /** The content of a block. */
  ghost predicate Holds(b: MessageBlock, x: seq<Byte>)
    reads b`data, b`rd, b`wr, b.data
  {
    b.rd <= b.wr <= b.data.Length && b.data[b.rd..b.wr] == x
  }

  ghost predicate AllHold(s: seq<MessageBlock>, c: seq<seq<Byte>>)
    reads s`data, s`rd, s`wr, set b | b in s :: b.data
  {
    |s| == |c| && forall i :: 0 <= i < |s| ==> Holds(s[i], c[i])
  }

  /** The blocks of `s` lead one to the next and then to `next`. */
  ghost predicate Linked(s: seq<MessageBlock>, next: MessageBlock?)
    reads s`cont
  {
    && (forall i :: 0 <= i < |s| ==> s[i].cont == At(s, i + 1, next))
    && (forall i, j :: 0 <= i < j < |s| ==> s[i] != s[j])
  }

  function At(s: seq<MessageBlock>, i: nat, next: MessageBlock?): MessageBlock? {
    if i < |s| then s[i] else next
  }

  /** The chain that starts at `head` has the blocks `s` with the contents `c`. */
  ghost predicate Chain(head: MessageBlock?, s: seq<MessageBlock>, c: seq<seq<Byte>>)
    reads s, set b | b in s :: b.data
  {
    head == At(s, 0, null) && Linked(s, null) && AllHold(s, c)
  }

  /** The bytes that a chain with these contents stands for. */
  function Flat(c: seq<seq<Byte>>): seq<Byte> {
    if c == [] then [] else c[0] + Flat(c[1..])
  }

  lemma {:induction false} FlatAppend(c: seq<seq<Byte>>, d: seq<seq<Byte>>)
    ensures Flat(c + d) == Flat(c) + Flat(d)
  {
    if c == [] {
      assert c + d == d;
    } else {
      assert (c + d)[1..] == c[1..] + d;
      FlatAppend(c[1..], d);
    }
  }

  lemma FlatSplit(c: seq<seq<Byte>>, i: nat)
    requires i <= |c|
    ensures Flat(c) == Flat(c[..i]) + Flat(c[i..])
    ensures i < |c| ==> Flat(c[..i + 1]) == Flat(c[..i]) + c[i] && Flat(c[i..]) == c[i] + Flat(c[i + 1..])
  {
    assert c == c[..i] + c[i..];
    FlatAppend(c[..i], c[i..]);
    if i < |c| {
      assert c[..i + 1] == c[..i] + [c[i]];
      FlatAppend(c[..i], [c[i]]);
    }
  }

  lemma FlatWhole(c: seq<seq<Byte>>)
    ensures Flat(c[..|c|]) == Flat(c) && Flat(c[..0]) == []
  {
    assert c[..|c|] == c;
  }

  /** toString */
  method ToString(head: MessageBlock?, ghost s: seq<MessageBlock>, ghost c: seq<seq<Byte>>) returns (result: seq<Byte>)
    requires Chain(head, s, c)
    ensures result == Flat(c)
  {
    result := [];
    var p := head;
    ghost var i := 0;
    while p != null
      invariant 0 <= i <= |s| == |c| && p == At(s, i, null) && result == Flat(c[..i])
      decreases |s| - i
    {
      FlatSplit(c, i);
      assert Holds(p, c[i]);
      result := result + p.data[p.rd..p.wr];
      p := p.cont;
      i := i + 1;
    }
    FlatWhole(c);
  }

  /** total_length */
  method TotalLength(head: MessageBlock?, ghost s: seq<MessageBlock>, ghost c: seq<seq<Byte>>) returns (total: nat)
    requires Chain(head, s, c)
    ensures total == |Flat(c)|
  {
    total := 0;
    var p := head;
    ghost var i := 0;
    while p != null
      invariant 0 <= i <= |s| == |c| && p == At(s, i, null) && total == |Flat(c[..i])|
      decreases |s| - i
    {
      FlatSplit(c, i);
      assert Holds(p, c[i]);
      total := total + p.Length();
      p := p.cont;
      i := i + 1;
    }
    FlatWhole(c);
  }

  /** Two lists of blocks, the first of which goes on into the second. */
  lemma Joined(s: seq<MessageBlock>, u: seq<MessageBlock>)
    requires Linked(s, At(u, 0, null)) && Linked(u, null) && forall b :: b in s ==> b !in u
    ensures Linked(s + u, null)
  {
    var v: seq<MessageBlock> := s + u;
    forall i | 0 <= i < |v|
      ensures v[i].cont == At(v, i + 1, null)
    {
      if i >= |s| {
        assert v[i] == u[i - |s|];
      }
    }
    forall i, j | 0 <= i < j < |v|
      ensures v[i] != v[j]
    {
      if i < |s| <= j {
        assert v[i] in s && v[j] == u[j - |s|];
      } else if |s| <= i {
        assert v[i] == u[i - |s|] && v[j] == u[j - |s|];
      }
    }
  }

  lemma HoldJoin(s: seq<MessageBlock>, c: seq<seq<Byte>>, u: seq<MessageBlock>, d: seq<seq<Byte>>)
    requires AllHold(s, c) && AllHold(u, d)
    ensures AllHold(s + u, c + d)
  {
    hide Holds;
  }

  lemma HoldPart(s: seq<MessageBlock>, c: seq<seq<Byte>>, i: nat)
    requires AllHold(s, c) && i <= |s|
    ensures AllHold(s[..i], c[..i]) && AllHold(s[i..], c[i..])
  {
    hide Holds;
  }

  lemma Parted(s: seq<MessageBlock>, i: nat)
    requires Linked(s, null) && i <= |s|
    ensures Linked(s[..i], At(s, i, null)) && Linked(s[i..], null) && At(s[i..], 0, null) == At(s, i, null)
    ensures forall b :: b in s[..i] ==> b !in s[i..]
  {
    var v, u: seq<MessageBlock> := s[..i], s[i..];
    forall j | 0 <= j < |v|
      ensures v[j].cont == At(v, j + 1, At(s, i, null))
    {
      assert v[j] == s[j];
    }
    forall j | 0 <= j < |u|
      ensures u[j].cont == At(u, j + 1, null)
    {
      assert u[j] == s[i + j];
    }
  }

  /** append */
  method Append(head: MessageBlock, tail: MessageBlock?, ghost s: seq<MessageBlock>, ghost c: seq<seq<Byte>>,
                ghost u: seq<MessageBlock>, ghost d: seq<seq<Byte>>)
    requires Chain(head, s, c) && Chain(tail, u, d) && forall b :: b in s ==> b !in u
    modifies (set b | b in s)`cont
    ensures Chain(head, s + u, c + d) && Flat(c + d) == Flat(c) + Flat(d)
  {
    var p := head;
    ghost var i := 0;
    while p.cont != null
      invariant 0 <= i < |s| && p == s[i]
      decreases |s| - i
    {
      p := p.cont;
      i := i + 1;
    }
    assert p in s && p !in u;
    hide AllHold;
    p.cont := tail;
    assert Linked(s, tail);
    hide Linked;
    Joined(s, u);
    HoldJoin(s, c, u, d);
    FlatAppend(c, d);
  }
}
