/** sort: a range of siblings is relinked in order, with `deep` also the lists below. */
module TreeSort {
  import opened Forests
  import opened TreeLinks
  import opened TreeEdits
  import opened TreeSurgery
  import opened Trees
  import opened TreeFlatten
  import opened TreeReparent
  import opened TreeRearrange
  import opened SiblingOrder

  ghost function Keys(nodes: set<Node>): (m: map<Node, Value>)
    reads nodes
  {
    map n | n in nodes :: n.data
  }

  function Rewired(o: Links, m: Node, before: Node?, after: Node?, par: Node?, q: seq<Node>): Links
    requires |q| > 0
  {
    Links(o.parent,
          if m == par && before == null then q[0] else o.first,
          if m == par && after == null then q[|q| - 1] else o.last,
          if m == after then q[|q| - 1] else o.prev,
          if m == before then q[0] else o.next)
  }

  ghost predicate Differ(q: seq<Node>) {
    forall i, j :: 0 <= i < j < |q| ==> q[i] != q[j]
  }

  ghost function Members(q: seq<Node>): set<Node> {
    set x | x in q
  }

  /** The loop that chains the siblings up, behind `before`. */
  method ChainUp(q: seq<Node>, before: Node?) returns (prev: Node?)
    requires |q| > 0 && Differ(q) && before !in q
    requires before != null ==> before.next_sibling == q[0]
    modifies Members(q)`prev_sibling, Members(q)`next_sibling, Opt(before)`next_sibling
    ensures prev == PrevIn(q, before, |q| - 1)
    ensures forall j: nat {:trigger q[j].prev_sibling} :: j + 1 < |q| ==> q[j].prev_sibling == PrevIn(q, before, j)
    ensures forall j: nat {:trigger q[j].next_sibling} :: j + 1 < |q| ==> q[j].next_sibling == q[j + 1]
    ensures before != null ==> before.next_sibling == q[0]
  {
    prev := before;
    var i := 0;
    while i != |q| - 1
      invariant 0 <= i < |q| && prev == PrevIn(q, before, i)
      invariant before != null ==> before.next_sibling == q[0]
      invariant forall j: nat {:trigger q[j].prev_sibling} :: j < i ==> q[j].prev_sibling == PrevIn(q, before, j)
      invariant forall j: nat {:trigger q[j].next_sibling} :: j + 1 < i ==> q[j].next_sibling == q[j + 1]
    {
      q[i].prev_sibling := prev;
      if prev != null {
        prev.next_sibling := q[i];
      }
      prev := q[i];
      i := i + 1;
    }
    if prev != null {
      prev.next_sibling := q[i];
    }
  }

  /** The siblings `q` go between what was before `from` and what was behind `last`. */
  method Reassemble(q: seq<Node>, from: Node, last: Node)
    requires |q| > 0 && Differ(q) && forall i :: 0 <= i < |q| ==> q[i].parent == from.parent
    requires from.prev_sibling !in q && last.next_sibling !in q && from.parent !in q
    requires from.prev_sibling != null ==> from.prev_sibling != last.next_sibling && from.prev_sibling != from.parent
    requires last.next_sibling != null ==> last.next_sibling != from.parent
    modifies Members(q)`prev_sibling, Members(q)`next_sibling
    modifies Opt(from.prev_sibling)`next_sibling, Opt(last.next_sibling)`prev_sibling
    modifies Opt(from.parent)`first_child, Opt(from.parent)`last_child
    ensures forall j: nat :: j < |q| ==>
      q[j].prev_sibling == PrevIn(q, old(from.prev_sibling), j) &&
        q[j].next_sibling == NextIn(q, old(last.next_sibling), j)
    ensures var b := old(from.prev_sibling); b != null ==> b.next_sibling == q[0]
    ensures var n := old(last.next_sibling); n != null ==> n.prev_sibling == q[|q| - 1]
    ensures var p := old(from.parent); p != null ==>
      && p.first_child == (if old(from.prev_sibling) == null then q[0] else old(from.parent.first_child))
      && p.last_child == (if old(last.next_sibling) == null then q[|q| - 1] else old(from.parent.last_child))
  {
    var prev := from.prev_sibling;
    var next := last.next_sibling;
    if prev == null {
      if q[0].parent != null {
        q[0].parent.first_child := q[0];
      }
    } else {
      prev.next_sibling := q[0];
    }
    var before := prev;
    prev := ChainUp(q, before);
    var end := q[|q| - 1];
    assert forall j: nat :: j + 1 < |q| ==> q[j] != end;
    hide Differ;
    end.next_sibling := next;
    end.prev_sibling := prev;
    if next == null {
      if end.parent != null {
        end.parent.last_child := end;
      }
    } else {
      next.prev_sibling := end;
    }
  }

  lemma {:induction false} RootsApart(p: Forest<Node>)
    requires NoDup(p)
    ensures Differ(Roots(p))
  {
    if p.Cons? {
      RootsIn(p.right);
      RootsApart(p.right);
    }
  }

  lemma RangeRoot(f: Forest<Node>, first: Node, last: Node, s: Forest<Node>, r: Forest<Node>, p: Forest<Node>, j: nat)
    requires Range(f, first, last, s, r) && Shuffled(s, p) && j < |Roots(p)|
    ensures Roots(p)[j] in Elems(f) && Roots(p)[j] in Elems(s) && Link(f, Roots(p)[j]).parent == Link(f, first).parent
  {
    RearrangedRoot(f, first, last, s, r, p, j);
    RootsAgree(s, p, j);
  }

  /** What Reassemble asks for. */
  lemma Rearrangeable(f: Forest<Node>, first: Node, last: Node, s: Forest<Node>, r: Forest<Node>, p: Forest<Node>)
    requires Range(f, first, last, s, r) && Shuffled(s, p)
    ensures |Roots(p)| > 0 && Differ(Roots(p)) && Members(Roots(p)) <= Elems(f)
    ensures first in Elems(f) && last in Elems(f)
    ensures forall i :: 0 <= i < |Roots(p)| ==>
      Roots(p)[i] in Elems(f) && Link(f, Roots(p)[i]).parent == Link(f, first).parent
    ensures var a, z, q := Link(f, first), Link(f, last), Roots(p);
      && z.next == First(r) && a.prev !in q && z.next !in q && a.parent !in q
      && Opt(a.prev) + Opt(z.next) + Opt(a.parent) <= Elems(f)
      && (a.prev != null ==> a.prev != z.next && a.prev != a.parent) && (z.next != null ==> z.next != a.parent)
  {
    hide *;
    RowNodes(f, first, last, s, r, p);
    RowBorders(f, first, last, s, r, p);
  }

  lemma RowNodes(f: Forest<Node>, first: Node, last: Node, s: Forest<Node>, r: Forest<Node>, p: Forest<Node>)
    requires Range(f, first, last, s, r) && Shuffled(s, p)
    ensures |Roots(p)| > 0 && Differ(Roots(p)) && Members(Roots(p)) <= Elems(f)
    ensures first in Elems(f) && last in Elems(f)
    ensures forall i :: 0 <= i < |Roots(p)| ==>
      Roots(p)[i] in Elems(f) && Link(f, Roots(p)[i]).parent == Link(f, first).parent
  {
    RangeEnds(f, first, last, s, r);
    RootsApart(p);
    RootsIn(p);
    RowBounds(p);
    forall i | 0 <= i < |Roots(p)|
      ensures Roots(p)[i] in Elems(f) && Link(f, Roots(p)[i]).parent == Link(f, first).parent
    {
      RangeRoot(f, first, last, s, r, p, i);
    }
  }

  lemma RowBorders(f: Forest<Node>, first: Node, last: Node, s: Forest<Node>, r: Forest<Node>, p: Forest<Node>)
    requires Range(f, first, last, s, r) && Shuffled(s, p)
    ensures first in Elems(f) && last in Elems(f)
    ensures var a, z, q := Link(f, first), Link(f, last), Roots(p);
      && z.next == First(r) && a.prev !in q && z.next !in q && a.parent !in q
      && Opt(a.prev) + Opt(z.next) + Opt(a.parent) <= Elems(f)
      && (a.prev != null ==> a.prev != z.next && a.prev != a.parent) && (z.next != null ==> z.next != a.parent)
  {
    RangeEnds(f, first, last, s, r);
    RootsIn(p);
  }

  lemma PositionOf(q: seq<Node>, m: Node) returns (j: nat)
    requires m in q
    ensures j < |q| && q[j] == m
  {
    j :| j < |q| && q[j] == m;
  }

  /** Reassemble seen from all `nodes` of a tree. */
  method ReassembleAround(q: seq<Node>, from: Node, last: Node, ghost nodes: set<Node>)
    requires |q| > 0 && Differ(q) && Members(q) <= nodes && forall i :: 0 <= i < |q| ==> q[i].parent == from.parent
    requires from.prev_sibling !in q && last.next_sibling !in q && from.parent !in q
    requires Opt(from.prev_sibling) + Opt(last.next_sibling) + Opt(from.parent) <= nodes
    requires from.prev_sibling != null ==> from.prev_sibling != last.next_sibling && from.prev_sibling != from.parent
    requires last.next_sibling != null ==> last.next_sibling != from.parent
    modifies nodes
    ensures forall m :: m in nodes ==> m.data == old(m.data)
    ensures forall j: nat :: j < |q| ==> Fields(q[j]) == old(Fields(q[j])).(
      prev := PrevIn(q, old(from.prev_sibling), j), next := NextIn(q, old(last.next_sibling), j))
    ensures forall m :: m in nodes && m !in q ==>
      Fields(m) == Rewired(old(Fields(m)), m, old(from.prev_sibling), old(last.next_sibling), old(from.parent), q)
  {
    hide Differ, PrevIn, NextIn;
    Reassemble(q, from, last);
  }

  ghost function RewiredIn(f: Forest<Node>, first: Node, r: Forest<Node>, p: Forest<Node>, m: Node): Links
    requires first in Elems(f) && m in Elems(f) && |Roots(p)| > 0
  {
    Rewired(Link(f, m), m, Link(f, first).prev, First(r), Link(f, first).parent, Roots(p))
  }

  lemma AroundRewired(f: Forest<Node>, first: Node, last: Node, s: Forest<Node>, r: Forest<Node>, p: Forest<Node>,
                      m: Node)
    requires Range(f, first, last, s, r) && Shuffled(s, p) && m in Elems(f)
    ensures first in Elems(f) && |Roots(p)| > 0 && m in Elems(Rearranged(f, first, p, r))
    ensures m !in Roots(p) ==> Link(Rearranged(f, first, p, r), m) == RewiredIn(f, first, r, p, m)
  {
    Rearrangeable(f, first, last, s, r, p);
    RearrangedElems(f, first, last, s, r, p);
    if m !in Roots(p) {
      RearrangedOther(f, first, last, s, r, p, m);
      LinkTriple(f, first, m);
    }
  }

  method RearrangeRow(q: seq<Node>, from: Node, last: Node, ghost f: Forest<Node>, ghost s: Forest<Node>,
                      ghost r: Forest<Node>, ghost p: Forest<Node>, ghost nodes: set<Node>)
    requires Range(f, from, last, s, r) && Shuffled(s, p) && q == Roots(p)
    requires nodes == Elems(f) && forall m :: m in nodes ==> Fields(m) == Link(f, m)
    modifies nodes
    ensures forall m :: m in nodes ==> m.data == old(m.data)
    ensures forall m :: m in nodes ==>
      m in Elems(Rearranged(f, from, p, r)) && Fields(m) == Link(Rearranged(f, from, p, r), m)
  {
    Rearrangeable(f, from, last, s, r, p);
    hide Elems, NoDup, Range, Shuffled, Rearranged, Link, Roots, First, Rewired, Differ, Members, PrevIn, NextIn, Below,
      Append, From;
    ReassembleAround(q, from, last, nodes);
    forall m | m in nodes
      ensures m in Elems(Rearranged(f, from, p, r)) && Fields(m) == Link(Rearranged(f, from, p, r), m)
    {
      AroundRewired(f, from, last, s, r, p, m);
      if m in q {
        var j := PositionOf(q, m);
        RearrangedRoot(f, from, last, s, r, p, j);
      }
    }
  }

  // ---- The sorted collection of nodes ----

  /** The list puts the node where the sequence of its roots would. */
  lemma {:induction false} InsertedAt(o: Order, acc: Forest<Node>, x: Node, k: Forest<Node>, i: nat)
    requires Reached(o, Roots(acc), x, i) && (i < |Roots(acc)| ==> o.Before(x, Roots(acc)[i]))
    ensures Roots(InsertTree(o, acc, x, k)) == Roots(acc)[..i] + [x] + Roots(acc)[i..]
  {
    if acc.Cons? {
      var q := Roots(acc.right);
      assert Roots(acc) == [acc.id] + q;
      if i > 0 {
        ReachedRest(o, acc.id, q, x, i);
        InsertedAt(o, acc.right, x, k, i - 1);
        SplitBehind(acc.id, q, x, i);
      }
    }
  }

  /** `x` does not come before any of the first `i`. */
  ghost predicate Reached(o: Order, q: seq<Node>, x: Node, i: nat) {
    i <= |q| && forall j :: 0 <= j < i ==> !o.Before(x, q[j])
  }

  lemma ReachedRest(o: Order, n: Node, q: seq<Node>, x: Node, i: nat)
    requires i > 0 && Reached(o, [n] + q, x, i)
    ensures !o.Before(x, n) && Reached(o, q, x, i - 1) && (i < |q| + 1 ==> ([n] + q)[i] == q[i - 1])
  {
    assert ([n] + q)[0] == n;
    assert forall j :: 0 <= j < i - 1 ==> q[j] == ([n] + q)[j + 1];
  }

  lemma SplitBehind(n: Node, q: seq<Node>, x: Node, i: nat)
    requires 0 < i <= |q| + 1
    ensures [n] + (q[..i - 1] + [x] + q[i - 1..]) == ([n] + q)[..i] + [x] + ([n] + q)[i..]
  {}

  /** Insertion into a std::multiset: behind all that is not greater. */
  method InsertSorted(q: seq<Node>, x: Node, less: (Value, Value) -> bool, ghost o: Order, ghost acc: Forest<Node>,
                      ghost k: Forest<Node>) returns (r: seq<Node>)
    requires q == Roots(acc) && less == o.less && Named(o, [x]) && Named(o, q)
    ensures r == Roots(InsertTree(o, acc, x, k))
  {
    var i := 0;
    while i < |q| && !less(x.data, q[i].data)
      invariant Reached(o, q, x, i)
    {
      i := i + 1;
    }
    assert [x][0] == x;
    InsertedAt(o, acc, x, k, i);
    r := q[..i] + [x] + q[i..];
  }

  /** The keys of these nodes are what they hold. */
  ghost predicate Named(o: Order, q: seq<Node>)
    reads Members(q)
  {
    forall i :: 0 <= i < |q| ==> q[i] in o.key && o.key[q[i]] == q[i].data
  }

  lemma NamedSome(o: Order, nodes: set<Node>, q: seq<Node>)
    requires o.key == Keys(nodes) && forall x :: x in q ==> x in nodes
    ensures Named(o, q)
  {}

  /** `q` is `s` in ascending order of what the nodes hold, those that are
      equivalent in the order of `s`. */
  ghost predicate StablySorted(less: (Value, Value) -> bool, s: seq<Node>, q: seq<Node>)
    reads Members(s), Members(q)
  {
    && multiset(q) == multiset(s)
    && (forall i, j :: 0 <= i < j < |q| ==> !less(q[j].data, q[i].data))
    && (forall a, b :: a in s && b in s && Comes(s, a, b) && !less(b.data, a.data) ==> Comes(q, a, b))
  }

  lemma KeyedSorted(o: Order, nodes: set<Node>, s: seq<Node>, q: seq<Node>)
    requires o.key == Keys(nodes) && Members(s) <= nodes && Members(q) <= nodes
    requires (forall x :: x in s ==> x in o.key) && (forall x :: x in q ==> x in o.key)
    requires Ascends(o.key, o.less, s, q)
    ensures StablySorted(o.less, s, q)
  {
    hide Comes;
    forall i, j | 0 <= i < j < |q|
      ensures !o.less(q[j].data, q[i].data)
    {
      assert q[i] in Members(q) && q[j] in Members(q);
    }
    forall a, b | a in s && b in s && Comes(s, a, b) && !o.less(b.data, a.data)
      ensures Comes(q, a, b)
    {
      assert a in Members(s) && b in Members(s);
    }
  }

  /** A sibling list of nodes of the tree and its sort, deep or not. */
  lemma RowSorted(o: Order, nodes: set<Node>, s: Forest<Node>)
    requires o.StrictWeak() && o.key == Keys(nodes) && Elems(s) <= nodes && NoDup(s)
    ensures StablySorted(o.less, Roots(s), Roots(Sorted(o, s)))
    ensures StablySorted(o.less, Roots(s), Roots(DeepSorted(o, s)))
  {
    RootsIn(s);
    SortedAscends(o, s);
    DeepAscends(o, s);
    SortedElems(o, s);
    DeepElems(o, s);
    RootsIn(Sorted(o, s));
    RootsIn(DeepSorted(o, s));
    hide Sorted, DeepSorted, Ascends, NoDup, Elems, Roots;
    KeyedSorted(o, nodes, Roots(s), Roots(Sorted(o, s)));
    KeyedSorted(o, nodes, Roots(s), Roots(DeepSorted(o, s)));
  }

  /** The loop that collects the range. */
  method Collect(from: Node, to: Node?, less: (Value, Value) -> bool, ghost o: Order, ghost s: Forest<Node>,
                 ghost nodes: set<Node>)
    returns (q: seq<Node>)
    requires s.Cons? && from == s.id && ChainedTo(s, to, nodes) && to !in Elems(s) && less == o.less
    requires o.key == Keys(nodes)
    requires Elems(s) <= nodes && NoDup(s)
    ensures q == Roots(Sorted(o, s))
    ensures o.StrictWeak() ==> StablySorted(less, Roots(s), q)
  {
    q := [];
    var it: Node? := from;
    ghost var acc: Forest<Node>, rest := Nil, s;
    while it != to
      invariant it == (if rest.Nil? then to else rest.id) && ChainedTo(rest, to, nodes) && to !in Elems(rest)
      invariant Elems(rest) <= nodes
      invariant q == Roots(acc) && SortInto(o, acc, rest) == Sorted(o, s) && Elems(acc) <= nodes
      decreases rest
    {
      NamedSome(o, nodes, [rest.id]);
      RootsIn(acc);
      NamedSome(o, nodes, q);
      InsertElems(o, acc, rest.id, rest.kids);
      q := InsertSorted(q, it, less, o, acc, rest.kids);
      acc := InsertTree(o, acc, rest.id, rest.kids);
      it := it.next_sibling;
      rest := rest.right;
    }
    if o.StrictWeak() {
      RowSorted(o, nodes, s);
    }
  }

  // ---- The whole operation ----

  /** The siblings `s` from `from` up to `to`, not counting `to`; `r` are those behind. */
  ghost predicate InRange(t: Tree, from: Node?, to: Node?, s: Forest<Node>, r: Forest<Node>)
    reads t
  {
    if s.Nil? then from == to
    else
      from == s.id && Last(s) != null && Range(t.all, s.id, Last(s), s, r) && to == First(r) && s.id != t.head &&
      t.feet !in Elems(s)
  }

  ghost predicate Compares(o: Order, t: Tree, less: (Value, Value) -> bool)
    reads t, t.nodes
  {
    o.key == Keys(t.nodes) && o.less == less
  }

  /** The last of the siblings, from both sides. */
  lemma LastLink(f: Forest<Node>, head: Node, feet: Node, first: Node, z: Node, s: Forest<Node>, r: Forest<Node>)
    requires Framed(f, head, feet) && Range(f, first, z, s, r) && feet !in Elems(s)
    ensures r.Cons? ==> r.id in Elems(f) && Link(f, r.id).prev == z
    ensures r.Nil? ==> var p := Link(f, first).parent; p != null && p in Elems(f) && Link(f, p).last == z
    ensures First(r) !in Elems(s)
  {
    RangeEnds(f, first, z, s, r);
    InnerNode(f, head, feet, z);
    Neighbours(f, first);
    hide Elems, NoDup, Range, Link, Framed;
    if r.Cons? {
      LinkTriple(f, z, r.id);
    } else {
      LinkTriple(f, z, Link(f, first).parent);
    }
  }

  /** `--` on the end of the range. */
  method LastInRange(t: Tree, from: Node, to: Node?, ghost s: Forest<Node>, ghost r: Forest<Node>) returns (last: Node)
    requires t.Valid() && s.Cons? && InRange(t, from, to, s, r)
    ensures last == Last(s)
  {
    LastLink(t.all, t.head, t.feet, from, Last(s), s, r);
    Unfold(t);
    RangeFirst(t.all, from, Last(s), s, r);
    hide *;
    if to != null {
      last := to.prev_sibling;
    } else {
      last := from.parent.last_child;
    }
  }

  lemma RangeFirst(f: Forest<Node>, first: Node, last: Node, s: Forest<Node>, r: Forest<Node>)
    requires Range(f, first, last, s, r)
    ensures first in Elems(f) && last in Elems(f) && last in Elems(s) && first in Elems(s) && Elems(s) <= Elems(f)
    ensures r.Cons? ==> First(r) == r.id
    ensures r.Nil? ==> First(r) == null
    ensures NoDup(s)
  {
    RangeEnds(f, first, last, s, r);
  }

  /** sort without `deep`, for a range that is not empty. */
  method SortRow(t: Tree, from: Node, to: Node?, less: (Value, Value) -> bool, ghost o: Order, ghost s: Forest<Node>,
                 ghost r: Forest<Node>)
    returns (q: seq<Node>)
    requires t.Valid() && s.Cons? && InRange(t, from, to, s, r) && Compares(o, t, less)
    modifies t, t.nodes
    ensures t.Valid() && t.nodes == old(t.nodes) && t.head == old(t.head) && t.feet == old(t.feet)
    ensures from in Elems(old(t.all)) && t.all == Rearranged(old(t.all), from, Sorted(o, s), r)
    ensures q == Roots(Sorted(o, s))
    ensures o.StrictWeak() ==> StablySorted(less, Roots(s), q)
    ensures forall m :: m in t.nodes ==> m.data == old(m.data)
  {
    hide *;
    ghost var was := t.all;
    SortReady(t, from, to, s, r);
    SortPlan(t, from, to, less, o, s, r);
    q := Collect(from, to, less, o, s, t.nodes);
    var last := LastInRange(t, from, to, s, r);
    RearrangeRow(q, from, last, was, s, r, Sorted(o, s), t.nodes);
    t.all := Rearranged(was, from, Sorted(o, s), r);
    Fold(t);
    if o.StrictWeak() {
      KeysKept(t.nodes);
      RowSorted(o, t.nodes, s);
    }
  }

  twostate lemma KeysKept(nodes: set<Node>)
    requires forall m :: m in nodes ==> m.data == old(m.data)
    ensures Keys(nodes) == old(Keys(nodes))
  {}

  lemma SortPlan(t: Tree, from: Node, to: Node?, less: (Value, Value) -> bool, o: Order, s: Forest<Node>,
                 r: Forest<Node>)
    requires t.Valid() && s.Cons? && InRange(t, from, to, s, r) && Compares(o, t, less)
    ensures less == o.less && o.key == Keys(t.nodes) && from in Elems(t.all) && Shuffled(s, Sorted(o, s))
    ensures var h := Rearranged(t.all, from, Sorted(o, s), r);
      NoDup(h) && Elems(h) == t.nodes && Framed(h, t.head, t.feet)
  {
    SortReady(t, from, to, s, r);
    SortedShuffled(o, s);
    RearrangedElems(t.all, from, Last(s), s, r, Sorted(o, s));
    RearrangedFramed(t.all, from, Last(s), s, r, Sorted(o, s), t.head, t.feet);
  }

  lemma SortReady(t: Tree, from: Node, to: Node?, s: Forest<Node>, r: Forest<Node>)
    requires t.Valid() && s.Cons? && InRange(t, from, to, s, r)
    ensures Last(s) != null && Range(t.all, from, Last(s), s, r) && Framed(t.all, t.head, t.feet) && from != t.head
    ensures t.feet !in Elems(s)
    ensures t.nodes == Elems(t.all) && forall m :: m in t.nodes ==> Fields(m) == Link(t.all, m)
    ensures from == s.id && ChainedTo(s, to, t.nodes) && to !in Elems(s) && Elems(s) <= t.nodes && NoDup(s)
  {
    RangeFirst(t.all, from, Last(s), s, r);
    LastLink(t.all, t.head, t.feet, from, Last(s), s, r);
    RangeChained(t.all, s, r, t.nodes);
  }
}
