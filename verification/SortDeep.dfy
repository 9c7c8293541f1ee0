/** sort with `deep`: after a row, the rows below each of its nodes. */
module TreeSortDeep {
  import opened Forests
  import opened TreeLinks
  import opened TreeEdits
  import opened Trees
  import opened TreeCopy
  import opened TreeFlatten
  import opened TreeReparent
  import opened TreeRearrange
  import opened SiblingOrder
  import opened TreeSort
  import opened TreeCopyAll
  import opened TreeMerge

  /** The rows below the trees `done` are sorted, those below `rest` are not. */
  ghost function Between(f: Forest<Node>, first: Node, done: Forest<Node>, rest: Forest<Node>,
                         r: Forest<Node>): Forest<Node>
    requires first in Elems(f)
  {
    Rearranged(f, first, Append(done, rest), r)
  }

  ghost predicate DeepState(f: Forest<Node>, first: Node, s: Forest<Node>, r: Forest<Node>, done: Forest<Node>,
                            rest: Forest<Node>) {
    && first in Elems(f) && Last(s) != null && Range(f, first, Last(s), s, r)
    && NoDup(Append(done, rest)) && Elems(Append(done, rest)) == Elems(s)
  }

  lemma {:induction false} ReplaceBehind<A>(done: Forest<A>, x: Forest<A>, m: A, h: Forest<A>)
    requires m in Elems(x) && m !in Elems(done)
    ensures m in Elems(Append(done, x)) && Replace(Append(done, x), m, h) == Append(done, Replace(x, m, h))
    ensures From(Append(done, x), m) == From(x, m)
  {
    if done.Cons? {
      ReplaceBehind(done.right, x, m, h);
    }
  }

  /** Where the rest of the row is in the list. */
  lemma BetweenFrom(f: Forest<Node>, first: Node, s: Forest<Node>, r: Forest<Node>, done: Forest<Node>,
                    rest: Forest<Node>, m: Node)
    requires DeepState(f, first, s, r, done, rest) && m in Elems(rest)
    ensures var h := Between(f, first, done, rest, r);
      m in Elems(h) && NoDup(h) && From(h, m) == From(Append(rest, r), m)
    ensures m in Elems(Append(rest, r)) && NoDup(Append(rest, r))
  {
    var g := Append(Append(done, rest), r);
    BetweenParts(f, first, s, r, done, rest);
    ReplaceElems(f, first, g);
    FromReplace(f, first, g, m);
    ReplaceBehind(done, Append(rest, r), m, Nil);
  }

  lemma BetweenParts(f: Forest<Node>, first: Node, s: Forest<Node>, r: Forest<Node>, done: Forest<Node>,
                     rest: Forest<Node>)
    requires DeepState(f, first, s, r, done, rest)
    ensures var g := Append(Append(done, rest), r);
      && NoDup(g) && Elems(g) == Elems(From(f, first)) && g == Append(done, Append(rest, r)) && NoDup(f)
    ensures NoDup(rest) && NoDup(done) && NoDup(r) && NoDup(Append(rest, r))
    ensures Elems(done) !! Elems(rest) && Elems(rest) !! Elems(r) && Elems(done) !! Elems(r)
  {
    RangeParts(f, first, Last(s), s, r);
    AppendNoDup(Append(done, rest), r);
    AppendAssoc(done, rest, r);
    AppendedApart(done, rest);
    AppendNoDup(rest, r);
  }

  /** Another list below the next tree. */
  lemma BetweenNext(f: Forest<Node>, first: Node, s: Forest<Node>, r: Forest<Node>, done: Forest<Node>,
                    rest: Forest<Node>, k: Forest<Node>)
    requires DeepState(f, first, s, r, done, rest) && rest.Cons?
    requires NoDup(k) && Elems(k) == Elems(rest.kids)
    ensures DeepState(f, first, s, r, Append(done, Cons(rest.id, k, Nil)), rest.right)
    ensures var h := Between(f, first, done, rest, r);
      if rest.kids.Cons? then
        rest.kids.id in Elems(h) &&
        Replace(h, rest.kids.id, k) == Between(f, first, Append(done, Cons(rest.id, k, Nil)), rest.right, r)
      else h == Between(f, first, Append(done, Cons(rest.id, k, Nil)), rest.right, r)
  {
    var d := Append(done, Cons(rest.id, k, Nil));
    BetweenParts(f, first, s, r, done, rest);
    AppendAssoc(done, Cons(rest.id, k, Nil), rest.right);
    AppendAssoc(done, Cons(rest.id, k, rest.right), r);
    AppendNoDup(done, Cons(rest.id, k, rest.right));
    assert Append(d, rest.right) == Append(done, Cons(rest.id, k, rest.right));
    if rest.kids.Cons? {
      var c := rest.kids.id;
      BetweenFrom(f, first, s, r, done, rest, c);
      ReplaceReplace(f, first, Append(Append(done, rest), r), c, k);
      ReplaceBehind(done, Append(rest, r), c, k);
    } else {
      RootIn(k);
    }
  }

  lemma RootIn<A>(k: Forest<A>)
    ensures k.Cons? ==> k.id in Elems(k)
  {}

  /** A turn of the loop: the row below the next node of `rest`. */
  lemma NextRow(t: Tree, f: Forest<Node>, first: Node, s: Forest<Node>, r: Forest<Node>, done: Forest<Node>,
                rest: Forest<Node>)
    requires t.Valid() && DeepState(f, first, s, r, done, rest) && rest.Cons?
    requires t.all == Between(f, first, done, rest, r)
    ensures rest.id in t.nodes && rest.id.first_child == First(rest.kids)
    ensures rest.id.next_sibling == First(Append(rest.right, r))
    ensures InRange(t, rest.id.first_child, null, rest.kids, Nil)
    ensures NoDup(rest.kids) && rest.kids < rest
  {
    BetweenFrom(f, first, s, r, done, rest, rest.id);
    BetweenParts(f, first, s, r, done, rest);
    LinkShape(t.all, null, null, rest.id);
    BelowHasParent(t.all, t.head, t.feet, rest.id);
    AppendNil(rest.kids);
    LastIn(rest.kids);
  }

  /** Sorting a row, with what the caller has to know of the result. */
  ghost function SortedRange(o: Order, s: Forest<Node>, deep: bool): Forest<Node> {
    if deep then DeepSorted(o, s) else Sorted(o, s)
  }

  /** sort(from, to, less, deep) */
  method Sort(t: Tree, from: Node?, to: Node?, less: (Value, Value) -> bool, deep: bool, ghost o: Order,
              ghost s: Forest<Node>, ghost r: Forest<Node>)
    requires t.Valid() && InRange(t, from, to, s, r) && Compares(o, t, less)
    modifies t, t.nodes
    ensures t.Valid() && t.nodes == old(t.nodes) && t.head == old(t.head) && t.feet == old(t.feet)
    ensures s.Nil? ==> t.all == old(t.all)
    ensures s.Cons? ==> s.id in Elems(old(t.all)) && t.all == Rearranged(old(t.all), s.id, SortedRange(o, s, deep), r)
    ensures s.Cons? && o.StrictWeak() ==> StablySorted(less, Roots(s), Roots(SortedRange(o, s, deep)))
    ensures s.Cons? && o.StrictWeak() ==> ListsSorted(less, old(t.all), t.all, s, deep)
    ensures forall m :: m in t.nodes ==> m.data == old(m.data)
    decreases |PreOrder(s)|, 2
  {
    EmptyRange(t, from, to, s, r);
    hide *;
    if from == to {
      return;
    }
    ghost var was := t.all;
    var q := SortRow(t, from, to, less, o, s, r);
    NotDeep(o, s);
    if deep {
      KeysKept(t.nodes);
      DeepBegins(t, was, s, r, o, q);
      SortBelowRow(t, q[0], q[|q| - 1].next_sibling, less, o, was, s, r, Sorted(o, s));
    }
    if o.StrictWeak() {
      KeysKept(t.nodes);
      AllSorted(t, was, s, r, o, deep);
    }
  }

  /** With `deep`, the children of each node of the range are in order; without,
      they are what they were. */
  ghost predicate ListsSorted(less: (Value, Value) -> bool, was: Forest<Node>, f: Forest<Node>, s: Forest<Node>,
                              deep: bool)
    reads Elems(was), Elems(f)
  {
    forall m :: m in Elems(s) ==>
      && m in Elems(was) && m in Elems(f)
      && var k, j := From(was, m).kids, From(f, m).kids;
        RootsIn(k);
        RootsIn(j);
        if deep then StablySorted(less, Roots(k), Roots(j)) else j == k
  }

  lemma AllSorted(t: Tree, was: Forest<Node>, s: Forest<Node>, r: Forest<Node>, o: Order, deep: bool)
    requires o.StrictWeak() && o.key == Keys(t.nodes) && t.nodes == Elems(was) && s.Cons?
    requires Last(s) != null && Range(was, s.id, Last(s), s, r)
    requires t.all == Rearranged(was, s.id, SortedRange(o, s, deep), r)
    ensures StablySorted(o.less, Roots(s), Roots(SortedRange(o, s, deep)))
    ensures ListsSorted(o.less, was, t.all, s, deep)
  {
    RangeParts(was, s.id, Last(s), s, r);
    RowSorted(o, t.nodes, s);
    forall m | m in Elems(s)
      ensures m in Elems(was) && m in Elems(t.all)
      ensures if deep then StablySorted(o.less, Roots(From(was, m).kids), Roots(From(t.all, m).kids))
        else From(t.all, m).kids == From(was, m).kids
    {
      KidsSorted(was, s, r, o, deep, m);
      if deep {
        RowSorted(o, t.nodes, From(was, m).kids);
      }
    }
  }

  /** What is below a node of the range. */
  lemma KidsSorted(f: Forest<Node>, s: Forest<Node>, r: Forest<Node>, o: Order, deep: bool, m: Node)
    requires Last(s) != null && s.Cons? && Range(f, s.id, Last(s), s, r) && m in Elems(s)
    ensures s.id in Elems(f) && m in Elems(f)
    ensures NoDup(From(f, m).kids) && Elems(From(f, m).kids) <= Elems(f)
    ensures var p := SortedRange(o, s, deep);
      && m in Elems(Rearranged(f, s.id, p, r))
      && From(Rearranged(f, s.id, p, r), m).kids ==
        if deep then DeepSorted(o, From(f, m).kids) else From(f, m).kids
  {
    var p := SortedRange(o, s, deep);
    RangeParts(f, s.id, Last(s), s, r);
    FromFrom(f, s.id, m);
    FromAppended(s, r, m);
    if deep {
      DeepFrom(o, s, m);
      DeepElems(o, s);
    } else {
      SortFrom(o, Nil, s, m);
      SortedElems(o, s);
    }
    AppendNoDup(p, r);
    FromAppended(p, r, m);
    FromReplace(f, s.id, Append(p, r), m);
  }

  lemma {:induction false} FromAppended(s: Forest<Node>, r: Forest<Node>, m: Node)
    requires NoDup(s) && m in Elems(s)
    ensures m in Elems(Append(s, r)) && From(Append(s, r), m).kids == From(s, m).kids
    ensures NoDup(From(s, m).kids)
  {
    if m != s.id && m !in Elems(s.kids) {
      FromAppended(s.right, r, m);
    }
  }

  lemma EmptyRange(t: Tree, from: Node?, to: Node?, s: Forest<Node>, r: Forest<Node>)
    requires t.Valid() && InRange(t, from, to, s, r)
    ensures from == to <==> s.Nil?
    ensures s.Cons? ==> from == s.id && s.id in Elems(t.all) && Last(s) != null && Range(t.all, s.id, Last(s), s, r)
  {
    if s.Cons? {
      LastLink(t.all, t.head, t.feet, s.id, Last(s), s, r);
      RangeFirst(t.all, s.id, Last(s), s, r);
    }
  }

  lemma NotDeep(o: Order, s: Forest<Node>)
    ensures SortedRange(o, s, false) == Sorted(o, s) && SortedRange(o, s, true) == DeepSorted(o, s)
  {}

  lemma DeepStart(f: Forest<Node>, first: Node, s: Forest<Node>, r: Forest<Node>, o: Order)
    requires Last(s) != null && Range(f, first, Last(s), s, r)
    ensures DeepState(f, first, s, r, Nil, Sorted(o, s))
    ensures Between(f, first, Nil, Sorted(o, s), r) == Rearranged(f, first, Sorted(o, s), r)
    ensures Append(Nil, DeepBelow(o, Sorted(o, s))) == DeepSorted(o, s)
    ensures |PreOrder(Sorted(o, s))| == |PreOrder(s)|
  {
    RangeParts(f, first, Last(s), s, r);
    SortElems(o, Nil, s);
    DeepEither(o, s);
  }

  /** After the row has been sorted. */
  lemma DeepBegins(t: Tree, f: Forest<Node>, s: Forest<Node>, r: Forest<Node>, o: Order, q: seq<Node>)
    requires t.Valid() && o.key == Keys(t.nodes) && s.Cons? && Last(s) != null && Range(f, s.id, Last(s), s, r)
    requires t.all == Rearranged(f, s.id, Sorted(o, s), r) && q == Roots(Sorted(o, s))
    ensures DeepTurn(t, f, s, r, o, Nil, Sorted(o, s)) && |PreOrder(Sorted(o, s))| == |PreOrder(s)|
    ensures |q| > 0 && q[0] == Sorted(o, s).id && q[|q| - 1] in t.nodes && q[|q| - 1].next_sibling == First(r)
    ensures Sorted(o, s).Cons?
  {
    var p := Sorted(o, s);
    DeepStart(f, s.id, s, r, o);
    RangeParts(f, s.id, Last(s), s, r);
    SortedShuffled(o, s);
    Rearrangeable(f, s.id, Last(s), s, r, p);
    SortedLast(f, s.id, Last(s), s, r, p);
    RootIn(p);
    hide Elems, NoDup, Range, Shuffled, Link, Roots, Sorted, DeepState, From, First;
  }

  lemma SortedLast(f: Forest<Node>, first: Node, last: Node, s: Forest<Node>, r: Forest<Node>, p: Forest<Node>)
    requires Range(f, first, last, s, r) && Shuffled(s, p)
    ensures p.Cons? && |Roots(p)| > 0 && Roots(p)[0] == p.id
    ensures var q, h := Roots(p), Rearranged(f, first, p, r);
      q[|q| - 1] in Elems(f) && Elems(h) == Elems(f) && Link(h, q[|q| - 1]).next == First(r)
  {
    RangeParts(f, first, last, s, r);
    ShuffledRoots(s, p);
    RootIn(p);
    RowBounds(p);
    RearrangedElems(f, first, last, s, r, p);
    RearrangedRoot(f, first, last, s, r, p, |Roots(p)| - 1);
  }

  /** What the loop has got and what it still has to reach. */
  ghost predicate DeepTurn(t: Tree, f: Forest<Node>, s: Forest<Node>, r: Forest<Node>, o: Order, done: Forest<Node>,
                           rest: Forest<Node>)
    reads t, t.nodes
  {
    && t.Valid() && o.key == Keys(t.nodes)
    && s.Cons? && DeepState(f, s.id, s, r, done, rest) && t.all == Between(f, s.id, done, rest, r)
    && Append(done, DeepBelow(o, rest)) == DeepSorted(o, s)
  }

  lemma DeepTurnParts(t: Tree, f: Forest<Node>, s: Forest<Node>, r: Forest<Node>, o: Order, done: Forest<Node>,
                      rest: Forest<Node>)
    requires DeepTurn(t, f, s, r, o, done, rest)
    ensures t.Valid() && o.key == Keys(t.nodes) && s.Cons? && DeepState(f, s.id, s, r, done, rest)
    ensures t.all == Between(f, s.id, done, rest, r)
    ensures Compares(o, t, o.less) && Append(done, DeepBelow(o, rest)) == DeepSorted(o, s)
    ensures First(r) !in Elems(rest) && (rest.Cons? ==> rest.id != First(r))
    ensures s.id in Elems(f) && (rest.Nil? ==> t.all == Rearranged(f, s.id, DeepSorted(o, s), r))
  {
    BetweenParts(f, s.id, s, r, done, rest);
    LastIn(r);
  }

  lemma DeepTurnNext(t: Tree, f: Forest<Node>, s: Forest<Node>, r: Forest<Node>, o: Order, done: Forest<Node>,
                     rest: Forest<Node>, was: Forest<Node>)
    requires t.Valid() && o.key == Keys(t.nodes) && s.Cons? && rest.Cons? && DeepState(f, s.id, s, r, done, rest)
    requires was == Between(f, s.id, done, rest, r) && Append(done, DeepBelow(o, rest)) == DeepSorted(o, s)
    requires rest.kids.Nil? ==> t.all == was
    requires rest.kids.Cons? ==>
      rest.kids.id in Elems(was) && t.all == Rearranged(was, rest.kids.id, DeepSorted(o, rest.kids), Nil)
    ensures DeepTurn(t, f, s, r, o, Append(done, Cons(rest.id, DeepSorted(o, rest.kids), Nil)), rest.right)
    ensures rest.id.next_sibling == First(Append(rest.right, r))
  {
    var k := DeepSorted(o, rest.kids);
    BetweenParts(f, s.id, s, r, done, rest);
    DeepElems(o, rest.kids);
    AppendNil(k);
    BetweenNext(f, s.id, s, r, done, rest, k);
    AppendAssoc(done, Cons(rest.id, k, Nil), rest.right);
    AppendAssoc(done, Cons(rest.id, k, Nil), DeepBelow(o, rest.right));
    NextRow(t, f, s.id, s, r, done, Cons(rest.id, k, rest.right));
  }

  /** The loop over the sorted nodes. */
  method SortBelowRow(t: Tree, first: Node, ecs: Node?, less: (Value, Value) -> bool, ghost o: Order,
                      ghost f: Forest<Node>, ghost s: Forest<Node>, ghost r: Forest<Node>, ghost p: Forest<Node>)
    requires DeepTurn(t, f, s, r, o, Nil, p) && p.Cons? && first == p.id && ecs == First(r) && o.less == less
    requires |PreOrder(p)| <= |PreOrder(s)|
    modifies t, t.nodes
    ensures t.Valid() && t.nodes == old(t.nodes) && t.head == old(t.head) && t.feet == old(t.feet)
    ensures s.id in Elems(f) && t.all == Rearranged(f, s.id, DeepSorted(o, s), r)
    ensures forall m :: m in t.nodes ==> m.data == old(m.data)
    decreases |PreOrder(s)|, 1
  {
    hide *;
    var bcs: Node? := first;
    ghost var done: Forest<Node>, rest := Nil, p;
    DeepTurnParts(t, f, s, r, o, done, rest);
    while bcs != ecs
      invariant DeepTurn(t, f, s, r, o, done, rest) && (bcs == if rest.Nil? then ecs else rest.id)
      invariant t.Valid() && t.nodes == old(t.nodes) && t.head == old(t.head) && t.feet == old(t.feet)
      invariant forall m :: m in t.nodes ==> m.data == old(m.data)
      invariant |PreOrder(rest)| <= |PreOrder(s)|
      decreases rest
    {
      PreOrderTail(rest);
      done, bcs := SortBelowOne(t, bcs, less, o, f, s, r, done, rest);
      rest := rest.right;
    }
    DeepTurnParts(t, f, s, r, o, done, rest);
  }

  /** One turn of it. */
  method SortBelowOne(t: Tree, bcs: Node, less: (Value, Value) -> bool, ghost o: Order, ghost f: Forest<Node>,
                      ghost s: Forest<Node>, ghost r: Forest<Node>, ghost done: Forest<Node>, ghost rest: Forest<Node>)
    returns (ghost d: Forest<Node>, next: Node?)
    requires DeepTurn(t, f, s, r, o, done, rest) && rest.Cons? && bcs == rest.id && o.less == less
    modifies t, t.nodes
    ensures DeepTurn(t, f, s, r, o, d, rest.right) && next == if rest.right.Nil? then First(r) else rest.right.id
    ensures t.Valid() && t.nodes == old(t.nodes) && t.head == old(t.head) && t.feet == old(t.feet)
    ensures forall m :: m in t.nodes ==> m.data == old(m.data)
    decreases |PreOrder(rest)|, 0
  {
    hide *;
    ghost var was := t.all;
    DeepTurnParts(t, f, s, r, o, done, rest);
    NextRow(t, f, s.id, s, r, done, rest);
    PreOrderTail(rest);
    Sort(t, bcs.first_child, null, less, true, o, rest.kids, Nil);
    NotDeep(o, rest.kids);
    KeysKept(t.nodes);
    d := Append(done, Cons(rest.id, DeepSorted(o, rest.kids), Nil));
    DeepTurnNext(t, f, s, r, o, done, rest, was);
    FirstAppended(rest.right, r);
    next := bcs.next_sibling;
  }

  lemma FirstAppended(k: Forest<Node>, r: Forest<Node>)
    ensures First(Append(k, r)) == if k.Nil? then First(r) else k.id
  {}
}
