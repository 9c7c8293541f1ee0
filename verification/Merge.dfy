/** merge without duplicate leaves: one tree's siblings are merged into another's. */
module TreeMerge {
  import opened Forests
  import opened Tries
  import opened TreeLinks
  import opened TreeEdits
  import opened TreeCompare
  import opened Trees
  import opened TreePrefix
  import opened TreeReparent
  import opened TreeReplace
  import opened TreeCopyAll
  import opened TreeRows

  /** With the labels `l`, `x` is the first root of `k` that has label `v`. */
  ghost predicate FirstAt(k: Forest<Node>, l: Forest<Value>, x: Node, v: Value) {
    k.Cons? && l.Cons? && if k.id == x then l.id == v else l.id != v && FirstAt(k.right, l.right, x, v)
  }

  /** The roots of `k` before `rest` have other labels than `v`. */
  ghost predicate Skips(k: Forest<Node>, rest: Forest<Node>, v: Value)
    reads Elems(k)
  {
    k == rest || (k.Cons? && k.id.data != v && Skips(k.right, rest, v))
  }

  lemma {:induction false} SkipsOn(k: Forest<Node>, rest: Forest<Node>, v: Value)
    requires NoDup(k) && Skips(k, rest, v) && rest.Cons?
    ensures rest.id in Elems(k)
    ensures rest.id.data == v ==> FirstAt(k, Labels(k), rest.id, v)
    ensures rest.id.data != v ==> Skips(k, rest.right, v)
  {
    if k != rest {
      SkipsOn(k.right, rest, v);
    }
  }

  lemma {:induction false} SkipsAll(k: Forest<Node>, v: Value)
    requires Skips(k, Nil, v)
    ensures v !in Roots(Labels(k))
  {
    if k.Cons? {
      SkipsAll(k.right, v);
    }
  }

  lemma {:induction false} FirstIn(k: Forest<Node>, l: Forest<Value>, x: Node, v: Value)
    requires FirstAt(k, l, x, v)
    ensures x in Elems(k) && v in Roots(l)
  {
    if k.id != x {
      FirstIn(k.right, l.right, x, v);
    }
  }

  /** Merging below the first root with a label is merging into the list. */
  lemma {:induction false} LabelsReKid(k: Forest<Node>, x: Node, v: Value, j: Forest<Node>, b: Forest<Value>)
    requires NoDup(k) && FirstAt(k, Labels(k), x, v) && x in Elems(k)
    requires Labels(j) == Merged(Labels(From(k, x).kids), b)
    ensures Labels(ReKid(k, x, j)) == MergeTree(Labels(k), v, b)
    ensures ReKid(k, x, j).Cons? && ReKid(k, x, j).id == k.id
  {
    if k.id != x {
      FirstIn(k.right, Labels(k.right), x, v);
      LabelsReKid(k.right, x, v, j, b);
    }
  }

  function Begin(k: Forest<Node>, end: Node?): Node? {
    if k.Nil? then end else k.id
  }

  /** std::find over siblings, by label */
  method Find(first: Node?, end: Node?, v: Value, ghost k: Forest<Node>, ghost nodes: set<Node>) returns (fnd: Node?)
    requires first == Begin(k, end) && ChainedTo(k, end, nodes) && end !in Elems(k) && NoDup(k)
    ensures fnd == end ==> v !in Roots(Labels(k))
    ensures fnd != end ==> fnd != null && FirstAt(k, Labels(k), fnd, v) && fnd in Elems(k)
  {
    fnd := first;
    ghost var rest := k;
    while fnd != end && fnd.data != v
      invariant fnd == Begin(rest, end) && ChainedTo(rest, end, nodes) && Skips(k, rest, v) && end !in Elems(rest)
      decreases rest
    {
      SkipsOn(k, rest, v);
      fnd := fnd.next_sibling;
      rest := rest.right;
    }
    if fnd == end {
      SkipsAll(k, v);
    } else {
      SkipsOn(k, rest, v);
    }
  }

  /** The nodes of a row in their own tree. */
  ghost predicate InSource(f: Forest<Node>, b: Forest<Node>) {
    b.Cons? ==> b.id in Elems(f) && From(f, b.id).kids == b.kids && InSource(f, b.right)
  }

  lemma {:induction false} AppendNil<A>(k: Forest<A>)
    ensures Append(k, Nil) == k
  {
    if k.Cons? {
      AppendNil(k.right);
    }
  }

  lemma {:induction false} RowInSource(f: Forest<Node>, s: Forest<Node>, r: Forest<Node>)
    requires NoDup(f) && (s.Cons? ==> s.id in Elems(f) && From(f, s.id) == Append(s, r))
    ensures InSource(f, s)
  {
    if s.Cons? {
      LinkShape(f, null, null, s.id);
      RowInSource(f, s.right, r);
    }
  }

  function EndOf(feet: Node, place: Node?): Node? {
    if place == null then feet else null
  }

  /** What a row of a tree looks like through the links. */
  lemma RowLinks(t: Tree, place: Node?, k: Forest<Node>)
    requires t.Valid() && KidsRow(t.all, t.head, t.feet, place, k)
    ensures ChainedTo(k, EndOf(t.feet, place), t.nodes) && InSource(t.all, k) && NoDup(k) && Elems(k) <= t.nodes
    ensures EndOf(t.feet, place) !in Elems(k) && t.head !in Elems(k) && t.feet !in Elems(k)
    ensures place == null ==> t.head.next_sibling == Begin(k, t.feet)
    ensures place != null ==> place in t.nodes && place.first_child == Begin(k, null)
  {
    if place == null {
      AppendedApart(k, Leaf(t.feet));
      FramedEnds(t.all, t.head, t.feet);
      if k.Cons? {
        RangeChained(t.all, k, Leaf(t.feet), t.nodes);
      }
      RowInSource(t.all, k, Leaf(t.feet));
    } else {
      LinkShape(t.all, null, null, place);
      BelowHasParent(t.all, t.head, t.feet, place);
      AppendNil(k);
      if k.Cons? {
        RangeChained(t.all, k, Nil, t.nodes);
      }
      RowInSource(t.all, k, Nil);
    }
  }

  /** `rest` is what is left of a row of `u`. */
  ghost predicate Source(u: Tree, end2: Node?, rest: Forest<Node>)
    reads u, u.nodes, Elems(rest)
  {
    && Elems(rest) <= u.nodes && NoDup(rest) && u.head !in Elems(rest) && u.feet !in Elems(rest) && end2 !in Elems(rest)
    && ChainedTo(rest, end2, u.nodes) && InSource(u.all, rest)
  }

  /** The range that is searched begins with the row, unless it is empty. */
  ghost predicate Starts(to1: Node?, end: Node?, k: Forest<Node>) {
    to1 == end || (k.Cons? && to1 == k.id)
  }

  /** The labels of a row after a merge of one tree or of a list; an empty range
      stays empty for the search, so that everything is added at the end. */
  ghost function TreeInto(empty: bool, a: Forest<Value>, v: Value, k: Forest<Value>): Forest<Value> {
    if empty then Append(a, Cons(v, k, Nil)) else MergeTree(a, v, k)
  }

  ghost function Into(empty: bool, a: Forest<Value>, b: Forest<Value>): Forest<Value> {
    if empty then Append(a, b) else MergedInto(a, b)
  }

  lemma IntoStep(empty: bool, a: Forest<Value>, b: Forest<Value>)
    ensures b.Cons? ==> Into(empty, a, b) == Into(empty, TreeInto(empty, a, b.id, b.kids), b.right)
    ensures b.Nil? ==> Into(empty, a, b) == a
    ensures Merged(a, b) == Into(a.Nil?, a, b)
  {
    AppendNil(a);
    if b.Cons? {
      AppendAssoc(a, Cons(b.id, b.kids, Nil), b.right);
    }
  }

  /** `t` has the row `k` at `place`, and `rest` is still to be merged into it. */
  ghost predicate Merging(t: Tree, place: Node?, to1: Node?, u: Tree, end2: Node?, k: Forest<Node>, rest: Forest<Node>)
    reads t, t.nodes, u, u.nodes, Elems(k), Elems(rest)
  {
    && t.Valid() && u.Valid() && u != t && u.nodes !! t.nodes
    && KidsRow(t.all, t.head, t.feet, place, k) && Elems(k) <= t.nodes
    && Source(u, end2, rest) && Starts(to1, EndOf(t.feet, place), k)
  }

  /** Old nodes of `t` are still there, with their labels. */
  twostate predicate OnlyGrows(t: Tree)
    reads t, t.nodes
  {
    && t.head == old(t.head) && t.feet == old(t.feet) && old(t.nodes) <= t.nodes
    && (forall m :: m in t.nodes ==> m in old(t.nodes) || fresh(m))
    && (forall m :: m in old(t.nodes) ==> m.data == old(m.data))
  }

  /** merge(to1, to2, from1, from2), for the whole rows `k0` and `b`. */
  method MergeRow(t: Tree, place: Node?, to1: Node?, u: Tree, from1: Node?, from2: Node?, dummy: Value,
                  ghost k0: Forest<Node>, ghost b: Forest<Node>) returns (ghost k: Forest<Node>)
    requires Merging(t, place, to1, u, from2, k0, b) && from1 == Begin(b, from2)
    requires to1 == Begin(k0, EndOf(t.feet, place))
    modifies t, t.nodes
    ensures t.Valid() && u.Valid() && u.nodes !! t.nodes && t.head == old(t.head) && t.feet == old(t.feet)
    ensures place != null ==> place in Elems(old(t.all))
    ensures t.all == WithRow(old(t.all), t.head, t.feet, place, k)
    ensures Labels(k) == Merged(old(Labels(k0)), old(Labels(b)))
    ensures OnlyGrows(t)
    decreases |PreOrder(b)|, 3
  {
    hide Elems, NoDup, KidsRow, WithRow, Merging, MergeState, Tree.Valid,
      ChainedTo, InSource, Labels, Merged, MergeTree, PreOrder, EndOf, Begin, Roots;
    k := k0;
    var from := from1;
    ghost var rest := b;
    ghost var goal, was := Merged(Labels(k0), Labels(b)), t.all;
    MergeBegin(t, place, to1, u, from2, k0, b);
    while from != from2
      invariant Merging(t, place, to1, u, from2, k, rest) && from == Begin(rest, from2)
      invariant MergeState(t, place, to1, was, k, rest, goal) && |PreOrder(rest)| <= |PreOrder(b)|
      invariant OnlyGrows(t)
      decreases rest
    {
      NotAtEnd(t, place, to1, u, from2, k, rest);
      k, from := MergeTurn(t, place, to1, u, from, from2, dummy, was, k, rest, goal);
      rest := rest.right;
    }
    MergeDone(t, place, to1, u, from2, was, k, rest, goal);
  }

  lemma MergeBegin(t: Tree, place: Node?, to1: Node?, u: Tree, from2: Node?, k: Forest<Node>, b: Forest<Node>)
    requires Merging(t, place, to1, u, from2, k, b) && to1 == Begin(k, EndOf(t.feet, place))
    ensures MergeState(t, place, to1, t.all, k, b, Merged(Labels(k), Labels(b)))
  {
    RowLinks(t, place, k);
    IntoStep(to1 == EndOf(t.feet, place), Labels(k), Labels(b));
    PlaceIn(t, place, k);
    RowSame(t.all, t.head, t.feet, place, k);
  }

  lemma MergeDone(t: Tree, place: Node?, to1: Node?, u: Tree, from2: Node?, was: Forest<Node>, k: Forest<Node>,
                  rest: Forest<Node>, goal: Forest<Value>)
    requires Merging(t, place, to1, u, from2, k, rest) && MergeState(t, place, to1, was, k, rest, goal)
    requires Begin(rest, from2) == from2
    ensures t.Valid() && u.Valid() && u.nodes !! t.nodes && (place != null ==> place in Elems(was))
    ensures t.all == WithRow(was, t.head, t.feet, place, k) && Labels(k) == goal
  {
    IntoStep(to1 == EndOf(t.feet, place), Labels(k), Labels(rest));
  }

  /** How far the merge is: `was` is the list of `t` at its beginning. */
  ghost predicate MergeState(t: Tree, place: Node?, to1: Node?, was: Forest<Node>, k: Forest<Node>, rest: Forest<Node>,
                             goal: Forest<Value>)
    reads t, Elems(k), Elems(rest)
  {
    && (place != null ==> place in Elems(was) && place != t.head && place != t.feet)
    && t.all == WithRow(was, t.head, t.feet, place, k)
    && Into(to1 == EndOf(t.feet, place), Labels(k), Labels(rest)) == goal
  }

  method MergeTurn(t: Tree, place: Node?, to1: Node?, u: Tree, from: Node, from2: Node?, dummy: Value,
                   ghost was: Forest<Node>, ghost k: Forest<Node>, ghost rest: Forest<Node>, ghost goal: Forest<Value>)
    returns (ghost r: Forest<Node>, next: Node?)
    requires Merging(t, place, to1, u, from2, k, rest) && rest.Cons? && from == rest.id
    requires MergeState(t, place, to1, was, k, rest, goal)
    modifies t, t.nodes
    ensures Merging(t, place, to1, u, from2, r, rest.right) && next == Begin(rest.right, from2)
    ensures MergeState(t, place, to1, was, r, rest.right, goal) && |PreOrder(rest.right)| < |PreOrder(rest)|
    ensures OnlyGrows(t)
    decreases |PreOrder(rest)|, 2
  {
    MergeGoal(to1 == EndOf(t.feet, place), Labels(k), rest);
    PreOrderTail(rest);
    hide Elems, NoDup, KidsRow, WithRow, Merging, Tree.Valid,
      ChainedTo, InSource, Labels, Into, TreeInto, PreOrder, EndOf, Begin, Roots, OnlyGrows;
    r := MergeStep(t, place, to1, u, from, from2, dummy, k, rest);
    PlaceStays(was, t.head, t.feet, place, k, r);
    next := from.next_sibling;
  }

  lemma NotAtEnd(t: Tree, place: Node?, to1: Node?, u: Tree, from2: Node?, k: Forest<Node>, rest: Forest<Node>)
    requires Merging(t, place, to1, u, from2, k, rest)
    ensures Begin(rest, from2) == from2 <==> rest.Nil?
    ensures rest.Cons? ==> Begin(rest, from2) == rest.id
    ensures t.Valid() && u.Valid() && u.nodes !! t.nodes
  {}

  lemma MergeGoal(empty: bool, a: Forest<Value>, rest: Forest<Node>)
    requires rest.Cons?
    ensures Into(empty, a, Labels(rest)) ==
      Into(empty, TreeInto(empty, a, rest.id.data, Labels(rest.kids)), Labels(rest.right))
  {
    IntoStep(empty, a, Labels(rest));
  }

  lemma PlaceStays(f: Forest<Node>, head: Node, feet: Node, place: Node?, k: Forest<Node>, next: Forest<Node>)
    requires place != null ==> place in Elems(f) && place != head && place != feet
    ensures var h := WithRow(f, head, feet, place, k);
      (place != null ==> place in Elems(h)) &&
        WithRow(h, head, feet, place, next) == WithRow(f, head, feet, place, next)
  {
    RowThere(f, head, feet, place, k, next);
  }

  lemma PreOrderTail<A>(f: Forest<A>)
    ensures f.Cons? ==> |PreOrder(f.right)| < |PreOrder(f)| && |PreOrder(f.kids)| < |PreOrder(f)|
  {}

  /** One turn of its loop: the tree of `from` goes into the row `k`. */
  method MergeStep(t: Tree, place: Node?, to1: Node?, u: Tree, from: Node, from2: Node?, dummy: Value,
                   ghost k: Forest<Node>, ghost rest: Forest<Node>) returns (ghost r: Forest<Node>)
    requires Merging(t, place, to1, u, from2, k, rest) && rest.Cons? && from == rest.id
    modifies t, t.nodes
    ensures Merging(t, place, to1, u, from2, r, rest.right) && from.next_sibling == Begin(rest.right, from2)
    ensures place != null ==> place in Elems(old(t.all))
    ensures t.all == WithRow(old(t.all), t.head, t.feet, place, r)
    ensures Labels(r) == TreeInto(to1 == EndOf(t.feet, place), old(Labels(k)), from.data, old(Labels(rest.kids)))
    ensures Labels(rest.right) == old(Labels(rest.right)) && from.data == old(from.data)
    ensures OnlyGrows(t)
    decreases |PreOrder(rest)|, 1
  {
    hide *;
    var end := EndOf(t.feet, place);
    ghost var row := if to1 == end then Nil else k;
    ReadyToFind(t, place, to1, u, from2, k, rest);
    SourceOf(t, place, to1, u, from2, k, rest);
    TurnBegins(t, place, to1, u, from2, k, rest);
    var fnd := Find(to1, end, from.data, row, t.nodes);
    label Found:
    if fnd == end {
      r := MergeMissing(t, place, to1, u, from, from2, dummy, k, rest);
      HasGrown@Found(t);
    } else {
      FirstIn(row, Labels(row), fnd, from.data);
      if from.first_child == null {
        r := k;
        NothingToMerge(t, place, to1, u, from2, k, rest, fnd);
      } else {
        r := MergeFound(t, place, to1, fnd, u, from, from2, dummy, k, rest);
        HasGrown@Found(t);
      }
    }
    Grew(t);
  }

  lemma SourceOf(t: Tree, place: Node?, to1: Node?, u: Tree, from2: Node?, k: Forest<Node>, rest: Forest<Node>)
    requires Merging(t, place, to1, u, from2, k, rest) && rest.Cons?
    ensures rest.id.next_sibling == Begin(rest.right, from2) && Elems(rest.right) <= u.nodes && rest.id in u.nodes
    ensures u.nodes !! t.nodes
    ensures place != null ==> place in Elems(t.all)
    ensures t.all == WithRow(t.all, t.head, t.feet, place, k)
  {
    SourceRest(u, from2, rest);
    RowSame(t.all, t.head, t.feet, place, k);
  }

  /** A leaf whose label is there already. */
  lemma NothingToMerge(t: Tree, place: Node?, to1: Node?, u: Tree, from2: Node?, k: Forest<Node>, rest: Forest<Node>,
                       fnd: Node)
    requires Merging(t, place, to1, u, from2, k, rest) && rest.Cons? && rest.id.first_child == null
    requires to1 != EndOf(t.feet, place) && rest.id.data in Roots(Labels(k))
    ensures Merging(t, place, to1, u, from2, k, rest.right)
    ensures TreeInto(false, Labels(k), rest.id.data, Labels(rest.kids)) == Labels(k)
  {
    SourceRest(u, from2, rest);
    NothingMerged(Labels(k), rest.id.data);
    TurnBegins(t, place, to1, u, from2, k, rest);
    TurnDone(t, place, to1, u, from2, t.all, k, rest, k);
  }

  lemma ReadyToFind(t: Tree, place: Node?, to1: Node?, u: Tree, from2: Node?, k: Forest<Node>, rest: Forest<Node>)
    requires Merging(t, place, to1, u, from2, k, rest) && rest.Cons?
    ensures var end := EndOf(t.feet, place);
      var row := if to1 == end then Nil else k;
      && to1 == Begin(row, end) && ChainedTo(row, end, t.nodes) && end !in Elems(row) && NoDup(row)
      && (to1 != end && rest.id.data !in Roots(Labels(row)) ==> rest.id.data !in Roots(Labels(k)))
      && (to1 == end ==> forall fnd: Node :: fnd !in Elems(row))
  {
    RowLinks(t, place, k);
  }

  /** The rest of the source is a source, too. */
  lemma SourceRest(u: Tree, end2: Node?, rest: Forest<Node>)
    requires u.Valid() && Source(u, end2, rest) && rest.Cons?
    ensures Source(u, end2, rest.right) && rest.id.next_sibling == Begin(rest.right, end2)
    ensures rest.id in u.nodes && rest.id in Elems(u.all) && From(u.all, rest.id).kids == rest.kids
    ensures KidsRow(u.all, u.head, u.feet, rest.id, rest.kids) && Source(u, null, rest.kids)
    ensures rest.id.first_child == Begin(rest.kids, null)
    ensures Elems(rest.kids) <= u.nodes && Elems(rest.right) <= u.nodes
  {
    RowLinks(u, rest.id, rest.kids);
  }

  lemma {:induction false} MergeTreeMissing<A>(a: Forest<A>, v: A, k: Forest<A>)
    requires v !in Roots(a)
    ensures MergeTree(a, v, k) == Append(a, Cons(v, k, Nil))
  {
    if a.Cons? {
      MergeTreeMissing(a.right, v, k);
    }
  }

  lemma IntoOpen(a: Forest<Value>, v: Value, k: Forest<Value>)
    ensures TreeInto(false, a, v, k) == MergeTree(a, v, k)
  {}

  lemma AddedLast(empty: bool, a: Forest<Value>, v: Value, k: Forest<Value>)
    requires empty || v !in Roots(a)
    ensures TreeInto(empty, a, v, k) == Append(a, Cons(v, k, Nil))
  {
    if !empty {
      MergeTreeMissing(a, v, k);
    }
  }

  /** The row `r` after one turn. */
  lemma TurnDone(t: Tree, place: Node?, to1: Node?, u: Tree, from2: Node?, was: Forest<Node>, k: Forest<Node>,
                 rest: Forest<Node>, r: Forest<Node>)
    requires t.Valid() && u.Valid() && u != t && u.nodes !! t.nodes && Source(u, from2, rest) && rest.Cons?
    requires place != null ==> place in Elems(was) && place != t.head && place != t.feet
    requires t.all == WithRow(was, t.head, t.feet, place, r)
    requires Starts(to1, EndOf(t.feet, place), k) && (k.Cons? ==> r.Cons? && r.id == k.id)
    ensures Merging(t, place, to1, u, from2, r, rest.right)
  {
    SourceRest(u, from2, rest);
    RowThere(was, t.head, t.feet, place, r, r);
    RowLinks(t, place, r);
  }

  /** What a turn starts from. */
  lemma TurnBegins(t: Tree, place: Node?, to1: Node?, u: Tree, from2: Node?, k: Forest<Node>, rest: Forest<Node>)
    requires Merging(t, place, to1, u, from2, k, rest) && rest.Cons?
    ensures t.Valid() && u.Valid() && u != t && u.nodes !! t.nodes && Source(u, from2, rest)
    ensures KidsRow(t.all, t.head, t.feet, place, k) && Elems(k) <= t.nodes && NoDup(k) && NoDup(t.all)
    ensures Starts(to1, EndOf(t.feet, place), k)
    ensures place != null ==> place in Elems(t.all) && place != t.head && place != t.feet
    ensures WithRow(t.all, t.head, t.feet, place, k) == t.all
    ensures Elems(rest.kids) <= u.nodes && Elems(rest.right) <= u.nodes && Elems(rest) <= u.nodes
  {
    SourceRest(u, from2, rest);
    RowLinks(t, place, k);
    RowSame(t.all, t.head, t.feet, place, k);
  }

  lemma AppendedHead<A>(k: Forest<A>, x: A, j: Forest<A>)
    ensures k.Cons? ==> Append(k, Cons(x, j, Nil)).Cons? && Append(k, Cons(x, j, Nil)).id == k.id
  {}

  /** There is none with that label: a copy of the tree becomes the last of the row. */
  method MergeMissing(t: Tree, place: Node?, to1: Node?, u: Tree, from: Node, from2: Node?, dummy: Value,
                      ghost k: Forest<Node>, ghost rest: Forest<Node>) returns (ghost r: Forest<Node>)
    requires Merging(t, place, to1, u, from2, k, rest) && rest.Cons? && from == rest.id
    requires to1 == EndOf(t.feet, place) || from.data !in Roots(Labels(k))
    modifies t, t.nodes
    ensures Merging(t, place, to1, u, from2, r, rest.right)
    ensures place != null ==> place in Elems(old(t.all))
    ensures t.all == WithRow(old(t.all), t.head, t.feet, place, r)
    ensures Labels(r) == TreeInto(to1 == EndOf(t.feet, place), old(Labels(k)), from.data, old(Labels(rest.kids)))
    ensures OnlyGrows(t)
  {
    hide *;
    ghost var was, nodes, sources, l := t.all, t.nodes, u.nodes, Labels(k);
    TurnBegins(t, place, to1, u, from2, k, rest);
    SourceRest(u, from2, rest);
    ghost var j;
    var copy;
    copy, j := InsertSubtreeLast(t, place, u, from, dummy, k);
    LabelsKept(Within(k, nodes));
    LabelsKept(Within(rest, sources));
    LabelsKept(Within(rest.kids, sources));
    r := Append(k, Cons(copy, j, Nil));
    LabelsSnoc(k, copy, j);
    AddedLast(to1 == EndOf(t.feet, place), l, from.data, Labels(rest.kids));
    AppendedHead(k, copy, j);
    TurnDone(t, place, to1, u, from2, was, k, rest, r);
    Grew(t);
  }

  twostate lemma Grew(t: Tree)
    requires t.head == old(t.head) && t.feet == old(t.feet) && old(t.nodes) <= t.nodes
    requires forall m :: m in t.nodes ==> m in old(t.nodes) || fresh(m)
    requires forall m :: m in old(t.nodes) ==> m.data == old(m.data)
    ensures OnlyGrows(t)
  {}

  twostate lemma HasGrown(t: Tree)
    requires OnlyGrows(t)
    ensures t.head == old(t.head) && t.feet == old(t.feet) && old(t.nodes) <= t.nodes
    ensures forall m :: m in t.nodes ==> m in old(t.nodes) || fresh(m)
    ensures forall m :: m in old(t.nodes) ==> m.data == old(m.data)
  {}

  /** Merging below a node of the row. */
  lemma BelowBegins(t: Tree, place: Node?, k: Forest<Node>, fnd: Node, j: Forest<Node>, u: Tree, end2: Node?,
                    rest: Forest<Node>)
    requires t.Valid() && u.Valid() && u != t && u.nodes !! t.nodes && KidsRow(t.all, t.head, t.feet, place, k)
    requires fnd in Elems(k) && j == From(k, fnd).kids && Source(u, end2, rest) && rest.Cons?
    ensures Merging(t, fnd, fnd.first_child, u, null, j, rest.kids) && rest.id.first_child == Begin(rest.kids, null)
    ensures fnd.first_child == Begin(j, EndOf(t.feet, fnd)) && Elems(j) <= t.nodes
  {
    hide *;
    SourceRest(u, end2, rest);
    RowNode(t, place, k, fnd);
    BelowStarts(t, fnd, j, u, rest.kids);
  }

  lemma RowNode(t: Tree, place: Node?, k: Forest<Node>, fnd: Node)
    requires t.Valid() && KidsRow(t.all, t.head, t.feet, place, k) && fnd in Elems(k)
    ensures fnd in t.nodes && KidsRow(t.all, t.head, t.feet, fnd, From(k, fnd).kids)
  {
    PlaceIn(t, place, k);
    RowSame(t.all, t.head, t.feet, place, k);
    RowLinks(t, place, k);
    RowReKid(t.all, t.head, t.feet, place, k, fnd, From(k, fnd).kids);
  }

  lemma BelowStarts(t: Tree, fnd: Node, j: Forest<Node>, u: Tree, b: Forest<Node>)
    requires t.Valid() && u.Valid() && u != t && u.nodes !! t.nodes && Source(u, null, b)
    requires fnd in t.nodes && KidsRow(t.all, t.head, t.feet, fnd, j)
    ensures Merging(t, fnd, fnd.first_child, u, null, j, b)
    ensures fnd.first_child == Begin(j, EndOf(t.feet, fnd)) && Elems(j) <= t.nodes
  {
    RowLinks(t, fnd, j);
    hide Elems, NoDup, Link, Framed, ChainedTo, InSource, KidsRow, Source, Tree.Valid;
  }

  lemma NothingMerged<A>(a: Forest<A>, v: A)
    requires v in Roots(a)
    ensures MergeTree(a, v, Nil) == a
  {
    CoveredTree(a, v, Nil);
  }

  /** There is a node with that label: its children take in the new ones. */
  method MergeFound(t: Tree, place: Node?, to1: Node?, fnd: Node, u: Tree, from: Node, from2: Node?, dummy: Value,
                    ghost k: Forest<Node>, ghost rest: Forest<Node>) returns (ghost r: Forest<Node>)
    requires Merging(t, place, to1, u, from2, k, rest) && rest.Cons? && from == rest.id && from.first_child != null
    requires to1 != EndOf(t.feet, place) && FirstAt(k, Labels(k), fnd, from.data) && fnd in Elems(k)
    modifies t, t.nodes
    ensures Merging(t, place, to1, u, from2, r, rest.right)
    ensures place != null ==> place in Elems(old(t.all))
    ensures t.all == WithRow(old(t.all), t.head, t.feet, place, r)
    ensures Labels(r) == TreeInto(to1 == EndOf(t.feet, place), old(Labels(k)), from.data, old(Labels(rest.kids)))
    ensures OnlyGrows(t)
    decreases |PreOrder(rest)|, 0
  {
    hide *;
    ghost var was, nodes, sources, l, j := t.all, t.nodes, u.nodes, Labels(k), From(k, fnd).kids;
    TurnBegins(t, place, to1, u, from2, k, rest);
    BelowBegins(t, place, k, fnd, j, u, from2, rest);
    RowReKid(was, t.head, t.feet, place, k, fnd, j);
    PreOrderTail(rest);
    ghost var j2 := MergeRow(t, fnd, fnd.first_child, u, from.first_child, null, dummy, j, rest.kids);
    HasGrown(t);
    LabelsKept(Within(k, nodes));
    LabelsKept(Within(j, nodes));
    LabelsKept(Within(rest, sources));
    LabelsKept(Within(rest.kids, sources));
    RowReKid(was, t.head, t.feet, place, k, fnd, j2);
    LabelsReKid(k, fnd, from.data, j2, Labels(rest.kids));
    IntoOpen(l, from.data, Labels(rest.kids));
    r := ReKid(k, fnd, j2);
    TurnDone(t, place, to1, u, from2, was, k, rest, r);
  }

  lemma PlaceIn(t: Tree, place: Node?, k: Forest<Node>)
    requires t.Valid() && KidsRow(t.all, t.head, t.feet, place, k)
    ensures place != null ==> place in Elems(t.all) && place != t.head && place != t.feet
  {}

  lemma MergeReady(t: Tree, u: Tree)
    requires t.Valid() && u.Valid() && u != t && u.nodes !! t.nodes
    ensures BodiesIn(t, u) && t.all == WithRow(t.all, t.head, t.feet, null, Body(t.all))
    ensures Merging(t, null, t.head.next_sibling, u, u.feet, Body(t.all), Body(u.all))
    ensures t.head.next_sibling == Begin(Body(t.all), EndOf(t.feet, null))
    ensures u.head.next_sibling == Begin(Body(u.all), u.feet)
  {
    BodyIn(t);
    BodyIn(u);
    FramedShape(t.all, t.head, t.feet);
    FramedShape(u.all, u.head, u.feet);
    RowLinks(t, null, Body(t.all));
    RowLinks(u, null, Body(u.all));
  }

  ghost predicate BodiesIn(t: Tree, u: Tree)
    reads t, u
  {
    t.all.Cons? && u.all.Cons? && Elems(Body(t.all)) <= t.nodes && Elems(Body(u.all)) <= u.nodes
  }

  lemma MergeEnd(t: Tree, was: Forest<Node>, k: Forest<Node>)
    requires t.Valid() && t.all == WithRow(was, t.head, t.feet, null, k)
    ensures Body(t.all) == k
  {
    DropLastAppend(k, Leaf(t.feet));
  }

  /** merge(t.begin(), t.end(), u.begin(), u.end()): a union of tries. */
  method MergeAll(t: Tree, u: Tree, dummy: Value)
    requires t.Valid() && u.Valid() && u != t && u.nodes !! t.nodes
    modifies t, t.nodes
    ensures t.Valid() && u.Valid() && u.nodes !! t.nodes && t.head == old(t.head) && t.feet == old(t.feet)
    ensures Labels(Body(t.all)) == Merged(old(Labels(Body(t.all))), old(Labels(Body(u.all))))
    ensures LabelPaths(Labels(Body(t.all))) ==
      LabelPaths(old(Labels(Body(t.all)))) + LabelPaths(old(Labels(Body(u.all))))
    ensures Distinct(old(Labels(Body(t.all)))) && Distinct(Labels(Body(u.all))) ==> Distinct(Labels(Body(t.all)))
    ensures Labels(Body(u.all)) == old(Labels(Body(u.all)))
    ensures OnlyGrows(t)
  {
    MergeReady(t, u);
    ghost var was, a, b, sources := t.all, Labels(Body(t.all)), Labels(Body(u.all)), u.nodes;
    var first, from1 := t.head.next_sibling, u.head.next_sibling;
    assert Elems(Body(u.all)) <= sources;
    hide *;
    ghost var k := MergeRow(t, null, first, u, from1, u.feet, dummy, Body(t.all), Body(u.all));
    MergeEnd(t, was, k);
    LabelsKept(Within(Body(u.all), sources));
    TrieUnion(a, b);
    MergeKeeps(a, b);
  }

  lemma MergeKeeps<A>(a: Forest<A>, b: Forest<A>)
    ensures Distinct(a) && Distinct(b) ==> Distinct(Merged(a, b))
  {
    if Distinct(a) && Distinct(b) {
      MergedDistinct(a, b);
    }
  }

  /** Merging the same tree once more leaves shape and labels as they are if and
      only if all of it is found there, as it is with distinct sibling labels. */
  method MergeAllAgain(t: Tree, u: Tree, dummy: Value)
    requires t.Valid() && u.Valid() && u != t && u.nodes !! t.nodes
    modifies t, t.nodes
    ensures t.Valid() && u.Valid() && u.nodes !! t.nodes
    ensures var b := old(Labels(Body(u.all)));
      var once := Merged(old(Labels(Body(t.all))), b);
      && Labels(Body(t.all)) == Merged(once, b)
      && (Labels(Body(t.all)) == once <==> Covers(once, b))
      && (Covers(b, b) || Distinct(b) ==> Labels(Body(t.all)) == once)
  {
    MergeTwice(Labels(Body(t.all)), Labels(Body(u.all)));
    hide *;
    MergeAll(t, u, dummy);
    MergeAll(t, u, dummy);
  }
}
