/** flatten: the children of a node become the siblings that follow it. */
module TreeFlatten {
  import opened Forests
  import opened TreeLinks
  import opened TreeEdits
  import opened TreeSurgery
  import opened Traversals
  import opened Trees
  import opened TreeQueries

  ghost function Flattened<A>(f: Forest<A>, n: A): Forest<A>
    requires n in Elems(f)
  {
    var g := From(f, n);
    Replace(f, n, Cons(n, Nil, Append(g.kids, g.right)))
  }

  /** Other borders for a sibling list. */
  lemma {:induction false} Rebordered(k: Forest<Node>, p: Node?, v: Node?, q: Node?, w: Node?, m: Node)
    requires NoDup(k) && m in Elems(k) && p !in Elems(k)
    ensures var o := LinkOf(k, p, v, m);
      LinkOf(k, q, w, m) ==
      o.(parent := if o.parent == p then q else o.parent, prev := if m == k.id then w else o.prev)
    ensures LinkOf(k, p, v, m).parent == p <==> m in Roots(k)
  {
    RootsIn(k.right);
    if m in Elems(k.kids) {
      LinkRange(k.kids, k.id, null, m);
    } else if m in Elems(k.right) {
      Rebordered(k.right, p, k.id, q, k.id, m);
      LinkRange(k.right, p, k.id, m);
    }
  }

  lemma {:induction false} RootsIn<A>(f: Forest<A>)
    ensures forall m :: m in Roots(f) ==> m in Elems(f)
  {
    if f.Cons? {
      RootsIn(f.right);
    }
  }

  /** The children of a node are the roots of the list below it. */
  lemma {:induction false} ChildrenAre(f: Forest<Node>, par: Node?, prev: Node?, n: Node, m: Node)
    requires NoDup(f) && n in Elems(f) && m in Elems(f) && par != n
    ensures LinkOf(f, par, prev, m).parent == n <==> m in Roots(From(f, n).kids)
  {
    RootsIn(From(f, n).kids);
    if f.id == n {
      if m in Elems(f.kids) {
        Rebordered(f.kids, n, null, n, null, m);
      } else if m in Elems(f.right) {
        LinkRange(f.right, par, f.id, m);
      }
    } else if n in Elems(f.kids) {
      if m in Elems(f.kids) {
        ChildrenAre(f.kids, f.id, null, n, m);
      } else if m in Elems(f.right) {
        LinkRange(f.right, par, f.id, m);
      }
    } else {
      if m in Elems(f.right) {
        ChildrenAre(f.right, par, f.id, n, m);
      } else if m in Elems(f.kids) {
        LinkRange(f.kids, f.id, null, m);
      }
    }
  }

  /** The links afterwards; `at` are those of the flattened node before. */
  function FlattenedLink(o: Links, m: Node, n: Node, at: Links): Links {
    Links(if o.parent == n then at.parent else o.parent,
          if m == n then null else o.first,
          if m == n then null else if m == at.parent && at.next == null then at.last else o.last,
          if m == at.next then at.last else if m == at.first then n else o.prev,
          if m == n then at.first else if m == at.last then at.next else o.next)
  }

  lemma FlattenedElems<A>(f: Forest<A>, n: A)
    requires NoDup(f) && n in Elems(f)
    ensures NoDup(Flattened(f, n)) && Elems(Flattened(f, n)) == Elems(f)
  {
    var g := From(f, n);
    AppendNoDup(g.kids, g.right);
    ReplaceElems(f, n, Cons(n, Nil, Append(g.kids, g.right)));
  }

  lemma FlattenedLinks(f: Forest<Node>, n: Node, m: Node)
    requires NoDup(f) && n in Elems(f) && m in Elems(f) && From(f, n).kids.Cons?
    ensures m in Elems(Flattened(f, n))
    ensures Link(Flattened(f, n), m) == FlattenedLink(Link(f, m), m, n, Link(f, n))
  {
    var at, g := Link(f, n), From(f, n);
    var h := Cons(n, Nil, Append(g.kids, g.right));
    AppendNoDup(g.kids, g.right);
    FlattenedElems(f, n);
    ReplaceLinks(f, n, h, m);
    LinkShape(f, null, null, n);
    if m in Elems(g.kids) {
      FlattenedBelow(f, n, m);
    } else if m in Elems(g.right) {
      FlattenedRight(f, n, m);
    } else if m != n {
      FlattenedOutside(f, n, m);
    }
  }

  lemma FlattenedBelow(f: Forest<Node>, n: Node, m: Node)
    requires NoDup(f) && n in Elems(f) && m in Elems(From(f, n).kids)
    ensures var g := From(f, n);
      NoDup(Append(g.kids, g.right)) &&
      LinkOf(Append(g.kids, g.right), Link(f, n).parent, n, m) == FlattenedLink(Link(f, m), m, n, Link(f, n))
  {
    var at, g := Link(f, n), From(f, n);
    FromLinks(f, null, null, n, m);
    LinkShape(f, null, null, n);
    ParentOutside(f, null, null, n);
    AppendLinks(g.kids, g.right, at.parent, n, m);
    Rebordered(g.kids, n, null, at.parent, n, m);
    FirstLast(g.kids, n, null, m);
    LastIn(g.right);
    LinkRange(g.kids, n, null, m);
  }

  lemma FlattenedRight(f: Forest<Node>, n: Node, m: Node)
    requires NoDup(f) && n in Elems(f) && m in Elems(From(f, n).right) && From(f, n).kids.Cons?
    ensures var g := From(f, n);
      NoDup(Append(g.kids, g.right)) &&
      LinkOf(Append(g.kids, g.right), Link(f, n).parent, n, m) == FlattenedLink(Link(f, m), m, n, Link(f, n))
  {
    var at, g := Link(f, n), From(f, n);
    FromLinks(f, null, null, n, m);
    LinkShape(f, null, null, n);
    ParentOutside(f, null, null, n);
    AppendLinks(g.kids, g.right, at.parent, n, m);
    PrevShift(g.right, at.parent, n, Last(g.kids), m);
    LastIn(g.kids);
    LinkRange(g.right, at.parent, n, m);
  }

  lemma FlattenedOutside(f: Forest<Node>, n: Node, m: Node)
    requires NoDup(f) && n in Elems(f) && m in Elems(f) && m !in Elems(From(f, n)) && From(f, n).kids.Cons?
    ensures var g := From(f, n);
      Adjusted(Link(f, m), Link(f, n), n, Cons(n, Nil, Append(g.kids, g.right)), m) ==
        FlattenedLink(Link(f, m), m, n, Link(f, n))
  {
    var at, g := Link(f, n), From(f, n);
    LinkShape(f, null, null, n);
    LastAppend(g.kids, g.right);
    LastIn(g.kids);
    LastIn(g.right);
    ChildrenAre(f, null, null, n, m);
    RootsIn(g.kids);
    if m == at.parent {
      ParentLast(f, n);
    }
  }

  /** The roots of `g` follow one another, up to the end of the list. */
  ghost predicate Chained(g: Forest<Node>, nodes: set<Node>)
    reads nodes`next_sibling
  {
    g.Cons? ==> g.id in nodes && g.id.next_sibling == First(g.right) && Chained(g.right, nodes)
  }

  lemma {:induction false} RootsDiffer<A>(g: Forest<A>)
    requires NoDup(g) && g.Cons?
    ensures g.id !in Roots(g.right)
  {
    RootsIn(g.right);
  }

  /** The loop that gives a list of siblings a new parent. */
  method Adopt(first: Node?, p: Node?, ghost g: Forest<Node>, ghost nodes: set<Node>)
    requires first == First(g) && NoDup(g) && Chained(g, nodes)
    modifies nodes`parent
    ensures forall m :: m in nodes ==> m.parent == if m in Roots(g) then p else old(m.parent)
  {
    var tmp := first;
    ghost var rest := g;
    while tmp != null
      invariant tmp == First(rest) && NoDup(rest) && Chained(rest, nodes)
      invariant forall m :: m in Roots(rest) ==> m in Roots(g)
      invariant forall m :: m in nodes ==> m.parent == if m in Roots(g) && m !in Roots(rest) then p else old(m.parent)
      decreases rest
    {
      RootsDiffer(rest);
      tmp.parent := p;
      tmp := tmp.next_sibling;
      rest := rest.right;
    }
  }

  /** The pointer surgery of flatten, once the children have their new parent. */
  method SpliceChildren(n: Node)
    requires n.first_child != null && n.last_child != null
    requires n.next_sibling == null ==> n.parent != null
    requires n !in {n.first_child, n.last_child} + Opt(n.next_sibling) + Opt(n.parent)
    requires Opt(n.next_sibling) + Opt(n.parent) !! {n.first_child, n.last_child}
    requires n.parent != null ==> n.parent != n.next_sibling
    modifies n, n.first_child, n.last_child, Opt(n.next_sibling), Opt(n.parent)
    ensures Fields(n) == old(Fields(n)).(first := null, last := null, next := old(n.first_child))
    ensures forall m :: m in {old(n.first_child), old(n.last_child)} + Opt(old(n.next_sibling)) + Opt(old(n.parent)) ==>
      Fields(m) == Spliced(old(Fields(m)), m, n, old(Fields(n)))
    ensures forall m ::
      m in {n, old(n.first_child), old(n.last_child)} + Opt(old(n.next_sibling)) + Opt(old(n.parent)) ==>
      m.data == old(m.data)
  {
    if n.next_sibling != null {
      n.last_child.next_sibling := n.next_sibling;
      n.next_sibling.prev_sibling := n.last_child;
    } else {
      n.parent.last_child := n.last_child;
    }
    n.next_sibling := n.first_child;
    n.next_sibling.prev_sibling := n;
    n.first_child := null;
    n.last_child := null;
  }

  /** What that does to the links of another node. */
  function Spliced(o: Links, m: Node, n: Node, at: Links): Links {
    o.(last := if m == at.parent && at.next == null then at.last else o.last,
       prev := if m == at.next then at.last else if m == at.first then n else o.prev,
       next := if m == at.last && at.next != null then at.next else o.next)
  }

  lemma FromAppendRight<A>(k: Forest<A>, r: Forest<A>, m: A)
    requires NoDup(Append(k, r)) && m in Elems(r) && m !in Elems(k)
    ensures From(Append(k, r), m) == From(r, m)
  {
    if k.Cons? {
      FromAppendRight(k.right, r, m);
    }
  }

  lemma FlattenedFramed(f: Forest<Node>, n: Node, head: Node, feet: Node)
    requires Framed(f, head, feet) && n in Elems(f) && From(f, n).kids.Cons?
    ensures Framed(Flattened(f, n), head, feet) && n != head && n != feet
  {
    var at, g := Link(f, n), From(f, n);
    FramedEnds(f, head, feet);
    LinkShape(f, null, null, n);
    BelowHasParent(f, head, feet, n);
    AppendNoDup(g.kids, g.right);
    if feet in Elems(g) {
      FromFrom(f, n, feet);
      FromAppendRight(g.kids, g.right, feet);
      FlattenedRight(f, n, feet);
    }
    ReplaceFramed(f, n, Cons(n, Nil, Append(g.kids, g.right)), head, feet);
  }

  /** The places around a node with children. */
  lemma AroundChildren(f: Forest<Node>, n: Node, head: Node, feet: Node)
    requires Framed(f, head, feet) && n in Elems(f) && n != feet && Link(f, n).first != null
    ensures From(f, n).kids.Cons? && n != head
    ensures var at := Link(f, n);
      && at.last != null && {at.first, at.last} + Opt(at.next) + Opt(at.parent) <= Elems(f) - {n}
      && Opt(at.next) + Opt(at.parent) !! {at.first, at.last}
      && (at.parent != null ==> at.parent != at.next)
      && (at.next == null ==> at.parent != null)
      && Link(f, at.last).next == null
  {
    var at, g := Link(f, n), From(f, n);
    LinkShape(f, null, null, n);
    LastIn(g.kids);
    LastIn(g.right);
    Neighbours(f, n);
    ParentOutside(f, null, null, n);
    InnerNode(f, head, feet, n);
    LastChild(f, n);
    FramedEnds(f, head, feet);
  }

  /** Everything flatten has to establish. */
  lemma FlattenedTree(f: Forest<Node>, n: Node, head: Node, feet: Node)
    requires Framed(f, head, feet) && n in Elems(f) && From(f, n).kids.Cons?
    ensures var h := Flattened(f, n);
      && Framed(h, head, feet) && NoDup(h) && Elems(h) == Elems(f)
      && forall m :: m in Elems(f) ==> Link(h, m) == FlattenedLink(Link(f, m), m, n, Link(f, n))
  {
    FlattenedElems(f, n);
    FlattenedFramed(f, n, head, feet);
    forall m | m in Elems(f)
      ensures Link(Flattened(f, n), m) == FlattenedLink(Link(f, m), m, n, Link(f, n))
    {
      FlattenedLinks(f, n, m);
    }
  }

  /** The children of a node follow one another. */
  lemma KidsChained(f: Forest<Node>, n: Node, nodes: set<Node>)
    requires NoDup(f) && n in Elems(f) && nodes == Elems(f)
    requires forall m :: m in nodes ==> Fields(m) == Link(f, m)
    ensures var k := From(f, n).kids;
      Chained(k, nodes) && NoDup(k) && n.first_child == First(k) &&
        forall m :: m in nodes ==> (m in Roots(k) <==> m.parent == n)
  {
    LinkShape(f, null, null, n);
    ChainedFrom(f, From(f, n).kids, nodes);
    forall m | m in nodes
      ensures m in Roots(From(f, n).kids) <==> m.parent == n
    {
      ChildrenAre(f, null, null, n, m);
    }
  }

  lemma {:induction false} ChainedFrom(f: Forest<Node>, k: Forest<Node>, nodes: set<Node>)
    requires NoDup(f) && nodes == Elems(f) && (k.Cons? ==> k.id in Elems(f) && From(f, k.id) == k)
    requires forall m :: m in nodes ==> Fields(m) == Link(f, m)
    ensures Chained(k, nodes)
  {
    if k.Cons? {
      LinkShape(f, null, null, k.id);
      ChainedFrom(f, k.right, nodes);
    }
  }

  /** Flattening keeps the listing. */
  lemma {:induction false} ReplaceListing<A>(f: Forest<A>, n: A, g: Forest<A>)
    requires n in Elems(f) && PreOrder(g) == PreOrder(From(f, n))
    ensures PreOrder(Replace(f, n, g)) == PreOrder(f)
  {
    if f.id == n {
    } else if n in Elems(f.kids) {
      ReplaceListing(f.kids, n, g);
    } else {
      ReplaceListing(f.right, n, g);
    }
  }

  lemma FlattenedListing<A>(f: Forest<A>, n: A)
    requires n in Elems(f)
    ensures PreOrder(Flattened(f, n)) == PreOrder(f)
  {
    var g := From(f, n);
    ListingsAppend(g.kids, g.right);
    assert [n] + PreOrder<A>(Nil) + PreOrder(Append(g.kids, g.right)) == [n] + PreOrder(g.kids) + PreOrder(g.right);
    ReplaceListing(f, n, Cons(n, Nil, Append(g.kids, g.right)));
  }

  /** The pointer part of flatten, seen from all `nodes`. */
  method TakeUpChildren(n: Node, ghost f: Forest<Node>, ghost nodes: set<Node>, ghost head: Node, ghost feet: Node)
    requires Framed(f, head, feet) && NoDup(f) && nodes == Elems(f) && n in nodes && n != feet
    requires Link(f, n).first != null
    requires forall m :: m in nodes ==> Fields(m) == Link(f, m)
    modifies nodes
    ensures forall m :: m in nodes ==> Fields(m) == FlattenedLink(Link(f, m), m, n, Link(f, n)) && m.data == old(m.data)
  {
    AroundChildren(f, n, head, feet);
    KidsChained(f, n, nodes);
    hide *;
    AdoptKids(n, f, nodes);
    SpliceKids(n, f, nodes);
  }

  method AdoptKids(n: Node, ghost f: Forest<Node>, ghost nodes: set<Node>)
    requires n in nodes && nodes == Elems(f) && n.first_child == First(From(f, n).kids)
    requires Chained(From(f, n).kids, nodes) && NoDup(From(f, n).kids)
    requires forall m :: m in nodes ==> (m in Roots(From(f, n).kids) <==> m.parent == n)
    modifies nodes`parent
    ensures forall m :: m in nodes ==>
      Fields(m) == old(Fields(m)).(parent := if old(m.parent) == n then old(n.parent) else old(m.parent))
  {
    hide Chained, NoDup, Elems, From, Roots;
    Adopt(n.first_child, n.parent, From(f, n).kids, nodes);
  }

  method SpliceKids(n: Node, ghost f: Forest<Node>, ghost nodes: set<Node>)
    requires n in nodes && nodes == Elems(f)
    requires var at := Link(f, n);
      && at.first != null && at.last != null && {at.first, at.last} + Opt(at.next) + Opt(at.parent) <= nodes - {n}
      && Opt(at.next) + Opt(at.parent) !! {at.first, at.last}
      && (at.parent != null ==> at.parent != at.next)
      && (at.next == null ==> at.parent != null)
      && Link(f, at.last).next == null && at.parent != n
    requires forall m :: m in nodes ==>
      Fields(m) == Link(f, m).(parent := if Link(f, m).parent == n then Link(f, n).parent else Link(f, m).parent)
    modifies nodes
    ensures forall m :: m in nodes ==> Fields(m) == FlattenedLink(Link(f, m), m, n, Link(f, n)) && m.data == old(m.data)
  {
    hide Elems, Link;
    SpliceChildren(n);
  }

  method FlattenChildren(t: Tree, n: Node)
    requires t.Valid() && n in t.nodes && n != t.feet && From(t.all, n).kids.Cons?
    modifies t, t.nodes
    ensures t.Valid() && t.nodes == old(t.nodes) && t.head == old(t.head) && t.feet == old(t.feet)
    ensures t.all == Flattened(old(t.all), n)
    ensures forall m :: m in t.nodes ==> m.data == old(m.data)
  {
    ghost var was := t.all;
    LinkShape(was, null, null, n);
    FlattenedTree(was, n, t.head, t.feet);
    Unfold(t);
    hide *;
    TakeUpChildren(n, was, t.nodes, t.head, t.feet);
    t.all := Flattened(was, n);
    Fold(t);
  }

  /** flatten(position) */
  method Flatten(t: Tree, n: Node) returns (r: Node)
    requires t.Valid() && n in t.nodes && n != t.feet
    modifies t, t.nodes
    ensures t.Valid() && r == n && t.nodes == old(t.nodes) && t.head == old(t.head) && t.feet == old(t.feet)
    ensures t.all == if From(old(t.all), n).kids == Nil then old(t.all) else Flattened(old(t.all), n)
    ensures PreOrder(t.all) == old(PreOrder(t.all))
    ensures forall m :: m in t.nodes ==> m.data == old(m.data)
  {
    r := n;
    LinkShape(t.all, null, null, n);
    FlattenedListing(t.all, n);
    if n.first_child != null {
      hide *;
      FlattenChildren(t, n);
    }
  }
}
