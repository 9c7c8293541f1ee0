/** Erasing subtrees: every node below is destroyed once, children first. */
module TreeErase {
  import opened Forests
  import opened TreeLinks
  import opened TreeEdits
  import opened TreeSurgery
  import opened Traversals
  import opened Trees
  import opened TreeQueries

  /** A forest of children hangs below `n` with all its links in place. */
  ghost predicate Hanging(n: Node, k: Forest<Node>, prev: Node?, nodes: set<Node>)
    reads nodes
  {
    && NoDup(k) && Elems(k) <= nodes && n !in Elems(k)
    && forall m :: m in Elems(k) ==> Fields(m) == LinkOf(k, n, prev, m)
  }

  lemma HangingKids(n: Node, k: Forest<Node>, prev: Node?, nodes: set<Node>)
    requires k.Cons? && Hanging(n, k, prev, nodes)
    ensures k.id in nodes && Fields(k.id) == Links(n, First(k.kids), Last(k.kids), prev, First(k.right))
    ensures Hanging(k.id, k.kids, null, nodes) && Hanging(n, k.right, k.id, nodes)
    ensures n != k.id && Elems(k) == {k.id} + Elems(k.kids) + Elems(k.right)
    ensures ({n} + Elems(k.right)) !! ({k.id} + Elems(k.kids))
    ensures |PreOrder(k)| == 1 + |PreOrder(k.kids)| + |PreOrder(k.right)| && First(k) == k.id
  {}

  /** What is freed with the first of the trees and what remains to be freed. */
  lemma FreedOne(freed: seq<Node>, k: Forest<Node>)
    requires k.Cons?
    ensures freed + PostOrder(k) == freed + PostOrder(k.kids) + [k.id] + PostOrder(k.right)
  {
    assert freed + (PostOrder(k.kids) + [k.id] + PostOrder(k.right)) ==
      freed + PostOrder(k.kids) + [k.id] + PostOrder(k.right);
  }

  lemma FreedAll(freed: seq<Node>, k: Forest<Node>)
    ensures [] + PostOrder(k) == PostOrder(k) && (First(k) == null ==> freed + PostOrder(k) == freed)
    ensures First(k) != null ==> k.Cons?
  {}

  /** erase_children(it); `freed` is the order of destruction. */
  method EraseChildren(n: Node, ghost k: Forest<Node>, ghost nodes: set<Node>) returns (freed: seq<Node>)
    requires n.first_child == First(k) && Hanging(n, k, null, nodes)
    modifies {n} + Elems(k)
    ensures freed == PostOrder(k)
    ensures Fields(n) == old(Fields(n)).(first := null, last := null) && n.data == old(n.data)
    decreases |PreOrder(k)|
  {
    hide Elems, NoDup, LinkOf, PreOrder, PostOrder, First, Last;
    freed := [];
    var cur := n.first_child;
    FreedAll([], k);
    ghost var rest, left := k, null;
    while cur != null
      invariant cur == First(rest) && Hanging(n, rest, left, nodes) && Elems(rest) <= Elems(k)
      invariant |PreOrder(rest)| <= |PreOrder(k)|
      invariant freed + PostOrder(rest) == PostOrder(k)
      invariant Fields(n) == old(Fields(n)) && n.data == old(n.data)
      decreases |PreOrder(rest)|
    {
      FreedAll(freed, rest);
      HangingKids(n, rest, left, nodes);
      FreedOne(freed, rest);
      var prev := cur;
      cur := cur.next_sibling;
      var below := EraseChildren(prev, rest.kids, nodes);
      freed := freed + below + [prev];
      rest, left := rest.right, prev;
    }
    FreedAll(freed, rest);
    n.first_child := null;
    n.last_child := null;
  }

  /** The children of a node of a linked list hang below it. */
  lemma KidsHang(f: Forest<Node>, nodes: set<Node>, n: Node)
    requires NoDup(f) && nodes == Elems(f) && n in nodes
    requires forall m :: m in nodes ==> Fields(m) == Link(f, m)
    ensures Hanging(n, From(f, n).kids, null, nodes) && n.first_child == First(From(f, n).kids)
    ensures Elems(From(f, n).kids) !! Opt(n.parent) + Opt(n.prev_sibling) + Opt(n.next_sibling)
  {
    var k := From(f, n).kids;
    LinkShape(f, null, null, n);
    ParentOutside(f, null, null, n);
    assert Elems(k) !! Elems(From(f, n).right);
    forall m | m in Elems(k)
      ensures Fields(m) == LinkOf(k, n, null, m)
    {
      RemovedLinks(f, n, m);
    }
  }

  /** erase(it): the subtree is destroyed and its gap closed. */
  method Erase(t: Tree, n: Node) returns (next: Node?, freed: seq<Node>)
    requires t.Valid() && n in t.nodes && n != t.head && n != t.feet
    modifies t, t.nodes
    ensures t.Valid() && t.head == old(t.head) && t.feet == old(t.feet)
    ensures t.all == Removed(old(t.all), n) && t.nodes == old(t.nodes) - Sub(old(t.all), n)
    ensures freed == PostOrder(From(old(t.all), n).kids) + [n]
    ensures next != null ==> next in t.nodes
    ensures Rest(old(t.all), next) == PreAfter(old(t.all), [], n)
    ensures forall m :: m in t.nodes ==> m.data == old(m.data)
  {
    next := NextSkippingChildren(t, n);
    if next != null {
      RestOutside(t.all, n, next);
    }
    ghost var was, k := t.all, From(t.all, n).kids;
    KidsHang(was, t.nodes, n);
    RemovedTree(was, n, t.head, t.feet);
    var below := EraseChildren(n, k, t.nodes);
    freed := below + [n];
    CutOut(t, n);
  }

  /** The rest of erase, once the children of `n` are gone. */
  method CutOut(t: Tree, n: Node)
    requires Framed(t.all, t.head, t.feet) && t.nodes == Elems(t.all) && NoDup(t.all)
    requires n in t.nodes && n != t.head && n != t.feet
    requires Fields(n) == Link(t.all, n).(first := null, last := null)
    requires forall m :: m in t.nodes - Sub(t.all, n) ==> Fields(m) == Link(t.all, m)
    modifies t, t.nodes - Sub(t.all, n)
    ensures t.Valid() && t.head == old(t.head) && t.feet == old(t.feet)
    ensures t.all == Removed(old(t.all), n) && t.nodes == old(t.nodes) - Sub(old(t.all), n)
    ensures forall m :: m in t.nodes ==> m.data == old(m.data)
  {
    ghost var was, rest := t.all, t.nodes - Sub(t.all, n);
    RemovedTree(was, n, t.head, t.feet);
    hide *;
    UnlinkAround(n, was, rest);
    t.all, t.nodes := Removed(was, n), rest;
    TreeAgain(t, was, n);
  }

  /** Unlink seen from the nodes that stay. */
  method UnlinkAround(n: Node, ghost f: Forest<Node>, ghost rest: set<Node>)
    requires NoDup(f) && n in Elems(f) && rest <= Elems(f) && n !in rest
    requires n !in Opt(Link(f, n).parent) + Opt(Link(f, n).prev) + Opt(Link(f, n).next)
    requires Opt(Link(f, n).parent) + Opt(Link(f, n).prev) + Opt(Link(f, n).next) <= rest
    requires var o := Link(f, n);
      && (o.parent != null ==> o.parent != o.prev && o.parent != o.next)
      && (o.prev != null ==> o.prev != o.next)
      && (o.prev == null || o.next == null ==> o.parent != null)
    requires Fields(n) == Link(f, n).(first := null, last := null)
    requires forall m :: m in rest ==> Fields(m) == Link(f, m)
    modifies rest
    ensures forall m :: m in rest ==> m.data == old(m.data) && Fields(m) == RemovedLink(Link(f, m), n, Link(f, n))
  {
    hide Elems, NoDup, Link;
    ghost var at := Link(f, n);
    Unlink(n);
    forall m | m in rest
      ensures Fields(m) == RemovedLink(Link(f, m), n, at)
    {
      LinkTriple(f, n, m);
    }
  }

  lemma TreeAgain(t: Tree, was: Forest<Node>, n: Node)
    requires NoDup(was) && n in Elems(was) && t.all == Removed(was, n) && t.nodes == Elems(t.all) && NoDup(t.all)
    requires Framed(t.all, t.head, t.feet) && t.nodes <= Elems(was) && {t.head, t.feet} <= t.nodes && t.head != t.feet
    requires forall m :: m in t.nodes ==> Link(t.all, m) == RemovedLink(Link(was, m), n, Link(was, n))
    requires forall m :: m in t.nodes ==> Fields(m) == RemovedLink(Link(was, m), n, Link(was, n))
    ensures t.Valid()
  {
    hide Elems, NoDup, Link, Removed, Framed;
  }

  /** What follows a subtree is outside it. */
  lemma RestOutside(f: Forest<Node>, n: Node, m: Node)
    requires NoDup(f) && n in Elems(f) && m in Elems(f) && PreFrom(f, [], m) == PreAfter(f, [], n)
    ensures m !in Sub(f, n)
  {
    PreSpan(f, [], n);
    if m in Elems(From(f, n).kids) {
      PreInside(f, [], n, m);
      PreSpan(From(f, n).kids, PreAfter(f, [], n), m);
      PreLonger(From(f, n).kids, PreAfter(f, [], n), m);
    }
  }

  lemma {:induction false} PreInside(f: Forest<Node>, tail: seq<Node>, n: Node, m: Node)
    requires NoDup(f) && n in Elems(f) && m in Elems(From(f, n).kids)
    ensures PreFrom(f, tail, m) == PreFrom(From(f, n).kids, PreAfter(f, tail, n), m)
  {
    if f.id == n {
    } else if n in Elems(f.kids) {
      PreInside(f.kids, PreOrder(f.right) + tail, n, m);
    } else {
      PreInside(f.right, tail, n, m);
    }
  }

  lemma {:induction false} PreLonger(f: Forest<Node>, tail: seq<Node>, m: Node)
    requires m in Elems(f)
    ensures |PreFrom(f, tail, m)| > |tail|
  {
    if f.id == m {
    } else if m in Elems(f.kids) {
      PreLonger(f.kids, PreOrder(f.right) + tail, m);
    } else {
      PreLonger(f.right, tail, m);
    }
  }
}
