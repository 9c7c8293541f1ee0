/** Whole traversals of a tree and the counts built on them. */
module TreeQueries {
  import opened Forests
  import opened TreeLinks
  import opened Traversals
  import opened Trees

  lemma {:induction false} ListingsAppend<A>(f: Forest<A>, g: Forest<A>)
    ensures PreOrder(Append(f, g)) == PreOrder(f) + PreOrder(g)
    ensures PostOrder(Append(f, g)) == PostOrder(f) + PostOrder(g)
  {
    match f
    case Nil =>
    case Cons(n, k, r) => ListingsAppend(r, g);
  }

  lemma FramedListings(f: Forest<Node>, head: Node, feet: Node)
    requires Framed(f, head, feet)
    ensures PreOrder(f) == [head] + PreOrder(Body(f)) + [feet]
    ensures PostOrder(f) == [head] + PostOrder(Body(f)) + [feet]
  {
    hide *;
    FramedShape(f, head, feet);
    ListingsBetween(head, Body(f), feet);
  }

  lemma ListingsBetween<A>(x: A, f: Forest<A>, y: A)
    ensures var g := Cons(x, Nil, Append(f, Cons(y, Nil, Nil)));
      PreOrder(g) == [x] + PreOrder(f) + [y] && PostOrder(g) == [x] + PostOrder(f) + [y]
  {
    var last := Cons(y, Nil, Nil);
    ListingsAppend(f, last);
    assert PreOrder(last) == [y] == PostOrder(last);
    var g := Append(f, last);
    hide Append;
    assert PreOrder(Cons(x, Nil, g)) == [x] + PreOrder(g) && PostOrder(Cons(x, Nil, g)) == [x] + PostOrder(g);
  }

  lemma PreEnds(f: Forest<Node>, head: Node, feet: Node)
    requires Framed(f, head, feet)
    ensures head in Elems(f) && PreFrom(f, [], head) == PreOrder(f)
    ensures feet in Elems(f) && PreFrom(f, [], feet) == [feet]
  {
    FramedEnds(f, head, feet);
    PreLinks(f, null, null, [], feet);
  }

  lemma SameEnd<A>(s: seq<A>, x: A, t: seq<A>, y: A)
    requires s + [x] == t + [y]
    ensures x == y
  {
    assert (s + [x])[|s|] == (t + [y])[|t|];
  }

  /** begin() .. end(): visits exactly the recursive listing of the trees. */
  method Size(t: Tree) returns (i: nat, ghost visited: seq<Node>)
    requires t.Valid()
    ensures visited == PreOrder(Body(t.all)) && i == |PreOrder(Body(t.all))|
  {
    hide Elems, NoDup, LinkOf, PreFrom, PreAfter, Framed, Body, PreOrder;
    FramedListings(t.all, t.head, t.feet);
    PreLinks(t.all, null, null, [], t.head);
    FramedEnds(t.all, t.head, t.feet);
    ghost var body := PreOrder(Body(t.all));
    assert body == ([t.head] + body + [t.feet])[1..|body| + 1];
    PreEnds(t.all, t.head, t.feet);
    i := 0;
    visited := [];
    var it := new PreOrderIterator(t.head.next_sibling);
    while it.node != t.feet
      invariant t.Valid() && it.node != null && it.node in t.nodes && !it.skip_current_children
      invariant [t.head] + visited + PreFrom(t.all, [], it.node) == PreOrder(t.all)
      invariant i == |visited|
      decreases |PreFrom(t.all, [], it.node)|
    {
      if PreFrom(t.all, [], it.node) == [it.node] {
        SameEnd([t.head] + visited, it.node, [t.head] + body, t.feet);
      }
      i := i + 1;
      visited := visited + [it.node];
      it.Increment(t.all);
      assert [t.head] + visited + Rest(t.all, it.node) == PreOrder(t.all);
    }
    assert visited == ([t.head] + visited + [t.feet])[1..|visited| + 1];
  }

  lemma {:induction false} PreSpan(f: Forest<Node>, tail: seq<Node>, n: Node)
    requires n in Elems(f)
    ensures PreFrom(f, tail, n) == [n] + PreOrder(From(f, n).kids) + PreAfter(f, tail, n)
  {
    if f.id == n {
    } else if n in Elems(f.kids) {
      PreSpan(f.kids, PreOrder(f.right) + tail, n);
    } else {
      PreSpan(f.right, tail, n);
    }
  }

  lemma {:induction false} PreHead(f: Forest<Node>, tail: seq<Node>, n: Node)
    requires n in Elems(f)
    ensures |PreFrom(f, tail, n)| > 0 && PreFrom(f, tail, n)[0] == n
  {
    PreSpan(f, tail, n);
  }

  /** Different positions have different rests. */
  lemma RestInjective(f: Forest<Node>, m: Node?, n: Node?)
    requires m != null ==> m in Elems(f)
    requires n != null ==> n in Elems(f)
    requires Rest(f, m) == Rest(f, n)
    ensures m == n
  {
    if m != null { PreHead(f, [], m); }
    if n != null { PreHead(f, [], n); }
  }

  /** size(top): the nodes of the subtree of `top`, itself included. */
  method SizeOf(t: Tree, top: Node) returns (i: nat, ghost visited: seq<Node>)
    requires t.Valid() && top in t.nodes
    ensures visited == [top] + PreOrder(From(t.all, top).kids)
    ensures i == 1 + |PreOrder(From(t.all, top).kids)|
  {
    hide Elems, NoDup, LinkOf, PreFrom, PreAfter, Framed, PreOrder, From;
    i := 0;
    visited := [];
    var it := new PreOrderIterator(top);
    var end := NextSkippingChildren(t, top);
    ghost var rest := Rest(t.all, end);
    PreSpan(t.all, [], top);
    ghost var all := [top] + PreOrder(From(t.all, top).kids);
    assert Partly(visited, Rest(t.all, it.node), all, rest);
    hide Rest, Partly;
    while it.node != end
      invariant t.Valid() && !it.skip_current_children
      invariant it.node != null ==> it.node in t.nodes
      invariant i == |visited| && Partly(visited, Rest(t.all, it.node), all, rest)
      decreases |Rest(t.all, it.node)|
    {
      PartlyOpen(t.all, visited, it.node, all, end);
      ghost var n := it.node;
      i := i + 1;
      visited := visited + [it.node];
      it.Increment(t.all);
      PartlyStep(visited, n, Rest(t.all, it.node), all, rest);
    }
    PartlyDone(visited, rest, all);
  }

  /** ++ after skip_children() */
  method NextSkippingChildren(t: Tree, n: Node) returns (next: Node?)
    requires t.Valid() && n in t.nodes
    ensures next != null ==> next in t.nodes
    ensures Rest(t.all, next) == PreAfter(t.all, [], n)
  {
    var it := new PreOrderIterator(n);
    it.skip_current_children := true;
    it.Increment(t.all);
    next := it.node;
  }

  /** `visited` followed by what is still to come is `all` followed by `rest`. */
  ghost predicate Partly<A>(visited: seq<A>, come: seq<A>, all: seq<A>, rest: seq<A>) {
    |visited| <= |all| && visited + come == all + rest
  }

  lemma PartlyOpen(f: Forest<Node>, visited: seq<Node>, n: Node?, all: seq<Node>, end: Node?)
    requires n != null ==> n in Elems(f)
    requires end != null ==> end in Elems(f)
    requires Partly(visited, Rest(f, n), all, Rest(f, end)) && n != end
    ensures n != null && |visited| < |all| && Rest(f, n) == PreFrom(f, [], n)
  {
    if |visited| == |all| {
      assert Rest(f, n) == (visited + Rest(f, n))[|all|..] == Rest(f, end);
      RestInjective(f, n, end);
    }
  }

  lemma PartlyStep<A>(visited: seq<A>, n: A, come: seq<A>, all: seq<A>, rest: seq<A>)
    requires |visited| > 0 && visited[|visited| - 1] == n && |visited| <= |all|
    requires Partly(visited[..|visited| - 1], [n] + come, all, rest)
    ensures Partly(visited, come, all, rest)
  {
    assert visited + come == visited[..|visited| - 1] + ([n] + come);
  }

  lemma PartlyDone<A>(visited: seq<A>, rest: seq<A>, all: seq<A>)
    requires Partly(visited, rest, all, rest)
    ensures visited == all
  {
    assert visited == (visited + rest)[..|visited|] == all[..|visited|];
    assert |visited| + |rest| == |all| + |rest|;
  }

  /** begin_post() .. end_post(): visits exactly the recursive listing. */
  method VisitPostOrder(t: Tree) returns (visited: seq<Node>)
    requires t.Valid()
    ensures visited == PostOrder(Body(t.all))
  {
    hide Elems, NoDup, LinkOf, PostFrom, PostEnter, Framed, PostOrder, Body;
    FramedListings(t.all, t.head, t.feet);
    FramedEnds(t.all, t.head, t.feet);
    PostEnds(t.all, t.head, t.feet);
    PostSteps(t.all, t.head);
    ghost var body := PostOrder(Body(t.all));
    assert body == ([t.head] + body + [t.feet])[1..|body| + 1];
    var tmp := t.head.next_sibling;
    var it := new PostOrderIterator(tmp);
    PostSteps(t.all, t.feet);
    if tmp != t.feet {
      it.DescendAll(t.all);
    }
    visited := [];
    while it.node != t.feet
      invariant t.Valid() && it.node != null && it.node in t.nodes && !it.skip_current_children
      invariant [t.head] + visited + PostFrom(t.all, [], it.node) == PostOrder(t.all)
      decreases |PostFrom(t.all, [], it.node)|
    {
      if PostFrom(t.all, [], it.node) == [it.node] {
        SameEnd([t.head] + visited, it.node, [t.head] + body, t.feet);
      }
      visited := visited + [it.node];
      it.Increment(t.all);
      assert [t.head] + visited + PostRest(t.all, it.node) == PostOrder(t.all);
    }
    assert visited == ([t.head] + visited + [t.feet])[1..|visited| + 1];
  }

  lemma PostEnds(f: Forest<Node>, head: Node, feet: Node)
    requires Framed(f, head, feet)
    ensures head in Elems(f) && PostFrom(f, [], head) == PostOrder(f)
    ensures feet in Elems(f) && PostFrom(f, [], feet) == [feet]
  {
    FramedEnds(f, head, feet);
    PostSteps(f, feet);
    assert PostOrder(f) == [head] + PostOrder(f.right);
  }
}
