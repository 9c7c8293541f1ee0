/** Stepping back undoes stepping on, in both orders of traversal. */
module TreeUndo {
  import opened Forests
  import opened TreeLinks
  import opened Traversals
  import opened Trees
  import opened TreeQueries

  /** The end of `s` that has `n` elements. */
  ghost predicate Tail<A>(s: seq<A>, t: seq<A>) {
    |t| <= |s| && s[|s| - |t|..] == t
  }

  lemma TailLonger<A>(a: seq<A>, s: seq<A>, t: seq<A>)
    requires Tail(s, t)
    ensures Tail(a + s, t)
  {}

  lemma {:induction false} PreFromTail(f: Forest<Node>, tail: seq<Node>, n: Node)
    requires n in Elems(f)
    ensures Tail(PreOrder(f) + tail, PreFrom(f, tail, n)) && |PreFrom(f, tail, n)| > 0 && PreFrom(f, tail, n)[0] == n
  {
    var k, r := PreOrder(f.kids), PreOrder(f.right);
    Regrouped([f.id], k, r, tail);
    if f.id == n {
      TailSelf(PreOrder(f) + tail);
    } else if n in Elems(f.kids) {
      PreFromTail(f.kids, r + tail, n);
      Regrouped([], k, r, tail);
      TailLonger([f.id], k + (r + tail), PreFrom(f, tail, n));
    } else {
      PreFromTail(f.right, tail, n);
      TailLonger([f.id] + k, r + tail, PreFrom(f, tail, n));
    }
  }

  lemma {:induction false} PostFromTail(f: Forest<Node>, tail: seq<Node>, n: Node)
    requires n in Elems(f)
    ensures Tail(PostOrder(f) + tail, PostFrom(f, tail, n)) && |PostFrom(f, tail, n)| > 0
    ensures PostFrom(f, tail, n)[0] == n
  {
    var k, r := PostOrder(f.kids), PostOrder(f.right);
    Regrouped(k, [f.id], r, tail);
    if f.id == n {
      TailSelf([n] + r + tail);
      TailLonger(k, [n] + r + tail, [n] + r + tail);
    } else if n in Elems(f.kids) {
      PostFromTail(f.kids, [f.id] + r + tail, n);
    } else {
      PostFromTail(f.right, tail, n);
      TailLonger(k + [f.id], r + tail, PostFrom(f, tail, n));
    }
  }

  lemma Regrouped<A>(k: seq<A>, n: seq<A>, r: seq<A>, tail: seq<A>)
    ensures k + n + r + tail == k + (n + r + tail) == k + n + (r + tail) == k + (n + (r + tail))
  {}

  lemma TailSelf<A>(s: seq<A>)
    ensures Tail(s, s)
  {}

  /** Two ends of one listing that go on alike begin alike. */
  lemma SameStep<A>(all: seq<A>, m: A, n: A, rest: seq<A>)
    requires Tail(all, [m] + rest) && Tail(all, [n] + rest)
    ensures m == n
  {
    assert all[|all| - |rest| - 1..][0] == m;
  }

  /** The node before another one in pre-order. */
  lemma PreBefore(f: Forest<Node>, m: Node, n: Node, next: Node)
    requires m in Elems(f) && n in Elems(f) && next in Elems(f)
    requires PreFrom(f, [], m) == [m] + PreFrom(f, [], next) && PreFrom(f, [], n) == [n] + PreFrom(f, [], next)
    ensures m == n
  {
    PreFromTail(f, [], m);
    PreFromTail(f, [], n);
    SameStep(PreOrder(f) + [], m, n, PreFrom(f, [], next));
  }

  lemma PostBefore(f: Forest<Node>, m: Node, n: Node, next: Node)
    requires m in Elems(f) && n in Elems(f) && next in Elems(f)
    requires PostFrom(f, [], m) == [m] + PostFrom(f, [], next) && PostFrom(f, [], n) == [n] + PostFrom(f, [], next)
    ensures m == n
  {
    PostFromTail(f, [], m);
    PostFromTail(f, [], n);
    SameStep(PostOrder(f) + [], m, n, PostFrom(f, [], next));
  }

  lemma NotFirst(f: Forest<Node>, n: Node, next: Node)
    requires NoDup(f) && n in Elems(f) && next in Elems(f)
    requires PreFrom(f, [], n) == [n] + PreFrom(f, [], next)
    ensures next != f.id && (Link(f, next).prev == null ==> Link(f, next).parent != null)
  {
    PreFromTail(f, [], n);
    FirstLast(f, null, null, next);
    assert PreFrom(f, [], f.id) == PreOrder(f) + [];
  }

  lemma NotFirstPost(f: Forest<Node>, n: Node, next: Node)
    requires n in Elems(f) && next in Elems(f) && f.kids.Nil?
    requires PostFrom(f, [], n) == [n] + PostFrom(f, [], next)
    ensures next != f.id
  {
    PostFromTail(f, [], n);
    assert PostFrom(f, [], f.id) == PostOrder(f) + [];
  }

  lemma OnlyLast(t: Tree, n: Node)
    requires t.Valid() && n in t.nodes
    ensures t.all.kids.Nil?
    ensures PreFrom(t.all, [], n) == [n] <==> n == t.feet
    ensures PostFrom(t.all, [], n) == [n] <==> n == t.feet
  {
    hide PreFrom, PostFrom, PreOrder, PostOrder, LinkOf, Elems, NoDup, From;
    PreEnds(t.all, t.head, t.feet);
    PostEnds(t.all, t.head, t.feet);
    PreFromTail(t.all, [], n);
    PreFromTail(t.all, [], t.feet);
    PostFromTail(t.all, [], n);
    PostFromTail(t.all, [], t.feet);
    if PreFrom(t.all, [], n) == [n] {
      SameStep(PreOrder(t.all) + [], n, t.feet, []);
    }
    if PostFrom(t.all, [], n) == [n] {
      SameStep(PostOrder(t.all) + [], n, t.feet, []);
    }
  }

  /** `--` after `++`, wherever the iterator is still inside the list. */
  method PreForthAndBack(n: Node, t: Tree) returns (inside: bool, back: Node?)
    requires t.Valid() && n in t.nodes
    ensures inside <==> n != t.feet
    ensures back == if inside then n else null
  {
    OnlyLast(t, n);
    hide Elems, NoDup, LinkOf, Framed, PreFrom;
    var it := new PreOrderIterator(n);
    it.Increment(t.all);
    inside := it.node != null;
    if inside {
      ghost var next := it.node;
      PreFromTail(t.all, [], next);
      NotFirst(t.all, n, next);
      it.Decrement(t.all);
      PreBefore(t.all, it.node, n, next);
    }
    back := it.node;
  }

  /** `++` after `--`, from every node but the first. */
  method PreBackAndForth(n: Node, t: Tree) returns (forth: Node?)
    requires t.Valid() && n in t.nodes && n != t.head
    ensures forth == n
  {
    FirstLast(t.all, null, null, n);
    hide Elems, NoDup, LinkOf, Framed, PreFrom;
    var it := new PreOrderIterator(n);
    it.Decrement(t.all);
    it.Increment(t.all);
    PreFromTail(t.all, [], n);
    if it.node != null {
      PreFromTail(t.all, [], it.node);
    }
    forth := it.node;
  }

  /** The same in post-order, in a list whose first node has no children. */
  method PostForthAndBack(n: Node, t: Tree) returns (inside: bool, back: Node?)
    requires t.Valid() && n in t.nodes
    ensures inside <==> n != t.feet
    ensures back == if inside then n else null
  {
    OnlyLast(t, n);
    hide Elems, NoDup, LinkOf, Framed, PostFrom;
    var it := new PostOrderIterator(n);
    it.Increment(t.all);
    inside := it.node != null;
    if inside {
      ghost var next := it.node;
      PostFromTail(t.all, [], next);
      NotFirstPost(t.all, n, next);
      it.Decrement(t.all);
      PostBefore(t.all, it.node, n, next);
    }
    back := it.node;
  }

  method PostBackAndForth(n: Node, t: Tree) returns (forth: Node?)
    requires t.Valid() && n in t.nodes && n != t.head
    ensures forth == n
  {
    FirstLast(t.all, null, null, n);
    hide Elems, NoDup, LinkOf, Framed, PostFrom;
    var it := new PostOrderIterator(n);
    it.Decrement(t.all);
    it.Increment(t.all);
    PostFromTail(t.all, [], n);
    if it.node != null {
      PostFromTail(t.all, [], it.node);
    }
    forth := it.node;
  }
}
