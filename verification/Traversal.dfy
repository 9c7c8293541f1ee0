/** What remains to be visited from a node, for each order of traversal. */
module Traversals {
  import opened Forests
  import opened TreeLinks

  /** The pre-order listing of `f` followed by `tail`, from `n` on. */
  ghost function PreFrom(f: Forest<Node>, tail: seq<Node>, n: Node): seq<Node>
    requires n in Elems(f)
  {
    if f.id == n then PreOrder(f) + tail
    else if n in Elems(f.kids) then PreFrom(f.kids, PreOrder(f.right) + tail, n)
    else PreFrom(f.right, tail, n)
  }

  /** The same listing after the whole subtree of `n`. */
  ghost function PreAfter(f: Forest<Node>, tail: seq<Node>, n: Node): seq<Node>
    requires n in Elems(f)
  {
    if f.id == n then PreOrder(f.right) + tail
    else if n in Elems(f.kids) then PreAfter(f.kids, PreOrder(f.right) + tail, n)
    else PreAfter(f.right, tail, n)
  }

  /** Each link leads to where the listing goes on. */
  lemma {:induction false} PreLinks(f: Forest<Node>, par: Node?, prev: Node?, tail: seq<Node>, n: Node)
    requires NoDup(f) && n in Elems(f) && par !in Elems(f)
    ensures var o := LinkOf(f, par, prev, n);
      && (o.first == null ==> PreFrom(f, tail, n) == [n] + PreAfter(f, tail, n))
      && (o.first != null ==> o.first in Elems(f) && PreFrom(f, tail, n) == [n] + PreFrom(f, tail, o.first))
      && (o.next != null ==> o.next in Elems(f) && PreAfter(f, tail, n) == PreFrom(f, tail, o.next))
      && (o.next == null && o.parent == par ==> PreAfter(f, tail, n) == tail)
      && (o.next == null && o.parent != par ==>
        o.parent in Elems(f) && PreAfter(f, tail, n) == PreAfter(f, tail, o.parent))
  {
    if f.id == n {
      assert PreOrder(f) + tail == [n] + (PreOrder(f.kids) + (PreOrder(f.right) + tail));
    } else if n in Elems(f.kids) {
      LinkRange(f.kids, f.id, null, n);
      PreLinks(f.kids, f.id, null, PreOrder(f.right) + tail, n);
    } else {
      LinkRange(f.right, par, f.id, n);
      PreLinks(f.right, par, f.id, tail, n);
    }
  }

  ghost function Depth<A>(f: Forest<A>, n: A): nat
    requires n in Elems(f)
  {
    if f.id == n then 0 else if n in Elems(f.kids) then 1 + Depth(f.kids, n) else Depth(f.right, n)
  }

  lemma {:induction false} DepthParent(f: Forest<Node>, par: Node?, prev: Node?, n: Node)
    requires NoDup(f) && n in Elems(f) && par !in Elems(f)
    ensures var p := LinkOf(f, par, prev, n).parent;
      if p == par then Depth(f, n) == 0 else p in Elems(f) && Depth(f, n) == Depth(f, p) + 1
  {
    if n in Elems(f.kids) {
      DepthParent(f.kids, f.id, null, n);
    } else if n in Elems(f.right) {
      DepthParent(f.right, par, f.id, n);
    }
  }

  lemma {:induction false} DepthBound<A>(f: Forest<A>, n: A)
    requires n in Elems(f)
    ensures Depth(f, n) < |PreOrder(f)|
  {
    if f.id == n {
    } else if n in Elems(f.kids) {
      DepthBound(f.kids, n);
    } else {
      DepthBound(f.right, n);
    }
  }

  /** Links that lead backwards mirror those that lead forwards. */
  lemma Backwards(f: Forest<Node>, n: Node)
    requires NoDup(f) && n in Elems(f)
    ensures var o := Link(f, n);
      && (o.prev != null ==> o.prev in Elems(f) && Link(f, o.prev).next == n)
      && (o.prev == null && o.parent != null ==> o.parent in Elems(f) && Link(f, o.parent).first == n)
  {
    var o := Link(f, n);
    LinkRange(f, null, null, n);
    if o.prev != null {
      LinksAgree(f, null, null, n, o.prev);
    } else if o.parent != null {
      LinksAgree(f, null, null, n, o.parent);
    }
  }

  lemma {:induction false} LinkNoKids(f: Forest<Node>, par: Node?, prev: Node?, n: Node)
    requires n in Elems(f)
    ensures LinkOf(f, par, prev, n).first == null <==> LinkOf(f, par, prev, n).last == null
  {
    if f.id == n {
      LastIn(f.kids);
    } else if n in Elems(f.kids) {
      LinkNoKids(f.kids, f.id, null, n);
    } else {
      LinkNoKids(f.right, par, f.id, n);
    }
  }

  lemma LastChild(f: Forest<Node>, n: Node)
    requires NoDup(f) && n in Elems(f) && Link(f, n).last != null
    ensures var c := Link(f, n).last;
      && c in Elems(f) && Link(f, c).next == null && Link(f, c).parent == n
      && Depth(f, c) == Depth(f, n) + 1
  {
    var c := Link(f, n).last;
    LinkRange(f, null, null, n);
    LinksAgree(f, null, null, c, n);
    DepthParent(f, null, null, c);
  }

  /** The post-order listing of `f` followed by `tail`, from `n` itself on. */
  ghost function PostFrom(f: Forest<Node>, tail: seq<Node>, n: Node): seq<Node>
    requires n in Elems(f)
  {
    if f.id == n then [n] + PostOrder(f.right) + tail
    else if n in Elems(f.kids) then PostFrom(f.kids, [f.id] + PostOrder(f.right) + tail, n)
    else PostFrom(f.right, tail, n)
  }

  /** The same listing from the first node below `n` on. */
  ghost function PostEnter(f: Forest<Node>, tail: seq<Node>, n: Node): seq<Node>
    requires n in Elems(f)
  {
    PostOrder(From(f, n).kids) + PostFrom(f, tail, n)
  }

  lemma PostEnterHead(f: Forest<Node>, tail: seq<Node>)
    requires f.Cons?
    ensures PostEnter(f, tail, f.id) == PostOrder(f) + tail
  {
    PostHead(f, tail);
    InTwoParts(PostOrder(f.kids), [f.id], PostOrder(f.right), tail);
    hide PostOrder, PostFrom, Elems;
  }

  lemma PostHead(f: Forest<Node>, tail: seq<Node>)
    requires f.Cons?
    ensures From(f, f.id) == f && PostFrom(f, tail, f.id) == [f.id] + PostOrder(f.right) + tail
    ensures PostOrder(f) == PostOrder(f.kids) + [f.id] + PostOrder(f.right)
  {}

  lemma InTwoParts<A>(k: seq<A>, n: seq<A>, r: seq<A>, tail: seq<A>)
    ensures k + (n + r + tail) == k + n + r + tail
  {}

  /** Entering a node leads down to its first child, if it has one. */
  lemma {:induction false} PostDown(f: Forest<Node>, par: Node?, prev: Node?, tail: seq<Node>, n: Node)
    requires NoDup(f) && n in Elems(f)
    ensures var o := LinkOf(f, par, prev, n);
      && (o.first == null ==> PostEnter(f, tail, n) == PostFrom(f, tail, n))
      && (o.first != null ==> o.first in Elems(f) && PostEnter(f, tail, n) == PostEnter(f, tail, o.first))
  {
    if f.id == n {
      if f.kids.Cons? {
        PostEnterHead(f.kids, PostFrom(f, tail, n));
        assert PostEnter(f, tail, f.kids.id) == PostEnter(f.kids, PostFrom(f, tail, n), f.kids.id);
      }
    } else if n in Elems(f.kids) {
      PostDown(f.kids, f.id, null, [f.id] + PostOrder(f.right) + tail, n);
    } else {
      PostDown(f.right, par, f.id, tail, n);
    }
  }

  /** After a node come its next sibling's subtree, its parent or the end. */
  lemma {:induction false} PostOn(f: Forest<Node>, par: Node?, prev: Node?, tail: seq<Node>, n: Node)
    requires NoDup(f) && n in Elems(f) && par !in Elems(f)
    ensures var o := LinkOf(f, par, prev, n);
      && (o.next != null ==> o.next in Elems(f) && PostFrom(f, tail, n) == [n] + PostEnter(f, tail, o.next))
      && (o.next == null && o.parent == par ==> PostFrom(f, tail, n) == [n] + tail)
      && (o.next == null && o.parent != par ==>
            o.parent in Elems(f) && PostFrom(f, tail, n) == [n] + PostFrom(f, tail, o.parent))
  {
    if f.id == n {
      if f.right.Cons? {
        PostEnterHead(f.right, tail);
        assert [n] + PostOrder(f.right) + tail == [n] + (PostOrder(f.right) + tail);
        assert PostEnter(f, tail, f.right.id) == PostEnter(f.right, tail, f.right.id);
      }
    } else if n in Elems(f.kids) {
      LinkRange(f.kids, f.id, null, n);
      PostOn(f.kids, f.id, null, [f.id] + PostOrder(f.right) + tail, n);
    } else {
      LinkRange(f.right, par, f.id, n);
      PostOn(f.right, par, f.id, tail, n);
    }
  }

  /** The listing still to come at an iterator position; null is past the end. */
  ghost function Rest(f: Forest<Node>, n: Node?): seq<Node>
    requires n != null ==> n in Elems(f)
  {
    if n == null then [] else PreFrom(f, [], n)
  }

  class PreOrderIterator {
    var node: Node?
    var skip_current_children: bool

    constructor (n: Node?)
      ensures node == n && !skip_current_children
    {
      node, skip_current_children := n, false;
    }

    /** operator++ */
    method Increment(ghost f: Forest<Node>)
      requires Linked(f) && node != null && node in Elems(f)
      modifies this
      ensures node != null ==> node in Elems(f)
      ensures !skip_current_children
      ensures if old(skip_current_children)
        then PreAfter(f, [], old(node)) == Rest(f, node)
        else PreFrom(f, [], old(node)) == [old(node)] + Rest(f, node)
    {
      hide Elems, NoDup, LinkOf, PreFrom, PreAfter, Depth;
      PreLinks(f, null, null, [], node);
      if !skip_current_children && node.first_child != null {
        node := node.first_child;
      } else {
        skip_current_children := false;
        while node.next_sibling == null
          invariant Linked(f) && node != null && node in Elems(f)
          invariant PreAfter(f, [], node) == PreAfter(f, [], old(node))
          invariant !skip_current_children
          decreases Depth(f, node)
        {
          PreLinks(f, null, null, [], node);
          DepthParent(f, null, null, node);
          node := node.parent;
          if node == null {
            return;
          }
        }
        PreLinks(f, null, null, [], node);
        node := node.next_sibling;
      }
    }

    /** operator-- */
    method Decrement(ghost f: Forest<Node>)
      requires Linked(f) && node != null && node in Elems(f)
      modifies this`node
      ensures old(node).prev_sibling == null && old(node).parent == null ==> node == null
      ensures !(old(node).prev_sibling == null && old(node).parent == null) ==>
        node != null && node in Elems(f) && PreFrom(f, [], node) == [node] + PreFrom(f, [], old(node))
    {
      hide Elems, NoDup, LinkOf, PreFrom, PreAfter, Depth;
      Backwards(f, node);
      if node.prev_sibling != null {
        node := node.prev_sibling;
        PreLinks(f, null, null, [], node);
        while node.last_child != null
          invariant Linked(f) && node != null && node in Elems(f)
          invariant PreAfter(f, [], node) == PreFrom(f, [], old(node))
          decreases |PreOrder(f)| - Depth(f, node)
        {
          LastChild(f, node);
          node := node.last_child;
          PreLinks(f, null, null, [], node);
          DepthBound(f, node);
        }
        LinkNoKids(f, null, null, node);
      } else {
        node := node.parent;
        if node == null {
          return;
        }
      }
      PreLinks(f, null, null, [], node);
    }
  }

  lemma PostSteps(f: Forest<Node>, n: Node)
    requires NoDup(f) && n in Elems(f)
    ensures var o := Link(f, n);
      && (o.first == null ==> PostEnter(f, [], n) == PostFrom(f, [], n))
      && (o.first != null ==> o.first in Elems(f) && PostEnter(f, [], n) == PostEnter(f, [], o.first))
      && (o.next != null ==> o.next in Elems(f) && PostFrom(f, [], n) == [n] + PostEnter(f, [], o.next))
      && (o.next == null ==>
        (o.parent != null ==> o.parent in Elems(f)) && PostFrom(f, [], n) == [n] + PostRest(f, o.parent))
  {
    PostDown(f, null, null, [], n);
    PostOn(f, null, null, [], n);
  }

  ghost function PostRest(f: Forest<Node>, n: Node?): seq<Node>
    requires n != null ==> n in Elems(f)
  {
    if n == null then [] else PostFrom(f, [], n)
  }

  /** Backwards in post-order, over the borders of sibling lists. */
  lemma PostBack(f: Forest<Node>, n: Node)
    requires NoDup(f) && n in Elems(f) && f.Cons? && f.kids.Nil? && n != f.id
    ensures var o := Link(f, n);
      && (o.last != null ==> o.last in Elems(f) && PostFrom(f, [], o.last) == [o.last] + PostFrom(f, [], n))
      && (o.prev != null ==> o.prev in Elems(f) && PostFrom(f, [], o.prev) == [o.prev] + PostEnter(f, [], n))
      && (o.prev == null ==> o.parent != null && o.parent in Elems(f) && o.parent != f.id)
      && (o.prev == null ==> PostEnter(f, [], o.parent) == PostEnter(f, [], n) && Depth(f, o.parent) < Depth(f, n))
  {
    var o := Link(f, n);
    Backwards(f, n);
    FirstLast(f, null, null, n);
    if o.last != null {
      LastChild(f, n);
      PostSteps(f, o.last);
    }
    if o.prev != null {
      PostSteps(f, o.prev);
    } else {
      LinkShape(f, null, null, f.id);
      PostSteps(f, o.parent);
      DepthParent(f, null, null, n);
    }
  }

  class PostOrderIterator {
    var node: Node?
    var skip_current_children: bool

    constructor (n: Node?)
      ensures node == n && !skip_current_children
    {
      node, skip_current_children := n, false;
    }

    /** operator++ */
    method Increment(ghost f: Forest<Node>)
      requires Linked(f) && node != null && node in Elems(f)
      modifies this
      ensures node != null ==> node in Elems(f)
      ensures !skip_current_children
      ensures !old(skip_current_children) || old(node).next_sibling == null ==>
        PostFrom(f, [], old(node)) == [old(node)] + PostRest(f, node)
      ensures old(skip_current_children) && old(node).next_sibling != null ==>
        node == old(node).next_sibling && PostFrom(f, [], old(node)) == [old(node)] + PostEnter(f, [], node)
    {
      hide Elems, NoDup, LinkOf, PostFrom, PostEnter, Depth;
      PostSteps(f, node);
      if node.next_sibling == null {
        node := node.parent;
        skip_current_children := false;
      } else {
        node := node.next_sibling;
        if skip_current_children {
          skip_current_children := false;
        } else {
          DescendAll(f);
        }
      }
    }

    /** operator--, from any node behind the childless first one */
    method Decrement(ghost f: Forest<Node>)
      requires Linked(f) && node != null && node in Elems(f) && f.Cons? && f.kids.Nil? && node != f.id
      modifies this
      ensures node != null && node in Elems(f) && !skip_current_children
      ensures PostFrom(f, [], node) ==
        [node] + if old(skip_current_children) then PostEnter(f, [], old(node)) else PostFrom(f, [], old(node))
    {
      hide Elems, NoDup, LinkOf, PostFrom, PostEnter, Depth;
      PostBack(f, node);
      PostSteps(f, node);
      LinkNoKids(f, null, null, node);
      if skip_current_children || node.last_child == null {
        skip_current_children := false;
        while node.prev_sibling == null
          invariant Linked(f) && node != null && node in Elems(f) && node != f.id && !skip_current_children
          invariant PostEnter(f, [], node) == PostEnter(f, [], old(node))
          decreases Depth(f, node)
        {
          PostBack(f, node);
          node := node.parent;
        }
        PostBack(f, node);
        node := node.prev_sibling;
      } else {
        node := node.last_child;
      }
    }

    /** Down to the deepest first child. */
    method DescendAll(ghost f: Forest<Node>)
      requires Linked(f) && node != null && node in Elems(f)
      modifies this`node
      ensures node != null && node in Elems(f)
      ensures PostFrom(f, [], node) == PostEnter(f, [], old(node))
    {
      hide Elems, NoDup, LinkOf, PostFrom, PostEnter, Depth;
      PostSteps(f, node);
      while node.first_child != null
        invariant Linked(f) && node != null && node in Elems(f)
        invariant PostEnter(f, [], node) == PostEnter(f, [], old(node))
        decreases |PreOrder(f)| - Depth(f, node)
      {
        FirstChild(f, node);
        PostSteps(f, node);
        node := node.first_child;
        DepthBound(f, node);
      }
      PostSteps(f, node);
    }
  }

  lemma FirstChild(f: Forest<Node>, n: Node)
    requires NoDup(f) && n in Elems(f) && Link(f, n).first != null
    ensures var c := Link(f, n).first;
      && c in Elems(f) && Link(f, c).prev == null && Link(f, c).parent == n
      && Depth(f, c) == Depth(f, n) + 1
  {
    var c := Link(f, n).first;
    LinkRange(f, null, null, n);
    LinksAgree(f, null, null, c, n);
    DepthParent(f, null, null, c);
  }
}
