/** Paths from a node: which sibling to take, level by level. */
module TreePaths {
  import opened Forests
  import opened Wrappers
  import opened TreeLinks
  import opened Trees

  function Bump(p: seq<int>): seq<int>
    requires |p| > 0
  {
    [p[0] + 1] + p[1..]
  }

  /** The path of node `n` in the sibling list `g` with its subtrees. */
  ghost function PathOf<A>(g: Forest<A>, n: A): (p: seq<int>)
    requires n in Elems(g)
    ensures |p| > 0 && forall i :: 0 <= i < |p| ==> p[i] >= 0
  {
    if g.id == n then [0]
    else if n in Elems(g.kids) then [0] + PathOf(g.kids, n)
    else Bump(PathOf(g.right, n))
  }

  /** The sibling list that starts `k` nodes further to the right. */
  function DropSiblings<A>(g: Forest<A>, k: int): Forest<A>
    decreases k
  {
    if k <= 0 || g.Nil? then g else DropSiblings(g.right, k - 1)
  }

  /** The node that a path leads to, if there is one. */
  function Walk<A>(g: Forest<A>, p: seq<int>): Option<A>
    requires |p| > 0
    decreases |p|
  {
    var h := DropSiblings(g, p[0]);
    if h.Nil? then None
    else if |p| == 1 then Some(h.id)
    else Walk(h.kids, p[1..])
  }

  lemma {:induction false} WalkPath<A>(g: Forest<A>, n: A)
    requires n in Elems(g)
    ensures Walk(g, PathOf(g, n)) == Some(n)
  {
    var p := PathOf(g, n);
    if g.id == n {
    } else if n in Elems(g.kids) {
      WalkPath(g.kids, n);
      assert p[1..] == PathOf(g.kids, n);
    } else {
      WalkPath(g.right, n);
      var q := PathOf(g.right, n);
      assert p[1..] == q[1..];
      assert DropSiblings(g, p[0]) == DropSiblings(g.right, q[0]);
    }
  }

  lemma {:induction false} PathWalk<A>(g: Forest<A>, p: seq<int>)
    requires NoDup(g) && |p| > 0 && Walk(g, p).Some?
    requires forall i :: 0 <= i < |p| ==> p[i] >= 0
    ensures Walk(g, p).value in Elems(g) && PathOf(g, Walk(g, p).value) == p
    decreases |p|, p[0]
  {
    var n := Walk(g, p).value;
    if p[0] > 0 {
      var q := [p[0] - 1] + p[1..];
      assert q[1..] == p[1..];
      PathWalk(g.right, q);
      assert p == [p[0]] + p[1..];
    } else if |p| == 1 {
      assert p == [0];
    } else {
      PathWalk(g.kids, p[1..]);
      assert p == [0] + p[1..];
    }
  }

  function AddLast(p: seq<int>, k: int): seq<int>
    requires |p| > 0
  {
    p[..|p| - 1] + [p[|p| - 1] + k]
  }

  lemma AddLastCommutes(p: seq<int>, k: int)
    requires |p| > 0
    ensures Bump(AddLast(p, k)) == AddLast(Bump(p), k)
    ensures [0] + AddLast(p, k) == AddLast([0] + p, k)
    ensures Bump(p + [0]) == Bump(p) + [0]
  {
    if |p| > 1 {
      assert p[..|p| - 1][1..] == p[1..][..|p| - 2];
    }
  }

  /** Paths are made of positions: a root has its own, a child has its own behind
      the path of its parent. */
  lemma {:induction false} PathRoot<A>(g: Forest<A>, k: nat)
    requires NoDup(g) && k < |Roots(g)|
    ensures Roots(g)[k] in Elems(g) && PathOf(g, Roots(g)[k]) == [k]
  {
    if k > 0 {
      PathRoot(g.right, k - 1);
    }
  }

  lemma {:induction false} PathChild<A>(g: Forest<A>, m: A, k: nat)
    requires NoDup(g) && m in Elems(g) && k < |Roots(From(g, m).kids)|
    ensures var c := Roots(From(g, m).kids)[k];
      c in Elems(g) && PathOf(g, c) == PathOf(g, m) + [k]
  {
    if g.id == m {
      PathRoot(g.kids, k);
    } else if m in Elems(g.kids) {
      PathChild(g.kids, m, k);
    } else {
      PathChild(g.right, m, k);
    }
  }

  /** A step to the left lowers the last index, a step up removes it. */
  lemma {:induction false} PathSteps(g: Forest<Node>, par: Node?, prev: Node?, n: Node)
    requires NoDup(g) && n in Elems(g) && g.id != n && par !in Elems(g) && prev !in Elems(g)
    ensures var o := LinkOf(g, par, prev, n);
      if o.prev != null then o.prev in Elems(g) && PathOf(g, n) == AddLast(PathOf(g, o.prev), 1)
      else o.parent in Elems(g) && PathOf(g, n) == PathOf(g, o.parent) + [0]
  {
    var o := LinkOf(g, par, prev, n);
    if n in Elems(g.kids) {
      LinkRange(g.kids, g.id, null, n);
      if g.kids.id != n {
        PathSteps(g.kids, g.id, null, n);
        PathBelow(g, if o.prev != null then o.prev else o.parent);
        PathBelow(g, n);
        hide PathOf, AddLast, NoDup;
      }
    } else if g.right.id != n {
      PathSteps(g.right, par, g.id, n);
      LinkRange(g.right, par, g.id, n);
      PathRight(g, if o.prev != null then o.prev else o.parent);
      PathRight(g, n);
      hide PathOf, AddLast, NoDup;
    }
  }

  /** The path of a node in the list below the first one, or behind it. */
  lemma PathBelow(g: Forest<Node>, m: Node)
    requires NoDup(g) && g.Cons? && m in Elems(g.kids) + {g.id}
    ensures PathOf(g, m) == if m == g.id then [0] else [0] + PathOf(g.kids, m)
    ensures m != g.id ==> AddLast(PathOf(g, m), 1) == [0] + AddLast(PathOf(g.kids, m), 1)
    ensures m != g.id ==> PathOf(g, m) + [0] == [0] + (PathOf(g.kids, m) + [0])
  {
    if m != g.id {
      AddLastCommutes(PathOf(g.kids, m), 1);
    }
  }

  lemma PathRight(g: Forest<Node>, m: Node)
    requires NoDup(g) && g.Cons? && m in Elems(g.right)
    ensures PathOf(g, m) == Bump(PathOf(g.right, m))
    ensures AddLast(PathOf(g, m), 1) == Bump(AddLast(PathOf(g.right, m), 1))
    ensures PathOf(g, m) + [0] == Bump(PathOf(g.right, m) + [0])
  {
    AddLastCommutes(PathOf(g.right, m), 1);
  }

  /** The same steps along the links of the whole list. */
  lemma PathLinks(f: Forest<Node>, top: Node, n: Node)
    requires NoDup(f) && top in Elems(f) && top != f.id && n in Elems(From(f, top)) && n != top
    ensures var o, g := Link(f, n), From(f, top);
      if o.prev != null then o.prev in Elems(g) && o.prev != f.id && PathOf(g, n) == AddLast(PathOf(g, o.prev), 1)
      else o.parent != null && o.parent in Elems(g) && PathOf(g, n) == PathOf(g, o.parent) + [0]
  {
    var at, g := Link(f, top), From(f, top);
    FromLinks(f, null, null, top, n);
    ParentOutside(f, null, null, top);
    PathSteps(g, at.parent, at.prev, n);
  }

  function Reversed<A>(s: seq<A>): seq<A> {
    if s == [] then [] else [s[|s| - 1]] + Reversed(s[..|s| - 1])
  }

  lemma ReversedPush<A>(s: seq<A>, x: A)
    ensures Reversed(s + [x]) == [x] + Reversed(s)
  {
    assert (s + [x])[..|s|] == s;
  }

  lemma AddLastAppend(p: seq<int>, k: int, q: seq<int>)
    requires |p| > 0
    ensures p == [0] ==> AddLast(p, k) + q == [k] + q
    ensures AddLast(p + [0], k) + q == p + ([k] + q)
    ensures AddLast(AddLast(p, 1), k) == AddLast(p, k + 1)
  {
    assert (p + [0])[..|p|] == p;
  }

  /** The inner loop: to the first of the siblings, or to `top`. */
  method CountLeft(t: Tree, top: Node, start: Node) returns (walk: Node, num: nat)
    requires t.Valid() && top in t.nodes && top != t.head && start in Elems(From(t.all, top))
    ensures walk in t.nodes && walk in Elems(From(t.all, top))
    ensures walk == top || walk.prev_sibling == null
    ensures var g := From(t.all, top);
      PathOf(g, start) == AddLast(PathOf(g, walk), num) && |PathOf(g, walk)| == |PathOf(g, start)|
  {
    hide *;
    TopWithin(t, top);
    ghost var g := From(t.all, top);
    walk, num := start, 0;
    AddLastZero(PathOf(g, start));
    while walk != top && walk.prev_sibling != null && walk.prev_sibling != t.head
      invariant walk in t.nodes && walk in Elems(g)
      invariant PathOf(g, start) == AddLast(PathOf(g, walk), num) && |PathOf(g, walk)| == |PathOf(g, start)|
      decreases PathOf(g, walk)[|PathOf(g, walk)| - 1]
    {
      WalkLinks(t, top, walk);
      LastOfAddLast(PathOf(g, walk.prev_sibling), 1);
      AddLastAppend(PathOf(g, walk.prev_sibling), num, []);
      num := num + 1;
      walk := walk.prev_sibling;
    }
    if walk != top {
      WalkLinks(t, top, walk);
    }
  }

  lemma TopWithin(t: Tree, top: Node)
    requires t.Valid() && top in t.nodes
    ensures top in Elems(t.all) && Elems(From(t.all, top)) <= t.nodes && top in Elems(From(t.all, top))
    ensures PathOf(From(t.all, top), top) == [0]
  {}

  /** The links of a node that is reached on the way. */
  lemma WalkLinks(t: Tree, top: Node, n: Node)
    requires t.Valid() && top in t.nodes && top != t.head && n in Elems(From(t.all, top)) && n != top
    ensures var g := From(t.all, top);
      && n in t.nodes && n.prev_sibling != t.head
      && if n.prev_sibling != null then
           n.prev_sibling in Elems(g) && PathOf(g, n) == AddLast(PathOf(g, n.prev_sibling), 1)
         else n.parent != null && n.parent in Elems(g) && PathOf(g, n) == PathOf(g, n.parent) + [0]
    ensures n.prev_sibling != null ==> n.prev_sibling in t.nodes
    ensures n.parent != null ==> n.parent in t.nodes
  {
    PathLinks(t.all, top, n);
    LinkRange(t.all, null, null, n);
  }

  /** path_from_iterator(iter, top), for a node below `top` or below one of the
      siblings that follow it */
  method PathFromIterator(t: Tree, iter: Node, top: Node) returns (path: seq<int>)
    requires t.Valid() && top in t.nodes && top != t.head && iter in Elems(From(t.all, top))
    ensures path == PathOf(From(t.all, top), iter)
  {
    hide *;
    TopWithin(t, top);
    ghost var g := From(t.all, top);
    path := [];
    var walk := iter;
    while true
      invariant walk in t.nodes && walk in Elems(g)
      invariant if path == [] then walk == iter else OnTheWay(t, g, iter, top, walk, path)
      decreases path == [], |PathOf(g, walk)|
    {
      ghost var was := walk;
      if |path| > 0 {
        Upwards(t, g, iter, top, walk, path);
        walk := walk.parent;
      }
      ghost var start := walk;
      var num;
      walk, num := CountLeft(t, top, walk);
      if walk != top {
        WalkLinks(t, top, walk);
      }
      LevelDone(t, iter, top, start, walk, num, path);
      path := path + [num];
      if !(walk.parent != null && walk != top) {
        break;
      }
    }
    path := Reversed(path);
  }

  /** The path is known from below `walk` on, which is the first of its siblings. */
  ghost predicate OnTheWay(t: Tree, g: Forest<Node>, iter: Node, top: Node, walk: Node, path: seq<int>)
    reads walk
  {
    && iter in Elems(g) && walk in Elems(g) && walk != top && walk.prev_sibling == null
    && walk.parent != null && walk.parent in Elems(g)
    && PathOf(g, iter) == PathOf(g, walk.parent) + Reversed(path)
    && |PathOf(g, walk.parent)| < |PathOf(g, walk)|
  }

  lemma Upwards(t: Tree, g: Forest<Node>, iter: Node, top: Node, walk: Node, path: seq<int>)
    requires OnTheWay(t, g, iter, top, walk, path) && Elems(g) <= t.nodes
    ensures iter in Elems(g) && walk.parent != null && walk.parent in t.nodes && walk.parent in Elems(g)
    ensures PathOf(g, iter) == PathOf(g, walk.parent) + Reversed(path) && |PathOf(g, walk.parent)| < |PathOf(g, walk)|
  {}

  /** One level more. */
  lemma LevelDone(t: Tree, iter: Node, top: Node, start: Node, walk: Node, num: nat, path: seq<int>)
    requires t.Valid() && top in t.nodes && top != t.head && walk in Elems(From(t.all, top))
    requires iter in Elems(From(t.all, top))
    requires start in Elems(From(t.all, top)) && (walk == top || walk.prev_sibling == null)
    requires var g := From(t.all, top);
      && PathOf(g, start) == AddLast(PathOf(g, walk), num)
      && if path == [] then start == iter else PathOf(g, iter) == PathOf(g, start) + Reversed(path)
    ensures var g := From(t.all, top);
      && (walk == top ==> PathOf(g, iter) == Reversed(path + [num]))
      && (walk != top ==> walk.parent != null && OnTheWay(t, g, iter, top, walk, path + [num]))
  {
    var g := From(t.all, top);
    ReversedNil();
    ReversedPush(path, num);
    assert PathOf(g, iter) == PathOf(g, start) + Reversed(path);
    if walk == top {
      TopWithin(t, top);
      AddLastAppend(PathOf(g, top), num, Reversed(path));
    } else {
      WalkLinks(t, top, walk);
      AddLastAppend(PathOf(g, walk.parent), num, Reversed(path));
    }
    hide Reversed, AddLast, PathOf, From, Elems, NoDup;
  }

  lemma ReversedNil()
    ensures Reversed<int>([]) == []
  {}

  lemma AddLastZero(p: seq<int>)
    requires |p| > 0
    ensures AddLast(p, 0) == p
  {}

  lemma LastOfAddLast(p: seq<int>, k: int)
    requires |p| > 0
    ensures |AddLast(p, k)| == |p| && AddLast(p, k)[|p| - 1] == p[|p| - 1] + k
  {}

  /** iterator_from_path(path, top): None stands for the range error. */
  method IteratorFromPath(t: Tree, path: seq<int>, top: Node) returns (r: Option<Node>)
    requires t.Valid() && top in t.nodes
    ensures r == if path == [] then Some(top) else Walk(From(t.all, top), path)
  {
    hide Elems, NoDup, LinkOf, Framed, From;
    ghost var f := t.all;
    if path == [] {
      return Some(top);
    }
    ghost var goal := Walk(From(f, top), path);
    var walk := top;
    var step := 0;
    while step < |path|
      invariant 0 <= step <= |path| && walk in t.nodes
      invariant step == 0 ==> walk == top
      invariant 0 < step < |path| ==> goal == Walk(From(f, walk).kids, path[step..])
      invariant step == |path| ==> goal == Some(walk)
    {
      if step > 0 {
        LinkShape(f, null, null, walk);
        if walk.first_child == null {
          return None;
        }
        walk := walk.first_child;
      }
      assert goal == Walk(From(f, walk), path[step..]);
      ghost var h := DropSiblings(From(f, walk), path[step]);
      var i := 0;
      while i < path[step]
        invariant walk in t.nodes && 0 <= i && (path[step] >= 0 ==> i <= path[step])
        invariant h == DropSiblings(From(f, walk), path[step] - i)
        decreases path[step] - i
      {
        LinkShape(f, null, null, walk);
        if walk.next_sibling == null {
          return None;
        }
        walk := walk.next_sibling;
        i := i + 1;
      }
      assert path[step..][0] == path[step] && path[step..][1..] == path[step + 1..];
      step := step + 1;
    }
    return Some(walk);
  }

  /** Out and back: the path of a node leads to that node again. */
  method PathRoundTrip(t: Tree, iter: Node, top: Node) returns (r: Option<Node>)
    requires t.Valid() && top in t.nodes && top != t.head && iter in Elems(From(t.all, top))
    ensures r == Some(iter)
  {
    var path := PathFromIterator(t, iter, top);
    WalkPath(From(t.all, top), iter);
    r := IteratorFromPath(t, path, top);
  }
}
