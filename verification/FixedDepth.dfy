/** Stepping through all nodes at one depth. */
module TreeFixedDepth {
  import opened Forests
  import opened TreeLinks
  import opened Traversals
  import opened Trees
  import opened TreeQueries

  /** The nodes at depth `d` that follow the subtree of `m`, then `tail`. */
  ghost function LevelAfter(f: Forest<Node>, tail: seq<Node>, d: nat, m: Node): seq<Node>
    requires m in Elems(f) && Depth(f, m) <= d
  {
    if f.id == m then AtDepth(f.right, d) + tail
    else if m in Elems(f.kids) then LevelAfter(f.kids, AtDepth(f.right, d) + tail, d - 1, m)
    else LevelAfter(f.right, tail, d, m)
  }

  /** The nodes at depth `d` from the subtree of `m` on. */
  ghost function LevelFrom(f: Forest<Node>, tail: seq<Node>, d: nat, m: Node): seq<Node>
    requires m in Elems(f) && Depth(f, m) <= d
  {
    (if Depth(f, m) == d then [m] else AtDepth(From(f, m).kids, d - Depth(f, m) - 1)) + LevelAfter(f, tail, d, m)
  }

  lemma LevelHead(f: Forest<Node>, tail: seq<Node>, d: nat)
    requires f.Cons?
    ensures LevelFrom(f, tail, d, f.id) == AtDepth(f, d) + tail
  {
    hide AtDepth;
    AtDepthStep(f, d);
    var own := if d == 0 then [f.id] else AtDepth(f.kids, d - 1);
    assert LevelFrom(f, tail, d, f.id) == own + (AtDepth(f.right, d) + tail);
  }

  lemma AtDepthStep<A>(f: Forest<A>, d: nat)
    requires f.Cons?
    ensures AtDepth(f, d) == (if d == 0 then [f.id] else AtDepth(f.kids, d - 1)) + AtDepth(f.right, d)
  {}

  /** The next sibling, or else the parent, of a node at or above the level. */
  lemma {:induction false} LevelAcross(f: Forest<Node>, par: Node?, prev: Node?, tail: seq<Node>, d: nat, m: Node)
    requires NoDup(f) && m in Elems(f) && par !in Elems(f) && Depth(f, m) <= d
    ensures var o := LinkOf(f, par, prev, m);
      if o.next != null then
        o.next in Elems(f) && Depth(f, o.next) == Depth(f, m) &&
          LevelAfter(f, tail, d, m) == LevelFrom(f, tail, d, o.next)
      else if o.parent == par then
        LevelAfter(f, tail, d, m) == tail
      else
        o.parent in Elems(f) && Depth(f, m) == Depth(f, o.parent) + 1 &&
          LevelAfter(f, tail, d, m) == LevelAfter(f, tail, d, o.parent)
  {
    DepthParent(f, par, prev, m);
    if f.id == m {
      if f.right.Cons? {
        LevelHead(f.right, tail, d);
      }
    } else if m in Elems(f.kids) {
      LinkRange(f.kids, f.id, null, m);
      LevelAcross(f.kids, f.id, null, AtDepth(f.right, d) + tail, d - 1, m);
    } else {
      LinkRange(f.right, par, f.id, m);
      LevelAcross(f.right, par, f.id, tail, d, m);
    }
  }

  lemma LevelDownHead(f: Forest<Node>, tail: seq<Node>, d: nat)
    requires f.Cons? && NoDup(f) && d > 0
    ensures if f.kids.Nil? then LevelFrom(f, tail, d, f.id) == LevelAfter(f, tail, d, f.id)
      else LevelFrom(f, tail, d, f.id) == LevelFrom(f, tail, d, f.kids.id)
  {
    hide AtDepth;
    NothingDeep<Node>(d - 1);
    if f.kids.Cons? {
      LevelHead(f.kids, AtDepth(f.right, d) + tail, d - 1);
      LevelInKids(f, tail, d, f.kids.id);
    }
  }

  lemma NothingDeep<A>(d: nat)
    ensures AtDepth<A>(Nil, d) == []
  {}

  lemma LevelInKids(f: Forest<Node>, tail: seq<Node>, d: nat, m: Node)
    requires f.Cons? && NoDup(f) && d > 0 && m in Elems(f.kids) && Depth(f.kids, m) < d
    ensures LevelFrom(f, tail, d, m) == LevelFrom(f.kids, AtDepth(f.right, d) + tail, d - 1, m)
  {
    hide AtDepth;
  }

  /** The first child of a node above the level. */
  lemma {:induction false} LevelDown(f: Forest<Node>, par: Node?, prev: Node?, tail: seq<Node>, d: nat, m: Node)
    requires NoDup(f) && m in Elems(f) && Depth(f, m) < d
    ensures var o := LinkOf(f, par, prev, m);
      if o.first == null then LevelFrom(f, tail, d, m) == LevelAfter(f, tail, d, m)
      else
        o.first in Elems(f) && Depth(f, o.first) == Depth(f, m) + 1 &&
        LevelFrom(f, tail, d, m) == LevelFrom(f, tail, d, o.first)
  {
    hide AtDepth;
    if f.id == m {
      LevelDownHead(f, tail, d);
    } else if m in Elems(f.kids) {
      LevelDown(f.kids, f.id, null, AtDepth(f.right, d) + tail, d - 1, m);
    } else {
      LevelDown(f.right, par, f.id, tail, d, m);
    }
  }

  ghost function LevelRest(f: Forest<Node>, d: nat, m: Node?): seq<Node>
    requires m != null ==> m in Elems(f) && Depth(f, m) <= d
  {
    if m == null then [] else LevelFrom(f, [], d, m)
  }

  /** next_at_same_depth: the fixed-depth step, its jumps written as loops. */
  method NextAtSameDepth(t: Tree, position: Node) returns (node: Node?)
    requires t.Valid() && position in t.nodes
    ensures node != null ==> node in t.nodes && Depth(t.all, node) == Depth(t.all, position)
    ensures var d := Depth(t.all, position);
      LevelFrom(t.all, [], d, position) == [position] + LevelRest(t.all, d, node)
  {
    hide Elems, NoDup, LinkOf, PreFrom, PreAfter, Framed, From, AtDepth, LevelAfter, LevelFrom, Depth;
    node := position;
    ghost var f, d := t.all, Depth(t.all, position);
    LevelAt(f, d, position);
    if position.next_sibling != null { Across(f, d, position); }
    if position.next_sibling != null {
      return position.next_sibling;
    }
    ghost var goal := LevelAfter(f, [], d, position);
    var relative_depth: int := 0;
    var upper := true;
    while true
      invariant t.Valid() && node != null && node in t.nodes && Depth(f, node) == d + relative_depth <= d
      invariant LevelAfter(f, [], d, node) == goal
      invariant upper <==> node.next_sibling == null
      invariant !upper ==> relative_depth < 0
      decreases |PreAfter(f, [], node)|
    {
      ghost var before := |PreAfter(f, [], node)|;
      if upper {
        Up(f, d, node);
        node := node.parent;
        if node == null {
          return;
        }
        relative_depth := relative_depth - 1;
        while node.next_sibling == null
          invariant node != null && node in t.nodes && Depth(f, node) == d + relative_depth < d
          invariant LevelAfter(f, [], d, node) == goal && |PreAfter(f, [], node)| == before
          decreases Depth(f, node)
        {
          Up(f, d, node);
          node := node.parent;
          if node == null {
            return;
          }
          relative_depth := relative_depth - 1;
        }
      }
      Across(f, d, node);
      node := node.next_sibling;
      while node.first_child == null && node.next_sibling != null
        invariant node != null && node in t.nodes && Depth(f, node) == d + relative_depth < d
        invariant LevelFrom(f, [], d, node) == goal && |PreFrom(f, [], node)| <= before
        decreases |PreFrom(f, [], node)|
      {
        Down(f, d, node);
        Across(f, d, node);
        node := node.next_sibling;
      }
      upper := node.first_child == null;
      if !upper {
        while relative_depth < 0 && node.first_child != null
          invariant node != null && node in t.nodes && Depth(f, node) == d + relative_depth <= d
          invariant LevelFrom(f, [], d, node) == goal && |PreFrom(f, [], node)| <= before
          decreases |PreFrom(f, [], node)|
        {
          Down(f, d, node);
          node := node.first_child;
          relative_depth := relative_depth + 1;
        }
        if relative_depth == 0 {
          return;
        }
        upper := node.next_sibling == null;
      }
      Down(f, d, node);
    }
  }

  /** The climbing, sideways and descending moves of that step. */
  lemma Up(f: Forest<Node>, d: nat, m: Node)
    requires NoDup(f) && m in Elems(f) && Depth(f, m) <= d && Link(f, m).next == null
    ensures var p := Link(f, m).parent;
      && (p == null ==> LevelAfter(f, [], d, m) == [])
      && (p != null ==> p in Elems(f) && Depth(f, m) == Depth(f, p) + 1)
      && (p != null ==> LevelAfter(f, [], d, p) == LevelAfter(f, [], d, m) && PreAfter(f, [], p) == PreAfter(f, [], m))
  {
    LevelAcross(f, null, null, [], d, m);
    PreLinks(f, null, null, [], m);
  }

  lemma Across(f: Forest<Node>, d: nat, m: Node)
    requires NoDup(f) && m in Elems(f) && Depth(f, m) <= d && Link(f, m).next != null
    ensures var s := Link(f, m).next;
      && s in Elems(f) && Depth(f, s) == Depth(f, m)
      && LevelFrom(f, [], d, s) == LevelAfter(f, [], d, m) && PreFrom(f, [], s) == PreAfter(f, [], m)
  {
    LevelAcross(f, null, null, [], d, m);
    PreLinks(f, null, null, [], m);
  }

  lemma Down(f: Forest<Node>, d: nat, m: Node)
    requires NoDup(f) && m in Elems(f) && Depth(f, m) < d
    ensures |PreAfter(f, [], m)| < |PreFrom(f, [], m)|
    ensures var c := Link(f, m).first;
      && (c == null ==> LevelAfter(f, [], d, m) == LevelFrom(f, [], d, m))
      && (c != null ==> c in Elems(f) && Depth(f, c) == Depth(f, m) + 1)
      && (c != null ==> LevelFrom(f, [], d, c) == LevelFrom(f, [], d, m) && |PreFrom(f, [], c)| < |PreFrom(f, [], m)|)
  {
    LevelDown(f, null, null, [], d, m);
    PreLinks(f, null, null, [], m);
    PreSpan(f, [], m);
  }

  lemma {:induction false} LevelAt(f: Forest<Node>, d: nat, m: Node)
    requires m in Elems(f) && Depth(f, m) == d
    ensures LevelFrom(f, [], d, m) == [m] + LevelAfter(f, [], d, m)
  {}

  lemma {:induction false} LevelFirst(f: Forest<Node>, tail: seq<Node>, d: nat)
    requires NoDup(f) && AtDepth(f, d) != []
    ensures var m := AtDepth(f, d)[0];
      m in Elems(f) && Depth(f, m) == d && LevelFrom(f, tail, d, m) == AtDepth(f, d) + tail
  {
    AtDepthStep(f, d);
    if d == 0 {
      LevelHead(f, tail, d);
    } else if AtDepth(f.kids, d - 1) != [] {
      var rest := AtDepth(f.right, d) + tail;
      LevelFirst(f.kids, rest, d - 1);
      assert AtDepth(f, d) + tail == AtDepth(f.kids, d - 1) + rest;
    } else {
      LevelFirst(f.right, tail, d);
      assert AtDepth(f, d) == AtDepth(f.right, d);
    }
  }

  /** Repeated steps from the leftmost node at depth `d` visit the whole level
      from left to right and then yield null. */
  method VisitLevel(t: Tree, start: Node, ghost d: nat) returns (visited: seq<Node>)
    requires t.Valid() && d >= 1 && AtDepth(Body(t.all), d) != [] && start == AtDepth(Body(t.all), d)[0]
    ensures visited == AtDepth(Body(t.all), d)
  {
    hide *;
    VisitBegin(t, d);
    ghost var level := AtDepth(t.all, d);
    visited := [];
    var node: Node? := start;
    while node != null
      invariant node != null ==> node in t.nodes && Depth(t.all, node) == d
      invariant visited + LevelRest(t.all, d, node) == level
      decreases |LevelRest(t.all, d, node)|
    {
      LevelHere(t.all, d, node);
      var n := node;
      node := NextAtSameDepth(t, node);
      VisitOne(visited, n, LevelRest(t.all, d, node));
      visited := visited + [n];
    }
    LevelHere(t.all, d, node);
  }

  lemma VisitOne<A>(visited: seq<A>, n: A, rest: seq<A>)
    ensures visited + ([n] + rest) == visited + [n] + rest
  {}

  lemma VisitBegin(t: Tree, d: nat)
    requires t.Valid() && d >= 1 && AtDepth(Body(t.all), d) != []
    ensures t.nodes == Elems(t.all) && AtDepth(t.all, d) == AtDepth(Body(t.all), d)
    ensures var start := AtDepth(Body(t.all), d)[0];
      start in t.nodes && Depth(t.all, start) == d && LevelRest(t.all, d, start) == AtDepth(t.all, d)
  {
    LevelOfBody(t.all, t.head, t.feet, d);
    LevelFirst(t.all, [], d);
  }

  lemma LevelHere(f: Forest<Node>, d: nat, n: Node?)
    requires n != null ==> n in Elems(f) && Depth(f, n) == d
    ensures LevelRest(f, d, n) == if n == null then [] else LevelFrom(f, [], d, n)
  {}

  lemma LevelOfBody(f: Forest<Node>, head: Node, feet: Node, d: nat)
    requires Framed(f, head, feet) && d >= 1
    ensures AtDepth(f, d) == AtDepth(Body(f), d)
  {
    FramedShape(f, head, feet);
    LevelAppend(Body(f), Cons(feet, Nil, Nil), d);
  }

  lemma {:induction false} LevelAppend<A>(f: Forest<A>, g: Forest<A>, d: nat)
    ensures AtDepth(Append(f, g), d) == AtDepth(f, d) + AtDepth(g, d)
  {
    if f.Cons? {
      LevelAppend(f.right, g, d);
    }
  }
}
