/** move_out and move_in_as_nth_child: a subtree leaves for a tree of its own and
    a whole tree comes in below a node. */
module TreeMoveOut {
  import opened Forests
  import opened TreeLinks
  import opened TreeEdits
  import opened TreeSurgery
  import opened Trees
  import opened TreeFlatten
  import opened TreeReparent
  import opened Wrappers

  /** The first `i` trees of a sibling list, and the others. */
  ghost function TakeTrees<A>(k: Forest<A>, i: nat): Forest<A> {
    if i == 0 || k.Nil? then Nil else Cons(k.id, k.kids, TakeTrees(k.right, i - 1))
  }

  ghost function DropTrees<A>(k: Forest<A>, i: nat): Forest<A> {
    if i == 0 || k.Nil? then k else DropTrees(k.right, i - 1)
  }

  lemma {:induction false} TakeDrop<A>(k: Forest<A>, i: nat)
    ensures Append(TakeTrees(k, i), DropTrees(k, i)) == k
    ensures i <= |Roots(k)| ==> |Roots(TakeTrees(k, i))| == i
  {
    if i > 0 && k.Cons? {
      TakeDrop(k.right, i - 1);
    }
  }

  /** `b` as children of `p`, behind its first `i` children. */
  ghost function PutBelow<A>(f: Forest<A>, p: A, i: nat, b: Forest<A>): Forest<A>
    requires p in Elems(f)
  {
    var g := From(f, p);
    Replace(f, p, Cons(p, Append(TakeTrees(g.kids, i), Append(b, DropTrees(g.kids, i))), g.right))
  }

  /** Position of `n` among the roots. */
  ghost function IndexOf<A>(k: Forest<A>, n: A): nat
    requires n in Roots(k)
  {
    if k.id == n then 0 else 1 + IndexOf(k.right, n)
  }

  lemma {:induction false} IndexAt<A>(k: Forest<A>, n: A)
    requires n in Roots(k)
    ensures IndexOf(k, n) < |Roots(k)| && Roots(k)[IndexOf(k, n)] == n
  {
    if k.id != n {
      IndexAt(k.right, n);
    }
  }

  lemma {:induction false} TakenRoots<A>(k: Forest<A>, i: nat)
    requires i <= |Roots(k)|
    ensures Roots(TakeTrees(k, i)) == Roots(k)[..i] && Roots(DropTrees(k, i)) == Roots(k)[i..]
  {
    if i > 0 {
      TakenRoots(k.right, i - 1);
    }
  }

  /** The new children stand from position `i` on among the old ones. */
  lemma PutBelowRoots(f: Forest<Node>, p: Node, i: nat, b: Forest<Node>)
    requires NoDup(f) && p in Elems(f) && NoDup(b) && Elems(b) !! Elems(f) && i <= |Roots(From(f, p).kids)|
    ensures p in Elems(PutBelow(f, p, i, b))
    ensures var k := Roots(From(f, p).kids);
      Roots(From(PutBelow(f, p, i, b), p).kids) == k[..i] + Roots(b) + k[i..]
  {
    var g := From(f, p);
    var k1, k2 := TakeTrees(g.kids, i), DropTrees(g.kids, i);
    TakeDrop(g.kids, i);
    SplicedElems(k1, b, k2);
    FromReplace(f, p, Cons(p, Append(k1, Append(b, k2)), g.right), p);
    TakenRoots(g.kids, i);
    RootsAppend(k1, Append(b, k2));
    RootsAppend(b, k2);
  }

  /** Removing a root and putting it back at its index changes nothing. */
  lemma {:induction false} PutBackRoot<A>(k: Forest<A>, n: A)
    requires NoDup(k) && n in Roots(k)
    ensures n in Elems(k) && IndexOf(k, n) < |Roots(k)|
    ensures var i, g, k1 := IndexOf(k, n), From(k, n), Removed(k, n);
      Append(TakeTrees(k1, i), Append(Cons(n, g.kids, Nil), DropTrees(k1, i))) == k && |Roots(k1)| == |Roots(k)| - 1
  {
    RootsIn(k.right);
    if k.id == n {
      assert Removed(k, n) == k.right;
    } else {
      PutBackRoot(k.right, n);
      assert Removed(k, n) == Cons(k.id, k.kids, Removed(k.right, n));
    }
  }

  /** Taking a child out and putting it back below its parent, at its index. */
  lemma {:induction false} PutBack<A>(f: Forest<A>, p: A, n: A)
    requires NoDup(f) && p in Elems(f) && n in Roots(From(f, p).kids)
    ensures n in Elems(f) && p in Elems(Removed(f, n)) && p != n
    ensures PutBelow(Removed(f, n), p, IndexOf(From(f, p).kids, n), Cons(n, From(f, n).kids, Nil)) == f
    ensures IndexOf(From(f, p).kids, n) <= |Roots(From(Removed(f, n), p).kids)|
  {
    RootsIn(From(f, p).kids);
    var i, x := IndexOf(From(f, p).kids, n), Cons(n, From(f, n).kids, Nil);
    if f.id == p {
      PutBackRoot(f.kids, n);
      assert Removed(f, n) == Cons(p, Removed(f.kids, n), f.right);
    } else if p in Elems(f.kids) {
      PutBack(f.kids, p, n);
      RemovedElems(f.kids, n);
      assert Removed(f, n) == Cons(f.id, Removed(f.kids, n), f.right);
    } else {
      PutBack(f.right, p, n);
      RemovedElems(f.right, n);
      assert n !in Elems(f.kids);
      assert Removed(f, n) == Cons(f.id, f.kids, Removed(f.right, n));
    }
  }

  /** How the links of an old node change when `b` comes in below `p`, between
      the siblings `z` and `y`. */
  function BetweenLink(o: Links, m: Node, p: Node, z: Node?, y: Node?, b: Forest<Node>): Links
    requires b.Cons?
  {
    Links(o.parent,
          if m == p && z == null then First(b) else o.first,
          if m == p && y == null then Last(b) else o.last,
          if m == y then Last(b) else o.prev,
          if m == z then First(b) else o.next)
  }

  lemma SplicedElems(k1: Forest<Node>, b: Forest<Node>, k2: Forest<Node>)
    requires NoDup(Append(k1, k2)) && NoDup(b) && Elems(b) !! Elems(k1) + Elems(k2)
    ensures NoDup(k1) && NoDup(k2) && Elems(k1) !! Elems(k2) && NoDup(Append(b, k2)) && NoDup(Append(k1, Append(b, k2)))
  {
    AppendedApart(k1, k2);
    AppendNoDup(b, k2);
    AppendNoDup(k1, Append(b, k2));
  }

  /** The links in a sibling list with `b` put between `k1` and `k2`. */
  lemma SplicedLinks(k1: Forest<Node>, b: Forest<Node>, k2: Forest<Node>, p: Node, m: Node)
    requires NoDup(Append(k1, k2)) && NoDup(b) && b.Cons? && Elems(b) !! Elems(k1) + Elems(k2)
    requires p !in Elems(k1) + Elems(k2) + Elems(b) && m in Elems(k1) + Elems(k2) + Elems(b)
    ensures NoDup(Append(k1, Append(b, k2)))
    ensures LinkOf(Append(k1, Append(b, k2)), p, null, m) ==
      if m in Elems(b)
      then LinkOf(b, p, Last(k1), m).(next := if m == Last(b) then First(k2) else LinkOf(b, p, Last(k1), m).next)
      else BetweenLink(LinkOf(Append(k1, k2), p, null, m), m, p, Last(k1), First(k2), b)
  {
    SplicedElems(k1, b, k2);
    AppendLinks(k1, Append(b, k2), p, null, m);
    LastIn(k1);
    LastIn(k2);
    LastIn(b);
    if m in Elems(b) {
      AppendLinks(b, k2, p, Last(k1), m);
      FirstLast(b, p, Last(k1), m);
    } else if m in Elems(k2) {
      AppendLinks(b, k2, p, Last(k1), m);
      AppendLinks(k1, k2, p, null, m);
      PrevShift(k2, p, Last(k1), Last(b), m);
    } else {
      AppendLinks(k1, k2, p, null, m);
      FirstLast(k1, p, null, m);
    }
  }

  lemma PutBelowElems(f: Forest<Node>, p: Node, i: nat, b: Forest<Node>)
    requires NoDup(f) && p in Elems(f) && NoDup(b) && Elems(b) !! Elems(f)
    ensures NoDup(PutBelow(f, p, i, b)) && Elems(PutBelow(f, p, i, b)) == Elems(f) + Elems(b)
  {
    var g := From(f, p);
    var k1, k2 := TakeTrees(g.kids, i), DropTrees(g.kids, i);
    TakeDrop(g.kids, i);
    SplicedElems(k1, b, k2);
    ReplaceElems(f, p, Cons(p, Append(k1, Append(b, k2)), g.right));
  }

  lemma PutBelowLinks(f: Forest<Node>, p: Node, i: nat, b: Forest<Node>, m: Node)
    requires NoDup(f) && p in Elems(f) && NoDup(b) && b.Cons? && Elems(b) !! Elems(f) && m in Elems(f) + Elems(b)
    ensures m in Elems(PutBelow(f, p, i, b))
    ensures var k := From(f, p).kids;
      var z, y := Last(TakeTrees(k, i)), First(DropTrees(k, i));
      Link(PutBelow(f, p, i, b), m) ==
      if m in Elems(b) then LinkOf(b, p, z, m).(next := if m == Last(b) then y else LinkOf(b, p, z, m).next)
      else BetweenLink(Link(f, m), m, p, z, y, b)
  {
    var at, g := Link(f, p), From(f, p);
    var k1, k2 := TakeTrees(g.kids, i), DropTrees(g.kids, i);
    var h := Cons(p, Append(k1, Append(b, k2)), g.right);
    TakeDrop(g.kids, i);
    SplicedElems(k1, b, k2);
    PutBelowElems(f, p, i, b);
    ReplaceLinks(f, p, h, m);
    LastIn(k1);
    LastIn(k2);
    LastIn(b);
    hide NoDup, TakeTrees, DropTrees;
    if m in Elems(g.kids) + Elems(b) {
      SplicedLinks(k1, b, k2, p, m);
      if m in Elems(g.kids) {
        FromLinks(f, null, null, p, m);
      }
    } else if m in Elems(g) {
      OwnerLinks(f, p, k1, b, k2, m);
    } else {
      ElsewhereLinks(f, p, k1, b, k2, m);
    }
  }

  /** The links of `p` itself and of the nodes behind it in its list. */
  lemma OwnerLinks(f: Forest<Node>, p: Node, k1: Forest<Node>, b: Forest<Node>, k2: Forest<Node>, m: Node)
    requires NoDup(f) && p in Elems(f) && From(f, p).kids == Append(k1, k2) && b.Cons? && m !in Elems(b)
    requires m in Elems(From(f, p)) && m !in Elems(From(f, p).kids) && m in Elems(f)
    ensures var at, h := Link(f, p), Cons(p, Append(k1, Append(b, k2)), From(f, p).right);
      m in Elems(h) && LinkOf(h, at.parent, at.prev, m) == BetweenLink(Link(f, m), m, p, Last(k1), First(k2), b)
  {
    hide Elems, NoDup, LinkOf, From, Append, Last, LastOr, First, BetweenLink;
    var at, g := Link(f, p), From(f, p);
    var k, j := Append(k1, k2), Append(k1, Append(b, k2));
    SplicedEnds(k1, b, k2, m);
    NewKids(p, k, j, g.right, at.parent, at.prev, m);
    FromLinks(f, null, null, p, m);
    LinkShape(f, null, null, p);
    NewEnds(Link(f, m), m, p, Last(k1), First(k2), b, j);
  }

  /** The links of the nodes elsewhere. */
  lemma ElsewhereLinks(f: Forest<Node>, p: Node, k1: Forest<Node>, b: Forest<Node>, k2: Forest<Node>, m: Node)
    requires NoDup(f) && p in Elems(f) && From(f, p).kids == Append(k1, k2) && b.Cons? && m !in Elems(b)
    requires m in Elems(f) && m !in Elems(From(f, p))
    ensures var at, h := Link(f, p), Cons(p, Append(k1, Append(b, k2)), From(f, p).right);
      m !in Elems(h) && Adjusted(Link(f, m), at, p, h, m) == BetweenLink(Link(f, m), m, p, Last(k1), First(k2), b)
  {
    hide Elems, NoDup, LinkOf, From, Append, Last, LastOr, First, BetweenLink, Adjusted;
    var at, g := Link(f, p), From(f, p);
    var k, j := Append(k1, k2), Append(k1, Append(b, k2));
    FromParts(g);
    SplicedEnds(k1, b, k2, m);
    NewKids(p, k, j, g.right, at.parent, at.prev, m);
    if m == at.parent {
      ParentLast(f, p);
    }
    AdjustedSame(Link(f, m), at, p, Cons(p, j, g.right), m);
    NewEnds(Link(f, m), m, p, Last(k1), First(k2), b, j);
  }

  lemma AdjustedSame(o: Links, at: Links, n: Node, h: Forest<Node>, m: Node)
    requires First(h) == n && (m == at.parent ==> LastOr(h, at.prev) == o.last)
    ensures Adjusted(o, at, n, h, m) == o
  {}

  lemma FromParts(g: Forest<Node>)
    requires g.Cons?
    ensures g.id in Elems(g) && Elems(g.kids) <= Elems(g)
  {}

  lemma NewEnds(o: Links, m: Node, p: Node, z: Node?, y: Node?, b: Forest<Node>, j: Forest<Node>)
    requires b.Cons? && m != z && m != y
    requires m == p ==> First(j) == if z == null then First(b) else o.first
    requires m == p ==> Last(j) == if y == null then Last(b) else o.last
    ensures BetweenLink(o, m, p, z, y, b) == if m == p then o.(first := First(j), last := Last(j)) else o
  {}

  /** The ends of a list that is put between two others. */
  lemma SplicedEnds(k1: Forest<Node>, b: Forest<Node>, k2: Forest<Node>, m: Node)
    requires b.Cons? && m !in Elems(Append(k1, k2)) && m !in Elems(b)
    ensures m !in Elems(Append(k1, Append(b, k2))) && m != Last(k1) && m != First(k2)
    ensures First(Append(k1, Append(b, k2))) == if Last(k1) == null then First(b) else First(Append(k1, k2))
    ensures Last(Append(k1, Append(b, k2))) == if First(k2) == null then Last(b) else Last(Append(k1, k2))
  {
    LastIn(k1);
    LastIn(k2);
    LastAppend(k1, Append(b, k2));
    LastAppend(b, k2);
    LastAppend(k1, k2);
  }

  /** Only the links of `p` change when the list below it does. */
  lemma NewKids(p: Node, k: Forest<Node>, j: Forest<Node>, r: Forest<Node>, par: Node?, prev: Node?, m: Node)
    requires m !in Elems(k) && m !in Elems(j)
    ensures var g, h := Cons(p, k, r), Cons(p, j, r);
      && p in Elems(g) && First(h) == p && (m in Elems(g) <==> m in Elems(h))
      && LastOr(h, prev) == LastOr(g, prev) == Last(g)
      && (m in Elems(g) ==>
        LinkOf(h, par, prev, m) ==
        if m == p then LinkOf(g, par, prev, m).(first := First(j), last := Last(j)) else LinkOf(g, par, prev, m))
  {}

  // ---- move_out ----

  /** The part of move_out that closes the links around `source`. */
  method CloseAround(source: Node)
    requires source.parent != null
    requires source.parent.first_child == source <==> source.prev_sibling == null
    requires source.parent.last_child == source <==> source.next_sibling == null
    requires source !in Opt(source.prev_sibling) + Opt(source.next_sibling) + {source.parent}
    requires source.parent != source.prev_sibling && source.parent != source.next_sibling
    requires source.prev_sibling != null ==> source.prev_sibling != source.next_sibling
    modifies source.parent, Opt(source.prev_sibling), Opt(source.next_sibling)
    ensures forall m :: m in {source.parent} + Opt(source.prev_sibling) + Opt(source.next_sibling) ==>
      Fields(m) == old(Fields(m)).(
           first := if m == source.parent && source.prev_sibling == null then source.next_sibling
             else old(m.first_child),
           last := if m == source.parent && source.next_sibling == null then source.prev_sibling else old(m.last_child),
           prev := if m == source.next_sibling then source.prev_sibling else old(m.prev_sibling),
           next := if m == source.prev_sibling then source.next_sibling else old(m.next_sibling))
    ensures forall m :: m in {source.parent} + Opt(source.prev_sibling) + Opt(source.next_sibling) ==>
      m.data == old(m.data)
  {
    if source.prev_sibling != null {
      source.prev_sibling.next_sibling := source.next_sibling;
    }
    if source.next_sibling != null {
      source.next_sibling.prev_sibling := source.prev_sibling;
    }
    if source.parent.first_child == source {
      if source.next_sibling != null {
        source.parent.first_child := source.next_sibling;
      } else {
        source.parent.first_child := null;
      }
    }
    if source.parent.last_child == source {
      if source.prev_sibling != null {
        source.parent.last_child := source.prev_sibling;
      } else {
        source.parent.last_child := null;
      }
    }
  }

  /** The same, seen from all `nodes`. */
  method CloseFrom(source: Node, ghost f: Forest<Node>, ghost nodes: set<Node>)
    requires NoDup(f) && nodes == Elems(f) && source in nodes && Link(f, source).parent != null
    requires forall m :: m in nodes ==> Fields(m) == Link(f, m)
    modifies nodes - {source}
    ensures forall m :: m in nodes && m != source ==> Fields(m) == RemovedLink(Link(f, m), source, Link(f, source))
    ensures forall m :: m in nodes ==> m.data == old(m.data)
  {
    ghost var at := Link(f, source);
    Neighbours(f, source);
    LinkTriple(f, source, at.parent);
    hide Elems, NoDup, Link;
    CloseAround(source);
    forall m | m in nodes && m != source
      ensures Fields(m) == RemovedLink(Link(f, m), source, at)
    {
      LinkTriple(f, source, m);
    }
  }

  /** The pointer part of move_out: `source` leaves its siblings for a place
      between `head` and `feet`. */
  method DepartFrom(source: Node, head: Node, feet: Node, ghost f: Forest<Node>, ghost nodes: set<Node>)
    requires NoDup(f) && nodes == Elems(f) && source in nodes && Link(f, source).parent != null
    requires forall m :: m in nodes ==> Fields(m) == Link(f, m)
    requires head != feet && head !in nodes && feet !in nodes
    modifies nodes, head, feet
    ensures Fields(head) == old(Fields(head)).(next := source) && Fields(feet) == old(Fields(feet)).(prev := source)
    ensures Fields(source) == Link(f, source).(parent := null, prev := head, next := feet)
    ensures forall m :: m in nodes && m != source ==> Fields(m) == RemovedLink(Link(f, m), source, Link(f, source))
    ensures forall m :: m in nodes + {head, feet} ==> m.data == old(m.data)
  {
    hide Elems, NoDup, Link, RemovedLink;
    head.next_sibling := source;
    feet.prev_sibling := source;
    CloseFrom(source, f, nodes);
    source.parent := null;
    source.prev_sibling := head;
    source.next_sibling := feet;
  }

  lemma SingleInserted(head: Node, feet: Node, n: Node, k: Forest<Node>)
    requires head != feet
    ensures var e := Cons(head, Nil, Cons(feet, Nil, Nil));
      feet in Elems(e) && Inserted(e, feet, n, k) == Cons(head, Nil, Cons(n, k, Cons(feet, Nil, Nil)))
  {
    var end: Forest<Node> := Cons(feet, Nil, Nil);
    var e := Cons(head, Nil, end);
    assert feet in Elems(end);
    assert From(e, feet) == From(end, feet) == end;
    assert Replace(e, feet, Cons(n, k, end)) == Cons(head, Nil, Replace(end, feet, Cons(n, k, end)));
  }

  /** A tree with a single top-level node. */
  lemma SingleTree(f: Forest<Node>, n: Node, head: Node, feet: Node)
    requires NoDup(f) && n in Elems(f) && head != feet && head !in Elems(f) && feet !in Elems(f)
    ensures var k := From(f, n).kids;
      var h := Cons(head, Nil, Cons(n, k, Cons(feet, Nil, Nil)));
      && Framed(h, head, feet) && NoDup(h) && Elems(h) == {head, feet} + Sub(f, n)
      && Link(h, head) == Links(null, null, null, null, n) && Link(h, feet) == Links(null, null, null, n, null)
      && Link(h, n) == Links(null, Link(f, n).first, Link(f, n).last, head, feet)
      && (forall m :: m in Elems(k) ==> Link(h, m) == Link(f, m))
  {
    var k := From(f, n).kids;
    var e := Cons(head, Nil, Cons(feet, Nil, Nil));
    EmptyFramed(head, feet);
    LinkShape(f, null, null, n);
    SingleInserted(head, feet, n, k);
    hide Inserted;
    InsertedElems(e, feet, n, k);
    InsertedFramed(e, feet, n, k, head, feet);
    InsertedLinks(e, feet, n, k, head);
    InsertedLinks(e, feet, n, k, feet);
    InsertedLinks(e, feet, n, k, n);
    forall m | m in Elems(k)
      ensures Link(Inserted(e, feet, n, k), m) == Link(f, m)
    {
      InsertedLinks(e, feet, n, k, m);
      RemovedLinks(f, n, m);
    }
  }

  /** Nothing changes below a node that leaves. */
  lemma LeavesBelow(f: Forest<Node>, n: Node, m: Node)
    requires NoDup(f) && n in Elems(f) && m in Elems(From(f, n).kids)
    ensures m in Elems(f) && RemovedLink(Link(f, m), n, Link(f, n)) == Link(f, m)
  {
    LinkTriple(f, n, m);
    LinkTriple(f, m, n);
    ParentOutside(f, null, null, n);
    LinkShape(f, null, null, n);
  }

  /** The two trees after a node has left. */
  lemma PartedLinks(f: Forest<Node>, n: Node, head: Node, feet: Node, nodes: set<Node>)
    requires NoDup(f) && n in Elems(f) && nodes == Elems(f) && head != feet && head !in nodes && feet !in nodes
    requires Fields(n) == Link(f, n).(parent := null, prev := head, next := feet)
    requires Fields(head) == Links(null, null, null, null, n) && Fields(feet) == Links(null, null, null, n, null)
    requires forall m :: m in nodes && m != n ==> Fields(m) == RemovedLink(Link(f, m), n, Link(f, n))
    ensures var h := Cons(head, Nil, Cons(n, From(f, n).kids, Cons(feet, Nil, Nil)));
      && NoDup(h) && Framed(h, head, feet) && Elems(h) == {head, feet} + Sub(f, n)
      && forall m :: m in Elems(h) ==> Fields(m) == Link(h, m)
    ensures var h := Removed(f, n);
      && NoDup(h) && Elems(h) == nodes - Sub(f, n) && forall m :: m in Elems(h) ==> Fields(m) == Link(h, m)
  {
    var h := Cons(head, Nil, Cons(n, From(f, n).kids, Cons(feet, Nil, Nil)));
    SingleTree(f, n, head, feet);
    forall m | m in Elems(From(f, n).kids)
      ensures Fields(m) == Link(h, m)
    {
      LeavesBelow(f, n, m);
    }
    RemovedElems(f, n);
    forall m | m in nodes - Sub(f, n)
      ensures m in Elems(Removed(f, n)) && Fields(m) == Link(Removed(f, n), m)
    {
      RemovedLinks(f, n, m);
    }
  }

  /** move_out(source), for a node that is not at the top; `x` is the value of the
      new tree's dummies. */
  method MoveOut(t: Tree, source: Node, x: Value) returns (ret: Tree)
    requires t.Valid() && source in t.nodes && source.parent != null
    modifies t, t.nodes
    ensures t.Valid() && ret.Valid() && fresh(ret) && fresh(ret.head) && fresh(ret.feet)
    ensures t.head == old(t.head) && t.feet == old(t.feet)
    ensures t.all == Removed(old(t.all), source) && t.nodes == old(t.nodes) - Sub(old(t.all), source)
    ensures ret.all == Cons(ret.head, Nil, Cons(source, From(old(t.all), source).kids, Cons(ret.feet, Nil, Nil)))
    ensures ret.nodes == {ret.head, ret.feet} + Sub(old(t.all), source)
    ensures forall m :: m in old(t.nodes) ==> m.data == old(m.data)
  {
    ret := new Tree(x);
    EmptyLinks(ret);
    MoveTo(t, source, ret);
  }

  lemma EmptyLinks(t: Tree)
    requires t.Valid() && t.all == Cons(t.head, Nil, Cons(t.feet, Nil, Nil))
    ensures Fields(t.head) == Links(null, null, null, null, t.feet)
    ensures Fields(t.feet) == Links(null, null, null, t.head, null)
    ensures t.head != t.feet
  {
    EmptyFramed(t.head, t.feet);
  }

  /** The subtree of `source` becomes the only tree of the empty `ret`. */
  method MoveTo(t: Tree, source: Node, ret: Tree)
    requires t.Valid() && source in t.nodes && source.parent != null && ret != t
    requires Fields(ret.head) == Links(null, null, null, null, ret.feet)
    requires Fields(ret.feet) == Links(null, null, null, ret.head, null)
    requires ret.head != ret.feet && ret.head !in t.nodes && ret.feet !in t.nodes
    modifies t, t.nodes, ret`all, ret`nodes, ret.head, ret.feet
    ensures t.Valid() && ret.Valid() && t.head == old(t.head) && t.feet == old(t.feet)
    ensures t.all == Removed(old(t.all), source) && t.nodes == old(t.nodes) - Sub(old(t.all), source)
    ensures ret.all == Cons(ret.head, Nil, Cons(source, From(old(t.all), source).kids, Cons(ret.feet, Nil, Nil)))
    ensures ret.nodes == {ret.head, ret.feet} + Sub(old(t.all), source)
    ensures forall m :: m in old(t.nodes) ==> m.data == old(m.data)
  {
    ghost var was := t.all;
    FramedEnds(was, t.head, t.feet);
    RemovedFramed(was, source, t.head, t.feet);
    Unfold(t);
    hide *;
    DepartFrom(source, ret.head, ret.feet, was, t.nodes);
    PartedLinks(was, source, ret.head, ret.feet, t.nodes);
    Install(t, Removed(was, source), t.nodes - Sub(was, source));
    Install(ret, Cons(ret.head, Nil, Cons(source, From(was, source).kids, Cons(ret.feet, Nil, Nil))),
            {ret.head, ret.feet} + Sub(was, source));
  }

  // ---- move_in_as_nth_child ----

  /** How the nodes at the seams change: `fb` to `lb` come between `z` and `y`. */
  function HookedLink(o: Links, m: Node, p: Node, z: Node?, y: Node?, fb: Node, lb: Node): Links {
    Links(o.parent,
          if m == p && z == null then fb else o.first,
          if m == p && y == null then lb else o.last,
          if m == fb then z else if m == y then lb else o.prev,
          if m == lb then y else if m == z then fb else o.next)
  }

  /** In front of all children of `loc`. */
  method HookFirst(loc: Node, fb: Node, lb: Node)
    requires loc !in {fb, lb} + Opt(loc.first_child) && {fb, lb} !! Opt(loc.first_child)
    modifies loc, fb, lb, Opt(loc.first_child)
    ensures forall m :: m in {loc, fb, lb} + Opt(old(loc.first_child)) ==>
      Fields(m) == HookedLink(old(Fields(m)), m, loc, null, old(loc.first_child), fb, lb) && m.data == old(m.data)
  {
    if loc.first_child == null {
      loc.first_child := fb;
      loc.last_child := lb;
      lb.next_sibling := null;
      fb.prev_sibling := null;
    } else {
      loc.first_child.prev_sibling := lb;
      lb.next_sibling := loc.first_child;
      loc.first_child := fb;
      fb.prev_sibling := null;
    }
  }

  /** Behind the child `walk`. */
  method HookBehind(loc: Node, walk: Node, fb: Node, lb: Node)
    requires loc !in {fb, lb, walk} + Opt(walk.next_sibling) && walk !in {fb, lb} + Opt(walk.next_sibling)
    requires {fb, lb} !! Opt(walk.next_sibling)
    modifies loc, fb, lb, walk, Opt(walk.next_sibling)
    ensures forall m :: m in {loc, fb, lb, walk} + Opt(old(walk.next_sibling)) ==>
      Fields(m) == HookedLink(old(Fields(m)), m, loc, walk, old(walk.next_sibling), fb, lb) && m.data == old(m.data)
  {
    if walk.next_sibling == null {
      loc.last_child := lb;
    } else {
      walk.next_sibling.prev_sibling := lb;
    }
    lb.next_sibling := walk.next_sibling;
    walk.next_sibling := fb;
    fb.prev_sibling := walk;
  }

  /** The child behind which the tree goes: None is the range error. */
  method FindChild(first: Node?, n: nat, ghost k: Forest<Node>, ghost nodes: set<Node>) returns (r: Option<Node>)
    requires n > 0 && first == First(k) && Chained(k, nodes)
    ensures r == None <==> n > |Roots(k)|
    ensures r != None ==> r.value == Last(TakeTrees(k, n)) && r.value in nodes
    ensures r != None ==> r.value.next_sibling == First(DropTrees(k, n))
  {
    var left := n - 1;
    var walk := first;
    ghost var rest := k;
    while true
      invariant walk == First(rest) && Chained(rest, nodes) && left < n
      invariant n > |Roots(k)| <==> left + 1 > |Roots(rest)|
      invariant rest.Cons? ==>
        Last(TakeTrees(k, n)) == Last(TakeTrees(rest, left + 1)) && DropTrees(k, n) == DropTrees(rest, left + 1)
      decreases left
    {
      if walk == null {
        return None;
      }
      if left == 0 {
        assert TakeTrees(rest, 1) == Cons(rest.id, rest.kids, Nil) && DropTrees(rest, 1) == rest.right;
        return Some(walk);
      }
      TakeStep(rest, left + 1);
      left := left - 1;
      walk := walk.next_sibling;
      rest := rest.right;
    }
  }

  lemma TakeStep(k: Forest<Node>, n: nat)
    requires k.Cons? && n > 1
    ensures k.right.Cons? ==> Last(TakeTrees(k, n)) == Last(TakeTrees(k.right, n - 1))
    ensures DropTrees(k, n) == DropTrees(k.right, n - 1)
  {}

  /** The seam between two children of `p`. */
  lemma Seam(f: Forest<Node>, p: Node, n: nat)
    requires NoDup(f) && p in Elems(f)
    ensures var k := From(f, p).kids;
      var z, y := Last(TakeTrees(k, n)), First(DropTrees(k, n));
      && Opt(z) + Opt(y) <= Elems(k) && p !in Elems(k) && Elems(k) <= Elems(f) && (z != null ==> z != y)
      && (n == 0 ==> z == null && y == First(k))
  {
    var k := From(f, p).kids;
    TakeDrop(k, n);
    AppendedApart(TakeTrees(k, n), DropTrees(k, n));
    LastIn(TakeTrees(k, n));
    LastIn(DropTrees(k, n));
  }

  /** The seams of move_in_as_nth_child; false is the range error. */
  method Hook(loc: Node, n: nat, fb: Node, lb: Node, ghost f: Forest<Node>, ghost b: Forest<Node>,
              ghost nodes: set<Node>)
    returns (ok: bool)
    requires NoDup(f) && loc in Elems(f) && Elems(b) !! Elems(f) && fb in Elems(b) && lb in Elems(b)
    requires nodes == Elems(f) + Elems(b)
    requires forall m :: m in Elems(f) ==> Fields(m) == Link(f, m)
    modifies nodes
    ensures ok <==> n <= |Roots(From(f, loc).kids)|
    ensures !ok ==> unchanged(nodes)
    ensures ok ==> var k := From(f, loc).kids;
      forall m :: m in nodes ==>
        Fields(m) == HookedLink(old(Fields(m)), m, loc, Last(TakeTrees(k, n)), First(DropTrees(k, n)), fb, lb)
    ensures forall m :: m in nodes ==> m.data == old(m.data)
  {
    hide Elems, NoDup, Link, From, TakeTrees, DropTrees, Chained;
    ghost var k := From(f, loc).kids;
    Seam(f, loc, n);
    KidsChained(f, loc, Elems(f));
    if n == 0 {
      HookFirst(loc, fb, lb);
    } else {
      var walk := FindChild(loc.first_child, n, k, Elems(f));
      if walk == None {
        return false;
      }
      HookBehind(loc, walk.value, fb, lb);
    }
    ok := true;
  }

  /** A whole tree: its top-level list `b` between its dummies. */
  ghost predicate Whole(g: Forest<Node>, b: Forest<Node>, head: Node, feet: Node) {
    NoDup(g) && g == Cons(head, Nil, Append(b, Cons(feet, Nil, Nil))) && head != feet
  }

  lemma WholeParts(g: Forest<Node>, b: Forest<Node>, head: Node, feet: Node)
    requires Whole(g, b, head, feet)
    ensures NoDup(b) && Elems(g) == Elems(b) + {head, feet} && head !in Elems(b) && feet !in Elems(b)
    ensures b.Cons? ==>
      From(g, b.id) == Append(b, Cons(feet, Nil, Nil)) && Link(g, head).next == b.id && Last(b) in Elems(b)
    ensures Link(g, feet).prev == LastOr(b, head) && Link(g, head) == Links(null, null, null, null, Link(g, head).next)
    ensures Link(g, feet) == Links(null, null, null, Link(g, feet).prev, null)
  {
    var end: Forest<Node> := Cons(feet, Nil, Nil);
    assert Elems(end) == {feet};
    AppendedApart(b, end);
    AppendLinks(b, end, null, head, feet);
    LastIn(b);
  }

  /** The links of the nodes that come in. */
  lemma IncomingLinks(f: Forest<Node>, loc: Node, n: nat, b: Forest<Node>, g: Forest<Node>, head: Node, feet: Node,
                      m: Node)
    requires NoDup(f) && loc in Elems(f) && b.Cons? && Elems(b) !! Elems(f) && Whole(g, b, head, feet) && m in Elems(b)
    ensures m in Elems(g) && m in Elems(PutBelow(f, loc, n, b)) && Last(b) != null
    ensures var k := From(f, loc).kids;
      Link(PutBelow(f, loc, n, b), m) ==
      HookedLink(Link(g, m), m, loc, Last(TakeTrees(k, n)), First(DropTrees(k, n)), b.id, Last(b)).(
        parent := if m in Roots(b) then loc else Link(g, m).parent)
  {
    var k, end: Forest<Node> := From(f, loc).kids, Cons(feet, Nil, Nil);
    var z := Last(TakeTrees(k, n));
    WholeParts(g, b, head, feet);
    assert Elems(end) == {feet};
    Seam(f, loc, n);
    PutBelowLinks(f, loc, n, b, m);
    AppendLinks(b, end, null, head, m);
    assert Link(g, m) == LinkOf(Append(b, end), null, head, m);
    Rebordered(b, null, head, loc, z, m);
    FirstLast(b, null, head, m);
    LinkRange(b, null, head, m);
  }

  /** The links of the nodes that were there. */
  lemma ReceivingLinks(f: Forest<Node>, loc: Node, n: nat, b: Forest<Node>, m: Node)
    requires NoDup(f) && loc in Elems(f) && NoDup(b) && b.Cons? && Elems(b) !! Elems(f) && m in Elems(f)
    ensures m in Elems(PutBelow(f, loc, n, b)) && Last(b) != null && m !in Roots(b)
    ensures var k := From(f, loc).kids;
      Link(PutBelow(f, loc, n, b), m) ==
      HookedLink(Link(f, m), m, loc, Last(TakeTrees(k, n)), First(DropTrees(k, n)), b.id, Last(b))
  {
    PutBelowLinks(f, loc, n, b, m);
    LastIn(b);
    RootsIn(b);
  }

  lemma PutBelowFramed(f: Forest<Node>, p: Node, i: nat, b: Forest<Node>, head: Node, feet: Node)
    requires Framed(f, head, feet) && p in Elems(f) && p != head && p != feet && NoDup(b) && b.Cons?
    requires Elems(b) !! Elems(f)
    ensures Framed(PutBelow(f, p, i, b), head, feet)
  {
    var g := From(f, p);
    var k1, k2 := TakeTrees(g.kids, i), DropTrees(g.kids, i);
    var h := Cons(p, Append(k1, Append(b, k2)), g.right);
    TakeDrop(g.kids, i);
    SplicedElems(k1, b, k2);
    PutBelowElems(f, p, i, b);
    PutBelowLinks(f, p, i, b, feet);
    BelowHasParent(f, head, feet, p);
    FramedEnds(f, head, feet);
    FromReplace(f, p, h, feet);
    if feet in Elems(g) {
      FromFrom(f, p, feet);
    }
  }

  /** HookedLink for the `n`-th place below `loc` and the whole list `b`. */
  ghost function HookedIn(o: Links, m: Node, f: Forest<Node>, loc: Node, n: nat, b: Forest<Node>): Links
    requires loc in Elems(f) && b.Cons? && Last(b) != null
  {
    var k := From(f, loc).kids;
    HookedLink(o, m, loc, Last(TakeTrees(k, n)), First(DropTrees(k, n)), b.id, Last(b))
  }

  /** What comes in is linked as it was in its own tree. */
  ghost predicate Arriving(f: Forest<Node>, loc: Node, b: Forest<Node>, g: Forest<Node>, head: Node, feet: Node,
                           nodes: set<Node>) {
    && NoDup(f) && loc in Elems(f) && b.Cons? && Last(b) != null && Elems(b) !! Elems(f)
    && Whole(g, b, head, feet) && nodes == Elems(f) + Elems(b) && Elems(b) <= Elems(g)
  }

  /** The seams, and the new siblings still in a row. */
  method HookIn(loc: Node, n: nat, fb: Node, lb: Node, ghost f: Forest<Node>, ghost b: Forest<Node>,
                ghost g: Forest<Node>, ghost head: Node, ghost feet: Node, ghost nodes: set<Node>) returns (ok: bool)
    requires Arriving(f, loc, b, g, head, feet, nodes) && fb == b.id && lb == Last(b)
    requires forall m :: m in Elems(f) ==> Fields(m) == Link(f, m)
    requires forall m :: m in Elems(b) ==> Fields(m) == Link(g, m)
    modifies nodes
    ensures ok <==> n <= |Roots(From(f, loc).kids)|
    ensures !ok ==> unchanged(nodes)
    ensures ok ==> forall m :: m in Elems(f) ==> Fields(m) == HookedIn(Link(f, m), m, f, loc, n, b)
    ensures ok ==> forall m :: m in Elems(b) ==> Fields(m) == HookedIn(Link(g, m), m, f, loc, n, b)
    ensures ok ==> ChainedTo(b, First(DropTrees(From(f, loc).kids, n)), nodes)
    ensures forall m :: m in nodes ==> m.data == old(m.data)
  {
    WholeParts(g, b, head, feet);
    assert forall m :: m in nodes <==> m in Elems(f) || m in Elems(b);
    hide Elems, NoDup, Link, From, TakeTrees, DropTrees, Whole, HookedLink, Roots;
    ok := Hook(loc, n, fb, lb, f, b, nodes);
    if ok {
      HookedChain(f, loc, n, b, g, head, feet, nodes);
    }
  }

  lemma HookedChain(f: Forest<Node>, loc: Node, n: nat, b: Forest<Node>, g: Forest<Node>, head: Node, feet: Node,
                    nodes: set<Node>)
    requires Arriving(f, loc, b, g, head, feet, nodes)
    requires forall m :: m in Elems(b) ==> Fields(m) == HookedIn(Link(g, m), m, f, loc, n, b)
    ensures ChainedTo(b, First(DropTrees(From(f, loc).kids, n)), nodes)
  {
    WholeParts(g, b, head, feet);
    Seam(f, loc, n);
    ChainedStill(g, b, Cons(feet, Nil, Nil), First(DropTrees(From(f, loc).kids, n)), nodes);
  }

  /** The pointer part of move_in_as_nth_child. */
  lemma ArrivingRow(f: Forest<Node>, loc: Node, b: Forest<Node>, g: Forest<Node>, head: Node, feet: Node,
                    nodes: set<Node>)
    requires Arriving(f, loc, b, g, head, feet, nodes)
    ensures loc in Elems(f) && NoDup(b) && b.Cons? && Last(b) != null && nodes == Elems(f) + Elems(b)
    ensures Elems(b) <= Elems(g) && Elems(b) !! Elems(f)
  {
    WholeParts(g, b, head, feet);
  }

  method ComeIn(loc: Node, n: nat, fb: Node, lb: Node, ghost f: Forest<Node>, ghost b: Forest<Node>,
                ghost g: Forest<Node>, ghost head: Node, ghost feet: Node, ghost nodes: set<Node>) returns (ok: bool)
    requires Arriving(f, loc, b, g, head, feet, nodes) && fb == b.id && lb == Last(b)
    requires forall m :: m in Elems(f) ==> Fields(m) == Link(f, m)
    requires forall m :: m in Elems(b) ==> Fields(m) == Link(g, m)
    modifies nodes
    ensures ok <==> n <= |Roots(From(f, loc).kids)|
    ensures !ok ==> unchanged(nodes)
    ensures ok ==> forall m :: m in nodes ==>
      m in Elems(PutBelow(f, loc, n, b)) && Fields(m) == Link(PutBelow(f, loc, n, b), m)
    ensures forall m :: m in nodes ==> m.data == old(m.data)
  {
    hide Elems, NoDup, Arriving, Whole, PutBelow, Link, LinkOf, Roots, First, Last, From, TakeTrees, DropTrees,
      ChainedTo;
    ArrivingRow(f, loc, b, g, head, feet, nodes);
    ok := HookIn(loc, n, fb, lb, f, b, g, head, feet, nodes);
    if ok {
      AdoptRange(fb, lb, loc, b, First(DropTrees(From(f, loc).kids, n)), nodes);
      forall m | m in nodes
        ensures m in Elems(PutBelow(f, loc, n, b)) && Fields(m) == Link(PutBelow(f, loc, n, b), m)
      {
        LinkPutIn(f, loc, n, b, g, head, feet, nodes, m);
      }
    }
  }

  lemma LinkPutIn(f: Forest<Node>, loc: Node, n: nat, b: Forest<Node>, g: Forest<Node>, head: Node, feet: Node,
                  nodes: set<Node>, m: Node)
    requires Arriving(f, loc, b, g, head, feet, nodes) && m in nodes
    ensures m in Elems(PutBelow(f, loc, n, b)) && (m in Elems(f) || m in Elems(b))
    ensures m in Elems(f) ==> m !in Roots(b) && Link(PutBelow(f, loc, n, b), m) == HookedIn(Link(f, m), m, f, loc, n, b)
    ensures m in Elems(b) ==>
      Link(PutBelow(f, loc, n, b), m) ==
      HookedIn(Link(g, m), m, f, loc, n, b).(parent := if m in Roots(b) then loc else Link(g, m).parent)
  {
    WholeParts(g, b, head, feet);
    if m in Elems(f) {
      ReceivingLinks(f, loc, n, b, m);
    } else {
      IncomingLinks(f, loc, n, b, g, head, feet, m);
    }
  }

  /** Once the nodes are in: the donor is closed and both trees go on. */
  method Settle(t: Tree, other: Tree, ghost h: Forest<Node>, ghost nodes: set<Node>)
    requires other != t && {other.head, other.feet} !! nodes && other.head != other.feet
    requires nodes == Elems(h) && NoDup(h) && Framed(h, t.head, t.feet)
    requires forall m :: m in nodes ==> Fields(m) == Link(h, m)
    requires Fields(other.head) == Links(null, null, null, null, other.head.next_sibling)
    requires Fields(other.feet) == Links(null, null, null, other.feet.prev_sibling, null)
    modifies t`all, t`nodes, other`all, other`nodes, other.head, other.feet
    ensures t.Valid() && other.Valid() && t.all == h && t.nodes == nodes
    ensures other.all == Cons(other.head, Nil, Cons(other.feet, Nil, Nil)) && other.nodes == {other.head, other.feet}
    ensures forall m :: m in nodes + {other.head, other.feet} ==> m.data == old(m.data)
  {
    EmptyFramed(other.head, other.feet);
    hide *;
    other.head.next_sibling := other.feet;
    other.feet.prev_sibling := other.head;
    Install(t, h, nodes);
    Install(other, Cons(other.head, Nil, Cons(other.feet, Nil, Nil)), {other.head, other.feet});
  }

  /** move_in_as_nth_child; None is the range error. */
  method MoveInAsNthChild(t: Tree, loc: Node, n: nat, other: Tree) returns (r: Option<Node>)
    requires t.Valid() && other.Valid() && other != t && t.nodes !! other.nodes
    requires loc in t.nodes && loc != t.head && loc != t.feet
    modifies t, t.nodes, other, other.nodes
    ensures t.Valid() && other.Valid()
    ensures t.head == old(t.head) && t.feet == old(t.feet) && other.head == old(other.head)
    ensures other.feet == old(other.feet)
    ensures var b := old(Body(other.all));
      if b == Nil then r == Some(loc) && t.all == old(t.all) && other.all == old(other.all)
      else if n > |Roots(From(old(t.all), loc).kids)| then r == None && t.all == old(t.all) &&
        other.all == old(other.all)
      else
        && r == Some(b.id) && t.all == PutBelow(old(t.all), loc, n, b) && t.nodes == old(t.nodes) + Elems(b)
        && other.all == Cons(other.head, Nil, Cons(other.feet, Nil, Nil)) && other.nodes == {other.head, other.feet}
    ensures var b, k := old(Body(other.all)), Roots(From(old(t.all), loc).kids);
      b != Nil && n <= |k| ==> loc in t.nodes && Roots(From(t.all, loc).kids) == k[..n] + Roots(b) + k[n..]
    ensures forall m :: m in old(t.nodes) + old(other.nodes) ==> m.data == old(m.data)
  {
    BodyWhole(other);
    if other.head.next_sibling == other.feet {
      return Some(loc);
    }
    ghost var f, b := t.all, Body(other.all);
    if n <= |Roots(From(f, loc).kids)| {
      BodyNodes(other);
      PutBelowRoots(f, loc, n, b);
    }
    hide *;
    r := MoveInTrees(t, loc, n, other);
  }

  lemma BodyNodes(t: Tree)
    requires t.Valid() && t.all.Cons?
    ensures NoDup(Body(t.all)) && Elems(Body(t.all)) <= t.nodes
  {
    BodyWhole(t);
    AppendedApart(Body(t.all), Cons(t.feet, Nil, Nil));
  }

  method MoveInTrees(t: Tree, loc: Node, n: nat, other: Tree) returns (r: Option<Node>)
    requires t.Valid() && other.Valid() && other != t && t.nodes !! other.nodes && other.all.Cons?
    requires Body(other.all).Cons?
    requires loc in t.nodes && loc != t.head && loc != t.feet
    modifies t, t.nodes, other, other.nodes
    ensures t.Valid() && other.Valid()
    ensures t.head == old(t.head) && t.feet == old(t.feet) && other.head == old(other.head)
    ensures other.feet == old(other.feet)
    ensures if n > |Roots(From(old(t.all), loc).kids)| then r == None && t.all == old(t.all) &&
      other.all == old(other.all)
      else
        && r == Some(old(Body(other.all)).id) && t.all == PutBelow(old(t.all), loc, n, old(Body(other.all)))
        && t.nodes == old(t.nodes) + Elems(old(Body(other.all)))
        && other.all == Cons(other.head, Nil, Cons(other.feet, Nil, Nil)) && other.nodes == {other.head, other.feet}
    ensures forall m :: m in old(t.nodes) + old(other.nodes) ==> m.data == old(m.data)
  {
    hide *;
    ghost var f, g, b, h, e := t.all, other.all, Body(other.all), other.head, other.feet;
    ghost var nodes := t.nodes + Elems(b);
    BeforeMoveIn(t, loc, n, other, f, b, g, nodes);
    var fb, lb := other.head.next_sibling, other.feet.prev_sibling;
    var ok := ComeIn(loc, n, fb, lb, f, b, g, h, e, nodes);
    if ok {
      Settle(t, other, PutBelow(f, loc, n, b), nodes);
      r := Some(fb);
    } else {
      Fold(t);
      Fold(other);
      r := None;
    }
  }

  lemma BeforeMoveIn(t: Tree, loc: Node, n: nat, other: Tree, f: Forest<Node>, b: Forest<Node>, g: Forest<Node>,
                     nodes: set<Node>)
    requires t.Valid() && other.Valid() && t.nodes !! other.nodes && loc in t.nodes && loc != t.head && loc != t.feet
    requires f == t.all && g == other.all && g.Cons? && b == Body(g) && b.Cons? && nodes == t.nodes + Elems(b)
    ensures Arriving(f, loc, b, g, other.head, other.feet, nodes)
    ensures other.head.next_sibling == b.id && other.feet.prev_sibling == Last(b)
    ensures t.nodes == Elems(f) && NoDup(f) && Framed(f, t.head, t.feet)
    ensures forall m :: m in t.nodes ==> Fields(m) == Link(f, m)
    ensures other.nodes == Elems(g) && NoDup(g) && Framed(g, other.head, other.feet)
    ensures forall m :: m in other.nodes ==> Fields(m) == Link(g, m)
    ensures Elems(b) <= other.nodes && {other.head, other.feet} <= other.nodes && {other.head, other.feet} !! nodes
    ensures other.head != other.feet
    ensures Fields(other.head) == Links(null, null, null, null, other.head.next_sibling)
    ensures Fields(other.feet) == Links(null, null, null, other.feet.prev_sibling, null)
    ensures var h := PutBelow(f, loc, n, b); NoDup(h) && Elems(h) == nodes && Framed(h, t.head, t.feet)
  {
    BodyWhole(other);
    WholeParts(g, b, other.head, other.feet);
    PutBelowElems(f, loc, n, b);
    PutBelowFramed(f, loc, n, b, t.head, t.feet);
  }

  lemma BodyWhole(t: Tree)
    requires t.Valid()
    ensures t.all.Cons? && t.all.right.Cons? && Whole(t.all, Body(t.all), t.head, t.feet)
    ensures t.head.next_sibling == t.feet <==> Body(t.all) == Nil
  {
    FramedShape(t.all, t.head, t.feet);
    WholeParts(t.all, Body(t.all), t.head, t.feet);
  }

  // ---- index, and out and back in ----

  lemma {:induction false} IndexPrev(k: Forest<Node>, par: Node?, prev: Node?, m: Node)
    requires NoDup(k) && m in Roots(k) && par !in Elems(k) && prev !in Elems(k)
    ensures m in Elems(k)
    ensures var v := LinkOf(k, par, prev, m).prev;
      if IndexOf(k, m) == 0 then v == prev else v != prev && v in Roots(k) && IndexOf(k, m) == IndexOf(k, v) + 1
  {
    RootsIn(k);
    if k.id != m {
      RootsIn(k.right);
      IndexPrev(k.right, par, k.id, m);
    }
  }

  /** The siblings of a node, the parent they share and what is before the first. */
  ghost predicate Siblings(f: Forest<Node>, k: Forest<Node>, par: Node?, prev: Node?) {
    && NoDup(k) && Elems(k) <= Elems(f) && par !in Elems(k) && prev !in Elems(k)
    && forall m :: m in Elems(k) ==> Link(f, m) == LinkOf(k, par, prev, m)
  }

  /** The loop of index: how many siblings there are before `it`. */
  method CountBefore(it: Node, stop: Node?, ghost f: Forest<Node>, ghost k: Forest<Node>, ghost par: Node?)
    returns (ind: nat)
    requires Linked(f) && Siblings(f, k, par, stop) && it in Roots(k)
    ensures ind == IndexOf(k, it)
  {
    ind := 0;
    var node := it;
    hide *;
    PrevAmong(f, k, par, stop, node);
    while node.prev_sibling != stop
      invariant Linked(f) && node in Roots(k) && ind + IndexOf(k, node) == IndexOf(k, it)
      invariant node.prev_sibling == stop <==> IndexOf(k, node) == 0
      decreases IndexOf(k, node)
    {
      PrevAmong(f, k, par, stop, node);
      node := node.prev_sibling;
      ind := ind + 1;
      PrevAmong(f, k, par, stop, node);
    }
  }

  lemma PrevAmong(f: Forest<Node>, k: Forest<Node>, par: Node?, stop: Node?, n: Node)
    requires Linked(f) && Siblings(f, k, par, stop) && n in Roots(k)
    ensures if IndexOf(k, n) == 0 then n.prev_sibling == stop
      else n.prev_sibling != stop && n.prev_sibling in Roots(k) && IndexOf(k, n) == IndexOf(k, n.prev_sibling) + 1
  {
    RootsIn(k);
    IndexPrev(k, par, stop, n);
  }

  /** index(it): the number among its siblings, at the top without the dummies. */
  method Index(t: Tree, it: Node) returns (ind: nat)
    requires t.Valid() && it in t.nodes && it != t.head && it != t.feet
    ensures it.parent != null ==>
      it.parent in t.nodes && it in Roots(From(t.all, it.parent).kids) &&
        ind == IndexOf(From(t.all, it.parent).kids, it)
    ensures it.parent == null ==> it in Roots(Body(t.all)) && ind == IndexOf(Body(t.all), it)
    ensures var q := Roots(if it.parent == null then Body(t.all) else From(t.all, it.parent).kids);
      ind < |q| && q[ind] == it
  {
    if it.parent == null {
      TopSiblings(t, it);
      ind := CountBefore(it, t.head, t.all, t.all.right, null);
      IndexAt(Body(t.all), it);
    } else {
      ChildSiblings(t.all, it.parent, it);
      ind := CountBefore(it, null, t.all, From(t.all, it.parent).kids, it.parent);
      IndexAt(From(t.all, it.parent).kids, it);
    }
  }

  lemma ChildSiblings(f: Forest<Node>, p: Node, n: Node)
    requires NoDup(f) && n in Elems(f) && Link(f, n).parent == p
    ensures p in Elems(f) && n in Roots(From(f, p).kids) && Siblings(f, From(f, p).kids, p, null)
  {
    LinkRange(f, null, null, n);
    ChildrenAre(f, null, null, p, n);
    forall m | m in Elems(From(f, p).kids)
      ensures Link(f, m) == LinkOf(From(f, p).kids, p, null, m)
    {
      RemovedLinks(f, p, m);
    }
  }

  lemma TopSiblings(t: Tree, n: Node)
    requires t.Valid() && n in t.nodes && n != t.head && n != t.feet && n.parent == null
    ensures Siblings(t.all, t.all.right, null, t.head) && n in Roots(t.all.right)
    ensures n in Roots(Body(t.all)) && IndexOf(Body(t.all), n) == IndexOf(t.all.right, n)
  {
    FramedShape(t.all, t.head, t.feet);
    Rebordered(t.all.right, null, t.head, null, t.head, n);
    IndexAppend(Body(t.all), Cons(t.feet, Nil, Nil), n);
  }

  lemma {:induction false} IndexAppend<A>(b: Forest<A>, e: Forest<A>, n: A)
    requires n in Roots(Append(b, e)) && n !in Roots(e)
    ensures n in Roots(b) && IndexOf(b, n) == IndexOf(Append(b, e), n)
  {
    if b.Cons? && b.id != n {
      IndexAppend(b.right, e, n);
    }
  }

  /** A node that is moved out and back in at its index is where it was. */
  method MoveOutAndBack(t: Tree, n: Node, x: Value) returns (donor: Tree)
    requires t.Valid() && n in t.nodes && n.parent != null
    modifies t, t.nodes
    ensures t.Valid() && t.all == old(t.all) && t.nodes == old(t.nodes)
    ensures donor.Valid() && donor.all == Cons(donor.head, Nil, Cons(donor.feet, Nil, Nil))
    ensures forall m :: m in t.nodes ==> m.data == old(m.data)
  {
    hide *;
    ghost var f := t.all;
    var p := n.parent;
    AwayAndBack(t, p, n);
    var i := Index(t, n);
    donor := MoveOut(t, n, x);
    SingleBody(donor, n, From(f, n).kids);
    var _ := MoveInAsNthChild(t, p, i, donor);
  }

  lemma AwayAndBack(t: Tree, p: Node, n: Node)
    requires t.Valid() && n in t.nodes && n.parent == p
    ensures n != t.head && n != t.feet && p != t.head && p != t.feet && p in t.nodes && t.nodes == Elems(t.all)
    ensures n in Elems(t.all)
    ensures n in Roots(From(t.all, p).kids) && p !in Sub(t.all, n) && Sub(t.all, n) <= t.nodes
    ensures var i, f1 := IndexOf(From(t.all, p).kids, n), Removed(t.all, n);
      && p in Elems(f1) && i <= |Roots(From(f1, p).kids)|
      && PutBelow(f1, p, i, Cons(n, From(t.all, n).kids, Nil)) == t.all
    ensures Elems(Cons(n, From(t.all, n).kids, Nil)) == Sub(t.all, n)
  {
    FramedEnds(t.all, t.head, t.feet);
    ChildSiblings(t.all, p, n);
    PutBack(t.all, p, n);
    RemovedElems(t.all, n);
    RootsIn(From(t.all, p).kids);
  }

  lemma SingleBody(t: Tree, n: Node, k: Forest<Node>)
    requires t.Valid() && t.all == Cons(t.head, Nil, Cons(n, k, Cons(t.feet, Nil, Nil)))
    ensures t.all.Cons? && Body(t.all) == Cons(n, k, Nil)
  {
    assert DropLast(Cons(t.feet, Nil, Nil)) == Nil;
  }
}
