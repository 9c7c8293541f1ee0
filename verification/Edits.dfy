/** Edits of a linked forest and what each of them does to the links of a node. */
module TreeEdits {
  import opened Forests
  import opened TreeLinks
  import opened TreeSurgery

  /** Links in a sibling list made of two parts. */
  lemma {:induction false} AppendLinks(k: Forest<Node>, h: Forest<Node>, par: Node?, prev: Node?, m: Node)
    requires NoDup(k) && NoDup(h) && Elems(k) !! Elems(h) && par !in Elems(k)
    requires m in Elems(k) + Elems(h)
    ensures NoDup(Append(k, h))
    ensures LinkOf(Append(k, h), par, prev, m) ==
      if m in Elems(h) then LinkOf(h, par, LastOr(k, prev), m)
      else
        var o := LinkOf(k, par, prev, m);
        if o.parent == par && o.next == null then o.(next := First(h)) else o
  {
    if k.Cons? {
      if m in Elems(k.right) + Elems(h) {
        AppendLinks(k.right, h, par, k.id, m);
      } else {
        AppendNoDup(k.right, h);
        if m in Elems(k.kids) {
          LinkRange(k.kids, k.id, null, m);
        }
      }
    }
  }

  lemma {:induction false} AppendNoDup<A>(k: Forest<A>, h: Forest<A>)
    requires NoDup(k) && NoDup(h) && Elems(k) !! Elems(h)
    ensures NoDup(Append(k, h))
  {
    if k.Cons? {
      AppendNoDup(k.right, h);
    }
  }

  lemma {:induction false} AppendedApart<A>(s: Forest<A>, r: Forest<A>)
    requires NoDup(Append(s, r))
    ensures NoDup(s) && NoDup(r) && Elems(s) !! Elems(r)
  {
    if s.Cons? {
      AppendedApart(s.right, r);
    }
  }

  lemma {:induction false} RootsAppend<A>(f: Forest<A>, g: Forest<A>)
    ensures Roots(Append(f, g)) == Roots(f) + Roots(g)
  {
    if f.Cons? {
      RootsAppend(f.right, g);
    }
  }

  lemma LastAppend(k: Forest<Node>, h: Forest<Node>)
    ensures Last(Append(k, h)) == LastOr(h, Last(k))
    ensures First(Append(k, h)) == if k.Nil? then First(h) else First(k)
  {}

  /** Making the list `h` the last children of `p`. */
  ghost function Appended<A>(f: Forest<A>, p: A, h: Forest<A>): Forest<A>
    requires p in Elems(f)
  {
    var g := From(f, p);
    Replace(f, p, Cons(p, Append(g.kids, h), g.right))
  }

  function AppendedLink(o: Links, m: Node, p: Node, last: Node?, h: Forest<Node>): Links {
    Links(o.parent,
          if m == p && o.first == null then First(h) else o.first,
          if m == p then LastOr(h, o.last) else o.last,
          o.prev,
          if m == last then First(h) else o.next)
  }

  lemma AppendedElems(f: Forest<Node>, p: Node, h: Forest<Node>)
    requires NoDup(f) && p in Elems(f) && NoDup(h) && Elems(f) !! Elems(h)
    ensures NoDup(Appended(f, p, h)) && Elems(Appended(f, p, h)) == Elems(f) + Elems(h)
  {
    var g := From(f, p);
    AppendNoDup(g.kids, h);
    ReplaceElems(f, p, Cons(p, Append(g.kids, h), g.right));
  }

  lemma AppendedLinks(f: Forest<Node>, p: Node, h: Forest<Node>, m: Node)
    requires NoDup(f) && p in Elems(f) && NoDup(h) && Elems(f) !! Elems(h)
    requires m in Elems(f) + Elems(h)
    ensures m in Elems(Appended(f, p, h))
    ensures Link(Appended(f, p, h), m) ==
      if m in Elems(h) then LinkOf(h, p, Link(f, p).last, m)
      else AppendedLink(Link(f, m), m, p, Link(f, p).last, h)
  {
    var at, g := Link(f, p), From(f, p);
    var n := Cons(p, Append(g.kids, h), g.right);
    AppendNoDup(g.kids, h);
    AppendedElems(f, p, h);
    ReplaceLinks(f, p, n, m);
    LinkShape(f, null, null, p);
    LastIn(g.kids);
    LastIn(g.right);
    if m in Elems(g.kids) + Elems(h) {
      AppendLinks(g.kids, h, p, null, m);
      if m in Elems(g.kids) {
        FromLinks(f, null, null, p, m);
        LinkRange(g.kids, p, null, m);
        FirstLast(g.kids, p, null, m);
      }
    } else if m in Elems(g) {
      FromLinks(f, null, null, p, m);
      LastAppend(g.kids, h);
    } else {
      if m == at.parent { ParentLast(f, p); }
      LinksAgree(f, null, null, p, m);
    }
  }

  /** The nodes of the subtree of `n`. */
  ghost function Sub<A>(f: Forest<A>, n: A): (s: set<A>)
    requires n in Elems(f)
    ensures s <= Elems(f)
  {
    {n} + Elems(From(f, n).kids)
  }

  /** Taking out `n` and everything below it. */
  ghost function Removed<A>(f: Forest<A>, n: A): Forest<A>
    requires n in Elems(f)
  {
    Replace(f, n, From(f, n).right)
  }

  function RemovedLink(o: Links, n: Node, at: Links): Links {
    Links(o.parent,
          if o.first == n then at.next else o.first,
          if o.last == n then at.prev else o.last,
          if o.prev == n then at.prev else o.prev,
          if o.next == n then at.next else o.next)
  }

  lemma RemovedElems<A>(f: Forest<A>, n: A)
    requires NoDup(f) && n in Elems(f)
    ensures NoDup(Removed(f, n)) && Elems(Removed(f, n)) == Elems(f) - Sub(f, n)
  {
    ReplaceElems(f, n, From(f, n).right);
  }

  lemma RemovedLinks(f: Forest<Node>, n: Node, m: Node)
    requires NoDup(f) && n in Elems(f) && m in Elems(f)
    ensures m !in Sub(f, n) ==>
      m in Elems(Removed(f, n)) && Link(Removed(f, n), m) == RemovedLink(Link(f, m), n, Link(f, n))
    ensures m in Elems(From(f, n).kids) ==> Link(f, m) == LinkOf(From(f, n).kids, n, null, m)
  {
    if m in Elems(From(f, n)) {
      FromLinks(f, null, null, n, m);
    }
    if m !in Sub(f, n) {
      RemovedElems(f, n);
      LinkShape(f, null, null, n);
      LinksAgree(f, null, null, n, m);
      LinksAgree(f, null, null, m, n);
      ReplaceLinks(f, n, From(f, n).right, m);
      if m in Elems(From(f, n)) {
        RemovedLinksRight(f, n, m);
      } else {
        RemovedLinksLeft(f, n, m);
      }
    }
  }

  lemma RemovedLinksRight(f: Forest<Node>, n: Node, m: Node)
    requires NoDup(f) && n in Elems(f) && m in Elems(From(f, n).right)
    ensures LinkOf(From(f, n).right, Link(f, n).parent, Link(f, n).prev, m) == RemovedLink(Link(f, m), n, Link(f, n))
  {
    hide Replace;
    var at, g := Link(f, n), From(f, n);
    FromLinks(f, null, null, n, m);
    LinkShape(f, null, null, n);
    LinksAgree(f, null, null, n, m);
    LinksAgree(f, null, null, m, n);
    PrevShift(g.right, at.parent, n, at.prev, m);
    LinkRange(g.right, at.parent, n, m);
    ParentOutside(f, null, null, n);
  }

  lemma RemovedLinksLeft(f: Forest<Node>, n: Node, m: Node)
    requires NoDup(f) && n in Elems(f) && m in Elems(f) && m !in Elems(From(f, n))
    ensures Adjusted(Link(f, m), Link(f, n), n, From(f, n).right, m) == RemovedLink(Link(f, m), n, Link(f, n))
  {
    hide Replace;
    LinkShape(f, null, null, n);
    LinksAgree(f, null, null, n, m);
    LinksAgree(f, null, null, m, n);
    if m == Link(f, n).parent {
      ParentLast(f, n);
    }
  }

  /** A different left border only shows at the first root. */
  lemma PrevShift(f: Forest<Node>, par: Node?, v: Node?, w: Node?, m: Node)
    requires m in Elems(f)
    ensures LinkOf(f, par, w, m) ==
      if m == f.id then LinkOf(f, par, v, m).(prev := w) else LinkOf(f, par, v, m)
  {}

  /** Putting `x` with children `k` right after `n`. */
  ghost function InsertedAfter<A>(f: Forest<A>, n: A, x: A, k: Forest<A>): Forest<A>
    requires n in Elems(f)
  {
    var g := From(f, n);
    Replace(f, n, Cons(n, g.kids, Cons(x, k, g.right)))
  }

  function InsertedAfterLink(o: Links, m: Node, n: Node, at: Links, x: Node): Links {
    Links(o.parent,
          o.first,
          if m == at.parent && at.next == null then x else o.last,
          if m == at.next then x else o.prev,
          if m == n then x else o.next)
  }

  lemma InsertedAfterElems<A>(f: Forest<A>, n: A, x: A, k: Forest<A>)
    requires NoDup(f) && n in Elems(f) && NoDup(k) && x !in Elems(f) + Elems(k) && Elems(k) !! Elems(f)
    ensures NoDup(InsertedAfter(f, n, x, k)) && Elems(InsertedAfter(f, n, x, k)) == Elems(f) + {x} + Elems(k)
  {
    var g := From(f, n);
    ReplaceElems(f, n, Cons(n, g.kids, Cons(x, k, g.right)));
  }

  lemma InsertedAfterLinks(f: Forest<Node>, n: Node, x: Node, k: Forest<Node>, m: Node)
    requires NoDup(f) && n in Elems(f) && NoDup(k) && x !in Elems(f) + Elems(k) && Elems(k) !! Elems(f)
    requires m in Elems(f) + {x} + Elems(k)
    ensures m in Elems(InsertedAfter(f, n, x, k))
    ensures var at := Link(f, n);
      Link(InsertedAfter(f, n, x, k), m) ==
      if m == x then Links(at.parent, First(k), Last(k), n, at.next)
      else if m in Elems(k) then LinkOf(k, x, null, m)
      else InsertedAfterLink(Link(f, m), m, n, at, x)
  {
    var at, g := Link(f, n), From(f, n);
    var h := Cons(n, g.kids, Cons(x, k, g.right));
    InsertedAfterElems(f, n, x, k);
    ReplaceLinks(f, n, h, m);
    LinkShape(f, null, null, n);
    if m in Elems(g.right) {
      InsertedAfterRight(f, n, x, k, m);
    } else if m in Elems(f) && m !in Elems(g) {
      InsertedAfterLeft(f, n, x, k, m);
    } else if m in Elems(g) {
      FromLinks(f, null, null, n, m);
      ParentOutside(f, null, null, n);
    }
  }

  lemma InsertedAfterRight(f: Forest<Node>, n: Node, x: Node, k: Forest<Node>, m: Node)
    requires NoDup(f) && n in Elems(f) && m in Elems(From(f, n).right)
    ensures LinkOf(From(f, n).right, Link(f, n).parent, x, m) == InsertedAfterLink(Link(f, m), m, n, Link(f, n), x)
  {
    hide Replace;
    var at, g := Link(f, n), From(f, n);
    FromLinks(f, null, null, n, m);
    LinkShape(f, null, null, n);
    LinksAgree(f, null, null, n, m);
    LinksAgree(f, null, null, m, n);
    PrevShift(g.right, at.parent, n, x, m);
    LinkRange(g.right, at.parent, n, m);
    ParentOutside(f, null, null, n);
  }

  lemma InsertedAfterLeft(f: Forest<Node>, n: Node, x: Node, k: Forest<Node>, m: Node)
    requires NoDup(f) && n in Elems(f) && m in Elems(f) && m !in Elems(From(f, n))
    ensures var g := From(f, n);
      Adjusted(Link(f, m), Link(f, n), n, Cons(n, g.kids, Cons(x, k, g.right)), m) ==
      InsertedAfterLink(Link(f, m), m, n, Link(f, n), x)
  {
    hide Replace;
    LinkShape(f, null, null, n);
    LinksAgree(f, null, null, n, m);
    LinksAgree(f, null, null, m, n);
    if m == Link(f, n).parent {
      ParentLast(f, n);
    }
    var r := From(f, n).right;
    assert Last(Cons(x, k, r)) == LastOr(r, x);
  }

  lemma LeafAppended(f: Forest<Node>, p: Node, x: Node, head: Node, feet: Node)
    requires Framed(f, head, feet) && p in Elems(f) && p != head && p != feet && x !in Elems(f)
    ensures var h := Appended(f, p, Cons(x, Nil, Nil));
      && Framed(h, head, feet) && NoDup(h)
      && Elems(h) == Elems(f) + {x}
      && Link(h, x) == Links(p, null, null, Link(f, p).last, null)
      && forall m :: m in Elems(f) ==>
        Link(h, m) == AppendedLink(Link(f, m), m, p, Link(f, p).last, Cons(x, Nil, Nil))
    ensures Link(f, p).first == null <==> Link(f, p).last == null
  {
    var leaf: Forest<Node> := Cons(x, Nil, Nil);
    assert Elems(leaf) == {x};
    AppendedElems(f, p, leaf);
    AppendedFramed(f, p, leaf, head, feet);
    forall m | m in Elems(f) + {x}
      ensures Link(Appended(f, p, leaf), m) ==
        if m in Elems(leaf) then LinkOf(leaf, p, Link(f, p).last, m)
        else AppendedLink(Link(f, m), m, p, Link(f, p).last, leaf)
    {
      AppendedLinks(f, p, leaf, m);
    }
    LinkShape(f, null, null, p);
    LastIn(From(f, p).kids);
  }

  lemma AppendedFramed(f: Forest<Node>, p: Node, h: Forest<Node>, head: Node, feet: Node)
    requires Framed(f, head, feet) && p in Elems(f) && p != head && p != feet
    requires NoDup(h) && Elems(f) !! Elems(h)
    ensures Framed(Appended(f, p, h), head, feet)
  {
    var g := From(f, p);
    var n := Cons(p, Append(g.kids, h), g.right);
    AppendNoDup(g.kids, h);
    AppendedElems(f, p, h);
    AppendedLinks(f, p, h, feet);
    FromReplace(f, p, n, feet);
    FramedEnds(f, head, feet);
    if feet in Elems(g) {
      FromFrom(f, p, feet);
      BelowHasParent(f, head, feet, p);
    }
  }

  /** Nodes below a node have a parent, unlike the two dummies. */
  lemma BelowHasParent(f: Forest<Node>, head: Node, feet: Node, n: Node)
    requires Framed(f, head, feet) && n in Elems(f)
    ensures head !in Elems(From(f, n).kids) && feet !in Elems(From(f, n).kids)
  {
    FramedEnds(f, head, feet);
    forall m | m in Elems(From(f, n).kids)
      ensures Link(f, m).parent != null
    {
      FromLinks(f, null, null, n, m);
      LinkRange(From(f, n).kids, n, null, m);
    }
  }

  ghost function MovedAfter<A>(f: Forest<A>, dst: A, src: A): Forest<A>
    requires NoDup(f) && dst in Elems(f) && src in Elems(f) && dst !in Sub(f, src)
  {
    RemovedElems(f, src);
    InsertedAfter(Removed(f, src), dst, src, From(f, src).kids)
  }

  /** Only the dummies lack both a parent and a neighbour on one side. */
  lemma InnerNode(f: Forest<Node>, head: Node, feet: Node, n: Node)
    requires Framed(f, head, feet) && n in Elems(f)
    ensures n != head && Link(f, n).prev == null ==> Link(f, n).parent != null
    ensures n != feet && Link(f, n).next == null ==> Link(f, n).parent != null
  {
    FramedEnds(f, head, feet);
    FirstLast(f, null, null, n);
    FirstLast(f, null, null, feet);
  }

  /** Taking out the second node of a list. */
  lemma NextRemoved<A>(f: Forest<A>, n: A)
    requires NoDup(f) && f.Cons? && f.right.Cons? && n == f.right.id
    ensures n in Elems(f) && n != f.id && From(f, n) == f.right
    ensures Removed(f, n) == Cons(f.id, f.kids, f.right.right)
  {
    var g, r := f.right, f.right.right;
    assert From(g, n) == g && Replace(g, n, r) == r;
  }

  /** Moving a node to where it already is changes nothing. */
  lemma {:induction false} MoveInPlace(f: Forest<Node>, par: Node?, prev: Node?, dst: Node, src: Node)
    requires NoDup(f) && dst in Elems(f) && src in Elems(f) && LinkOf(f, par, prev, dst).next == src
    ensures dst !in Sub(f, src)
    ensures MovedAfter(f, dst, src) == f
  {
    RemovedElems(f, src);
    if f.id == dst {
      NextRemoved(f, src);
    } else if dst in Elems(f.kids) {
      LinkRange(f.kids, f.id, null, dst);
      RemovedElems(f.kids, src);
      MoveInPlace(f.kids, f.id, null, dst, src);
    } else {
      LinkRange(f.right, par, f.id, dst);
      RemovedElems(f.right, src);
      MoveInPlace(f.right, par, f.id, dst, src);
    }
  }

  function MovedAfterLink(o: Links, m: Node, dst: Node, src: Node, at: Links, to: Links): Links {
    InsertedAfterLink(RemovedLink(o, src, at), m, dst, to, src)
  }

  /** The list after a move: `to` are the links of the target once `src` is out. */
  lemma MovedAfterTree(f: Forest<Node>, dst: Node, src: Node, head: Node, feet: Node)
    requires Framed(f, head, feet)
    requires dst in Elems(f) && dst != feet && src in Elems(f) && src != head && src != feet && dst !in Sub(f, src)
    ensures var at, h := Link(f, src), MovedAfter(f, dst, src);
      var to := RemovedLink(Link(f, dst), src, at);
      && Framed(h, head, feet) && NoDup(h) && Elems(h) == Elems(f) && dst != src
      && (to.next == null ==> to.parent != null) && Opt(to.next) + Opt(to.parent) <= Elems(f) - {src, dst}
      && (to.parent != null ==> to.parent != to.next)
  {
    var f1, k := Removed(f, src), From(f, src).kids;
    RemovedElems(f, src);
    RemovedLinks(f, src, dst);
    RemovedFramed(f, src, head, feet);
    InnerNode(f1, head, feet, dst);
    InsertedAfterElems(f1, dst, src, k);
    InsertedAfterFramed(f1, dst, src, k, head, feet);
    Neighbours(f1, dst);
  }

  lemma MovedAfterAt(f: Forest<Node>, dst: Node, src: Node, m: Node)
    requires NoDup(f) && dst in Elems(f) && src in Elems(f) && dst !in Sub(f, src) && m in Elems(f)
    ensures m in Elems(MovedAfter(f, dst, src))
    ensures var at := Link(f, src);
      var to := RemovedLink(Link(f, dst), src, at);
      Link(MovedAfter(f, dst, src), m) ==
        if m == src then Links(to.parent, at.first, at.last, dst, to.next)
        else MovedAfterLink(Link(f, m), m, dst, src, at, to)
  {
    var f1, k := Removed(f, src), From(f, src).kids;
    RemovedElems(f, src);
    RemovedLinks(f, src, dst);
    LinkShape(f, null, null, src);
    RemovedLinks(f, src, m);
    InsertedAfterLinks(f1, dst, src, k, m);
    if m in Elems(k) {
      LinkRange(k, src, null, m);
      LinkIn(f1, dst);
    }
  }

  lemma LinkIn(f: Forest<Node>, n: Node)
    requires n in Elems(f)
    ensures var o := Link(f, n);
      Opt(o.parent) + Opt(o.first) + Opt(o.last) + Opt(o.prev) + Opt(o.next) <= Elems(f)
  {
    LinkRange(f, null, null, n);
  }

  /** Everything the removal of a subtree has to establish. */
  lemma RemovedTree(f: Forest<Node>, n: Node, head: Node, feet: Node)
    requires Framed(f, head, feet) && n in Elems(f) && n != head && n != feet
    ensures var h := Removed(f, n);
      && Framed(h, head, feet) && NoDup(h) && Elems(h) == Elems(f) - Sub(f, n) && {head, feet} <= Elems(h)
      && (forall m :: m in Elems(f) - Sub(f, n) ==> Link(h, m) == RemovedLink(Link(f, m), n, Link(f, n)))
    ensures n !in Opt(Link(f, n).parent) + Opt(Link(f, n).prev) + Opt(Link(f, n).next)
    ensures Opt(Link(f, n).parent) + Opt(Link(f, n).prev) + Opt(Link(f, n).next) <= Elems(f) - Sub(f, n)
    ensures var o := Link(f, n);
      && (o.parent != null ==> o.parent != o.prev && o.parent != o.next)
      && (o.prev != null ==> o.prev != o.next)
      && (o.prev == null || o.next == null ==> o.parent != null)
  {
    RemovedElems(f, n);
    RemovedFramed(f, n, head, feet);
    FramedEnds(Removed(f, n), head, feet);
    Neighbours(f, n);
    ParentOutside(f, null, null, n);
    LinkShape(f, null, null, n);
    InnerNode(f, head, feet, n);
    forall m | m in Elems(f) - Sub(f, n)
      ensures Link(Removed(f, n), m) == RemovedLink(Link(f, m), n, Link(f, n))
    {
      RemovedLinks(f, n, m);
    }
  }

  lemma RemovedFramed(f: Forest<Node>, n: Node, head: Node, feet: Node)
    requires Framed(f, head, feet) && n in Elems(f) && n != head && n != feet
    ensures Framed(Removed(f, n), head, feet)
  {
    RemovedElems(f, n);
    BelowHasParent(f, head, feet, n);
    RemovedLinks(f, n, feet);
    FramedEnds(f, head, feet);
    FromReplace(f, n, From(f, n).right, feet);
    if feet in Elems(From(f, n)) {
      FromFrom(f, n, feet);
    }
  }

  lemma InsertedAfterFramed(f: Forest<Node>, n: Node, x: Node, k: Forest<Node>, head: Node, feet: Node)
    requires Framed(f, head, feet) && n in Elems(f) && n != feet
    requires NoDup(k) && x !in Elems(f) + Elems(k) && Elems(k) !! Elems(f)
    ensures Framed(InsertedAfter(f, n, x, k), head, feet)
  {
    var g := From(f, n);
    InsertedAfterElems(f, n, x, k);
    InsertedAfterLinks(f, n, x, k, feet);
    FramedEnds(f, head, feet);
    BelowHasParent(f, head, feet, n);
    FromReplace(f, n, Cons(n, g.kids, Cons(x, k, g.right)), feet);
    if feet in Elems(g) {
      FromFrom(f, n, feet);
    }
  }

  /** Unlink and LinkAfter seen from all `nodes` of a tree. */
  method TakeOut(src: Node, ghost f: Forest<Node>, ghost nodes: set<Node>, ghost head: Node, ghost feet: Node)
    requires Framed(f, head, feet) && NoDup(f) && nodes == Elems(f) && src in nodes && src != head && src != feet
    requires forall m :: m in nodes ==> Fields(m) == Link(f, m)
    modifies nodes - {src}
    ensures forall m :: m in nodes && m != src ==> Fields(m) == RemovedLink(Link(f, m), src, Link(f, src))
    ensures forall m :: m in nodes ==> m.data == old(m.data)
  {
    ghost var at := Link(f, src);
    Neighbours(f, src);
    InnerNode(f, head, feet, src);
    hide Elems, NoDup, Framed, Link;
    Unlink(src);
    forall m | m in nodes && m != src
      ensures Fields(m) == RemovedLink(Link(f, m), src, at)
    {
      LinkTriple(f, src, m);
    }
  }

  lemma LinkTriple(f: Forest<Node>, n: Node, m: Node)
    requires NoDup(f) && n in Elems(f) && m in Elems(f)
    ensures var a, o := Link(f, n), Link(f, m);
      && (o.next == n <==> a.prev == m) && (a.next == m <==> o.prev == n)
      && (o.first == n <==> a.parent == m && a.prev == null)
      && (o.last == n <==> a.parent == m && a.next == null)
  {
    LinksAgree(f, null, null, n, m);
    LinksAgree(f, null, null, m, n);
  }

  method PutAfter(dst: Node, src: Node, ghost nodes: set<Node>)
    requires dst.next_sibling == null ==> dst.parent != null
    requires {dst, src} + Opt(dst.next_sibling) + Opt(dst.parent) <= nodes
    requires src != dst && src !in Opt(dst.next_sibling) + Opt(dst.parent)
    requires dst !in Opt(dst.next_sibling) + Opt(dst.parent)
    requires dst.parent != null ==> dst.parent != dst.next_sibling
    modifies nodes
    ensures dst.next_sibling == src
    ensures Fields(src) == old(Links(dst.parent, src.first_child, src.last_child, dst, dst.next_sibling))
    ensures forall m :: m in nodes && m != src ==>
      Fields(m) == InsertedAfterLink(old(Fields(m)), m, dst, old(Fields(dst)), src)
    ensures forall m :: m in nodes ==> m.data == old(m.data)
  {
    LinkAfter(dst, src);
  }

  /** Putting the childless `x` in the place of `n` and everything below it. */
  ghost function Substituted<A>(f: Forest<A>, n: A, x: A): Forest<A>
    requires n in Elems(f)
  {
    Replace(f, n, Cons(x, Nil, From(f, n).right))
  }

  function SubstitutedLink(o: Links, n: Node, x: Node): Links {
    Links(o.parent,
          if o.first == n then x else o.first,
          if o.last == n then x else o.last,
          if o.prev == n then x else o.prev,
          if o.next == n then x else o.next)
  }

  lemma SubstitutedElems<A>(f: Forest<A>, n: A, x: A)
    requires NoDup(f) && n in Elems(f) && x !in Elems(f)
    ensures NoDup(Substituted(f, n, x)) && Elems(Substituted(f, n, x)) == Elems(f) - Sub(f, n) + {x}
  {
    ReplaceElems(f, n, Cons(x, Nil, From(f, n).right));
  }

  lemma SubstitutedLinks(f: Forest<Node>, n: Node, x: Node, m: Node)
    requires NoDup(f) && n in Elems(f) && x !in Elems(f) && m in Elems(f) - Sub(f, n) + {x}
    ensures m in Elems(Substituted(f, n, x))
    ensures var at := Link(f, n);
      Link(Substituted(f, n, x), m) ==
      if m == x then Links(at.parent, null, null, at.prev, at.next) else SubstitutedLink(Link(f, m), n, x)
  {
    var at, g := Link(f, n), From(f, n);
    SubstitutedElems(f, n, x);
    ReplaceLinks(f, n, Cons(x, Nil, g.right), m);
    LinkShape(f, null, null, n);
    if m in Elems(g.right) {
      SubstitutedRight(f, n, x, m);
    } else if m != x {
      LinkTriple(f, n, m);
      if m == at.parent {
        ParentLast(f, n);
      }
    }
  }

  lemma SubstitutedRight(f: Forest<Node>, n: Node, x: Node, m: Node)
    requires NoDup(f) && n in Elems(f) && m in Elems(From(f, n).right)
    ensures LinkOf(From(f, n).right, Link(f, n).parent, x, m) == SubstitutedLink(Link(f, m), n, x)
  {
    hide Replace;
    var at, g := Link(f, n), From(f, n);
    FromLinks(f, null, null, n, m);
    LinkShape(f, null, null, n);
    LinkTriple(f, n, m);
    PrevShift(g.right, at.parent, n, x, m);
    LinkRange(g.right, at.parent, n, m);
  }

  /** Everything that step of replace has to establish. */
  lemma SubstitutedTree(f: Forest<Node>, n: Node, x: Node, head: Node, feet: Node)
    requires Framed(f, head, feet) && n in Elems(f) && n != head && n != feet && x !in Elems(f)
    ensures var h := Substituted(f, n, x);
      && Framed(h, head, feet) && NoDup(h) && Elems(h) == Elems(f) - Sub(f, n) + {x}
      && From(h, x) == Cons(x, Nil, From(f, n).right)
      && {head, feet} <= Elems(h)
      && Link(h, x) == Links(Link(f, n).parent, null, null, Link(f, n).prev, Link(f, n).next)
      && (forall m :: m in Elems(f) - Sub(f, n) ==> Link(h, m) == SubstitutedLink(Link(f, m), n, x))
  {
    var g := Cons(x, Nil, From(f, n).right);
    SubstitutedElems(f, n, x);
    forall m | m in Elems(f) - Sub(f, n) + {x}
      ensures Link(Substituted(f, n, x), m) ==
        if m == x then Links(Link(f, n).parent, null, null, Link(f, n).prev, Link(f, n).next)
        else SubstitutedLink(Link(f, m), n, x)
    {
      SubstitutedLinks(f, n, x, m);
    }
    FromReplace(f, n, g, x);
    FramedEnds(f, head, feet);
    BelowHasParent(f, head, feet, n);
    FromReplace(f, n, g, feet);
    if feet in Elems(From(f, n)) {
      FromFrom(f, n, feet);
    }
  }
}
