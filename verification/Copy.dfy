/** Replacing a subtree by a copy of another one. */
module TreeCopy {
  import opened Forests
  import opened TreeLinks
  import opened Traversals
  import opened TreeEdits
  import opened TreePrefix
  import opened TreeSurgery
  import opened TreeCompare
  import opened Trees
  import opened TreeErase

  /** The copy in progress: the target list `base` with the childless `tmp`, the
      children `source` of `from`, those `seen` so far and their copies. */
  datatype CopyState = CopyState(base: Forest<Node>, tmp: Node, from: Node, source: Forest<Node>,
                                 seen: Forest<Node>, cpy: map<Node, Node>)

  ghost predicate CopyShape(c: CopyState, all: Forest<Node>) {
    && NoDup(c.base) && c.tmp in Elems(c.base) && From(c.base, c.tmp).kids == Nil
    && NoDup(c.source) && c.from !in Elems(c.source)
    && NoDup(c.seen) && Elems(c.seen) <= Elems(c.source)
    && c.cpy.Keys == {c.from} + Elems(c.seen) && Injective(c.cpy) && c.cpy[c.from] == c.tmp
    && c.cpy.Values !! {c.from} + Elems(c.source)
    && c.cpy.Values * Elems(c.base) == {c.tmp}
    && all == Replace(c.base, c.tmp, Cons(c.tmp, Image(c.seen, c.cpy), From(c.base, c.tmp).right))
  }

  ghost function GrownState(c: CopyState, p: Node, n: Node, r: Node): CopyState
    requires p == c.from || p in Elems(c.seen)
  {
    c.(seen := Grown(c.from, c.seen, p, n), cpy := c.cpy[n := r])
  }

  lemma ReplaceReplace<A>(f: Forest<A>, n: A, g: Forest<A>, m: A, h: Forest<A>)
    requires NoDup(f) && n in Elems(f) && m in Elems(g)
    requires NoDup(g) && Elems(g) !! Elems(f) - Elems(From(f, n))
    ensures m in Elems(Replace(f, n, g))
    ensures Replace(Replace(f, n, g), m, h) == Replace(f, n, Replace(g, m, h))
  {
    ReplaceElems(f, n, g);
    if f.id == n {
    } else if n in Elems(f.kids) {
      ReplaceReplace(f.kids, n, g, m, h);
      ReplaceElems(f.kids, n, g);
    } else {
      ReplaceReplace(f.right, n, g, m, h);
      ReplaceElems(f.right, n, g);
    }
  }

  /** Growing inside a replaced part. */
  lemma AppendedInside<A>(f: Forest<A>, n: A, g: Forest<A>, m: A, h: Forest<A>)
    requires NoDup(f) && n in Elems(f) && m in Elems(g)
    requires NoDup(g) && Elems(g) !! Elems(f) - Elems(From(f, n))
    ensures m in Elems(Replace(f, n, g))
    ensures Appended(Replace(f, n, g), m, h) == Replace(f, n, Appended(g, m, h))
  {
    FromReplace(f, n, g, m);
    var e := From(g, m);
    ReplaceReplace(f, n, g, m, Cons(m, Append(e.kids, h), e.right));
  }

  lemma {:induction false} FromAppendKids<A>(k: Forest<A>, h: Forest<A>, n: A)
    requires n in Elems(k)
    ensures From(Append(k, h), n).kids == From(k, n).kids
  {
    if k.id != n && n !in Elems(k.kids) {
      FromAppendKids(k.right, h, n);
    }
  }

  /** Appending elsewhere keeps the children of `n`. */
  lemma KidsAppended(f: Forest<Node>, n: Node, q: Node, h: Forest<Node>)
    requires NoDup(f) && n in Elems(f) && q in Elems(f) && q !in Sub(f, n) && NoDup(h) && Elems(f) !! Elems(h)
    ensures n in Elems(Appended(f, q, h)) && From(Appended(f, q, h), n).kids == From(f, n).kids
  {
    var e := From(f, q);
    var g := Cons(q, Append(e.kids, h), e.right);
    AppendNoDup(e.kids, h);
    FromReplace(f, q, g, n);
    if n in Elems(e) {
      FromFrom(f, q, n);
      if n in Elems(e.kids) {
        FromAppendKids(e.kids, h, n);
      } else if n != q {
        assert n in Elems(e.right);
      }
    }
  }

  lemma GrownImage(c: CopyState, p: Node, n: Node, r: Node)
    requires NoDup(c.seen) && c.cpy.Keys == {c.from} + Elems(c.seen) && Injective(c.cpy)
    requires p == c.from || p in Elems(c.seen)
    requires c.from !in Elems(c.seen) && n != c.from && n !in Elems(c.seen) && r !in c.cpy.Values
    ensures var d, q, k := GrownState(c, p, n, r), c.cpy[p], Image(c.seen, c.cpy);
      && NoDup(d.seen) && Elems(d.seen) == Elems(c.seen) + {n} && Injective(d.cpy)
      && (p != c.from ==> q in Elems(k))
      && Image(d.seen, d.cpy) == if p == c.from then Append(k, Leaf(r)) else Appended(k, q, Leaf(r))
  {
    var d := GrownState(c, p, n, r);
    assert Elems(Leaf(n)) == {n};
    assert Injective(d.cpy) by {
      forall x, y | x in d.cpy && y in d.cpy && d.cpy[x] == d.cpy[y]
        ensures x == y
      {
        assert x != n ==> d.cpy[x] in c.cpy.Values;
        assert y != n ==> d.cpy[y] in c.cpy.Values;
      }
    }
    ImageExtend(c.seen, c.cpy, n, r);
    if p == c.from {
      AppendNoDup(c.seen, Leaf(n));
      ImageAppend(c.seen, Leaf(n), d.cpy);
    } else {
      AppendedElems(c.seen, p, Leaf(n));
      ImageAppended(c.seen, p, n, d.cpy);
    }
  }

  lemma GrownReplace(c: CopyState, all: Forest<Node>, p: Node, n: Node, r: Node)
    requires CopyShape(c, all)
    requires p == c.from || p in Elems(c.seen)
    requires n in Elems(c.source) && n !in Elems(c.seen) && r !in c.cpy.Values
    ensures var d := GrownState(c, p, n, r);
      && c.cpy[p] in Elems(all)
      && Elems(d.seen) <= d.cpy.Keys
      && Appended(all, c.cpy[p], Leaf(r)) ==
         Replace(c.base, c.tmp, Cons(c.tmp, Image(d.seen, d.cpy), From(c.base, c.tmp).right))
  {
    var q, right := c.cpy[p], From(c.base, c.tmp).right;
    var g := Cons(c.tmp, Image(c.seen, c.cpy), right);
    GrownImage(c, p, n, r);
    ImageOutside(c);
    hide Elems, NoDup, Image;
    ConsElems(g);
    AppendedInside(c.base, c.tmp, g, q, Leaf(r));
    AppendedHere(g, q, Leaf(r));
  }

  lemma ConsElems<A>(f: Forest<A>)
    requires f.Cons?
    ensures Elems(f) == {f.id} + Elems(f.kids) + Elems(f.right)
    ensures NoDup(f) ==> f.id !in Elems(f.kids)
  {}

  lemma AppendedHere<A>(g: Forest<A>, q: A, h: Forest<A>)
    requires g.Cons? && (q == g.id || q in Elems(g.kids)) && g.id !in Elems(g.kids)
    ensures q in Elems(g)
    ensures Appended(g, q, h) ==
      Cons(g.id, if q == g.id then Append(g.kids, h) else Appended(g.kids, q, h), g.right)
  {}

  lemma GrownShape(c: CopyState, all: Forest<Node>, p: Node, n: Node, r: Node)
    requires CopyShape(c, all)
    requires p == c.from || p in Elems(c.seen)
    requires n in Elems(c.source) && n !in Elems(c.seen)
    requires r !in c.cpy.Values && r !in {c.from} + Elems(c.source) + Elems(c.base)
    ensures c.cpy[p] in Elems(all)
    ensures CopyShape(GrownState(c, p, n, r), Appended(all, c.cpy[p], Leaf(r)))
  {
    hide Elems, NoDup, Image, Appended, Replace, From, Grown, Injective;
    GrownReplace(c, all, p, n, r);
    GrownImage(c, p, n, r);
    ValuesUpdate(c.cpy, n, r);
  }

  lemma ValuesUpdate<A, B>(m: map<A, B>, k: A, v: B)
    requires k !in m
    ensures m[k := v].Values == m.Values + {v}
  {
    var u := m[k := v];
    assert forall x :: x in m ==> u[x] == m[x];
    assert u[k] == v;
    forall y | y in m.Values
      ensures y in u.Values
    {
      var x :| x in m && m[x] == y;
      assert u[x] == y;
    }
  }

  /** The copies are not among the nodes of the target list around them. */
  lemma ImageOutside(c: CopyState)
    requires NoDup(c.base) && c.tmp in Elems(c.base) && From(c.base, c.tmp).kids == Nil
    requires NoDup(c.seen) && c.from !in Elems(c.seen)
    requires c.cpy.Keys == {c.from} + Elems(c.seen) && Injective(c.cpy) && c.cpy[c.from] == c.tmp
    requires c.cpy.Values * Elems(c.base) == {c.tmp}
    ensures var g := Cons(c.tmp, Image(c.seen, c.cpy), From(c.base, c.tmp).right);
      NoDup(g) && Elems(g) !! Elems(c.base) - Elems(From(c.base, c.tmp))
  {
    ImageElems(c.seen, c.cpy);
  }

  ghost predicate Copying(t: Tree, u: Tree, c: CopyState)
    reads t, t.nodes, u, u.nodes
  {
    && t.Valid() && u.Valid() && (u == t || u.nodes !! t.nodes)
    && CopyShape(c, t.all)
    && c.from in u.nodes && From(u.all, c.from).kids == c.source
    && Elems(c.base) <= t.nodes && c.cpy.Values <= t.nodes && t.head !in c.cpy.Values && t.feet !in c.cpy.Values
    && (forall m :: m in c.cpy ==> m in u.nodes && c.cpy[m].data == m.data)
  }

  /** What a state of the copy says about its next step. */
  lemma CopyStep(t: Tree, u: Tree, c: CopyState, p: Node, n: Node)
    requires Copying(t, u, c)
    requires (p == c.from || p in Elems(c.seen)) && n in Elems(c.source) && n !in Elems(c.seen)
    ensures p in c.cpy && n !in c.cpy && n in u.nodes
    ensures var q := c.cpy[p];
      && q in t.nodes && q != t.head && q != t.feet && q !in Sub(u.all, c.from)
    ensures t.Valid() && u.Valid() && (u == t || u.nodes !! t.nodes)
    ensures c.from in u.nodes && From(u.all, c.from).kids == c.source && {t.head, t.feet} !! c.cpy.Values
    ensures CopyShape(c, t.all) && Elems(c.source) <= u.nodes && Elems(c.base) <= t.nodes && c.cpy.Values <= t.nodes
    ensures forall m :: m in c.cpy ==> m in u.nodes && c.cpy[m].data == m.data
  {
    KidsIn(u.all, c.from);
    assert c.cpy[p] in c.cpy.Values;
  }

  lemma GrownAll(c: CopyState, all: Forest<Node>, p: Node, n: Node, r: Node)
    requires CopyShape(c, all) && (p == c.from || p in Elems(c.seen))
    requires n in Elems(c.source) && n !in Elems(c.seen) && n !in c.cpy
    requires r !in c.cpy.Values && r !in {c.from} + Elems(c.source) + Elems(c.base)
    ensures var d := GrownState(c, p, n, r);
      && p in c.cpy && c.cpy[p] in Elems(all) && CopyShape(d, Appended(all, c.cpy[p], Leaf(r)))
      && d.cpy == c.cpy[n := r] && d.cpy.Values == c.cpy.Values + {r}
      && d.from == c.from && d.source == c.source && d.base == c.base
  {
    hide From, Replace, Appended, Image, Grown;
    GrownShape(c, all, p, n, r);
    ValuesUpdate(c.cpy, n, r);
  }

  /** append_child away from the subtree of `from`, which it does not disturb. */
  method AppendApart(t: Tree, u: Tree, from: Node, toit: Node, x: Value) returns (r: Node)
    requires t.Valid() && u.Valid() && (u == t || u.nodes !! t.nodes)
    requires toit in t.nodes && toit != t.head && toit != t.feet && from in u.nodes && toit !in Sub(u.all, from)
    requires u == t ==> Link(t.all, toit).last != from
    modifies t, t.nodes
    ensures t.Valid() && u.Valid() && (u == t || u.nodes !! t.nodes)
    ensures t.all == Appended(old(t.all), toit, Leaf(r)) && t.nodes == old(t.nodes) + {r} && fresh(r) && r.data == x
    ensures t.head == old(t.head) && t.feet == old(t.feet)
    ensures u.nodes == old(u.nodes) + (if u == t then {r} else {})
    ensures from in Elems(u.all) && From(u.all, from).kids == old(From(u.all, from).kids)
    ensures from.next_sibling == old(from.next_sibling)
    ensures forall m :: m in old(t.nodes) + old(u.nodes) ==> m.data == old(m.data)
  {
    ghost var was := t.all;
    assert toit in Elems(was) && NoDup(was) && (u == t ==> from.next_sibling == Link(was, from).next);
    hide Elems, NoDup, Appended, Replace, From, Framed, Sub, Tree.Valid, Link;
    r := t.AppendChild(toit, x);
    if u == t {
      LeafElems(r);
      KidsAppended(was, from, toit, Leaf(r));
      NextAppended(t, was, toit, r, from);
    }
  }

  /** One append of the copy loop: node `n` of the source gets its copy below
      the copy of `p`. */
  method GrowCopy(t: Tree, u: Tree, ghost c: CopyState, ghost p: Node, from: Node, toit: Node, n: Node)
    returns (r: Node, ghost d: CopyState)
    requires Copying(t, u, c) && from == c.from
    requires (p == c.from || p in Elems(c.seen)) && toit == c.cpy[p]
    requires n in Elems(c.source) && n !in Elems(c.seen)
    modifies t, t.nodes
    ensures Copying(t, u, d) && d == GrownState(c, p, n, r) && fresh(r)
    ensures t.head == old(t.head) && t.feet == old(t.feet) && t.nodes == old(t.nodes) + {r}
    ensures from.next_sibling == old(from.next_sibling)
    ensures forall m :: m in old(t.nodes) ==> m.data == old(m.data)
  {
    hide Copying, Elems, NoDup, Image, Appended, Replace, From, Grown, Injective, CopyShape, Framed, Sub, GrownState,
      Tree.Valid, Link;
    CopyStep(t, u, c, p, n);
    ValueIn(c.cpy, p);
    NextKept(t, u, c, toit);
    ghost var was := t.all;
    r := AppendApart(t, u, from, toit, n.data);
    d := GrownState(c, p, n, r);
    GrownAll(c, was, p, n, r);
    forall m | m in d.cpy
      ensures m in u.nodes && d.cpy[m].data == m.data
    {
      if m != n {
        ValueIn(c.cpy, m);
      }
    }
    CopyingAgain(t, u, d);
  }

  lemma ValueIn<A, B>(m: map<A, B>, k: A)
    requires k in m
    ensures m[k] in m.Values
  {}

  lemma CopyingAgain(t: Tree, u: Tree, c: CopyState)
    requires t.Valid() && u.Valid() && (u == t || u.nodes !! t.nodes)
    requires CopyShape(c, t.all)
    requires c.from in u.nodes && From(u.all, c.from).kids == c.source
    requires Elems(c.base) <= t.nodes && c.cpy.Values <= t.nodes && t.head !in c.cpy.Values && t.feet !in c.cpy.Values
    requires forall m :: m in c.cpy ==> m in u.nodes && c.cpy[m].data == m.data
    ensures Copying(t, u, c)
  {}

  /** Children of copies are copies. */
  lemma NextKept(t: Tree, u: Tree, c: CopyState, q: Node)
    requires Copying(t, u, c) && q in c.cpy.Values
    ensures q in t.nodes && q in Elems(t.all) && Link(t.all, q).last != c.from
    ensures u == t ==> c.from.next_sibling == Link(t.all, c.from).next
  {
    var g := Cons(c.tmp, Image(c.seen, c.cpy), From(c.base, c.tmp).right);
    ImageElems(c.seen, c.cpy);
    ImageOutside(c);
    assert q in Elems(g) && (q == c.tmp || q in Elems(g.kids)) by {
      var n :| n in c.cpy && c.cpy[n] == q;
    }
    FromReplace(c.base, c.tmp, g, q);
    assert Elems(From(t.all, q).kids) <= c.cpy.Values;
    LinkShape(t.all, null, null, q);
    LastIn(From(t.all, q).kids);
  }

  lemma NextAppended(t: Tree, was: Forest<Node>, q: Node, r: Node, from: Node)
    requires t.Valid() && NoDup(was) && q in Elems(was) && from in Elems(was) && r !in Elems(was)
    requires t.all == Appended(was, q, Leaf(r)) && Link(was, q).last != from
    ensures from in t.nodes && from.next_sibling == Link(was, from).next
  {
    LeafElems(r);
    AppendedLinks(was, q, Leaf(r), from);
  }

  lemma LeafElems<A>(r: A)
    ensures Elems(Leaf(r)) == {r} && NoDup(Leaf(r))
  {}

  /** The walk over the source stands at `cur` and has just seen it. */
  ghost predicate SeenUpto(c: CopyState, cur: Node) {
    if cur == c.from then c.seen == Nil else cur in Elems(c.source) && c.seen == Upto(c.source, cur)
  }

  /** Everything below `p` is seen. */
  ghost predicate SeenThrough(c: CopyState, p: Node) {
    if p == c.from then c.seen == c.source else p in Elems(c.source) && c.seen == Through(c.source, p)
  }

  /** The links of a node below `from` stay below it or lead back up to it. */
  lemma SourceLinks(f: Forest<Node>, from: Node, m: Node)
    requires NoDup(f) && from in Elems(f) && m in Elems(From(f, from).kids)
    ensures m in Elems(f) && m != from && From(From(f, from).kids, m) == From(f, m)
    ensures var o, g := Link(f, m), From(f, m);
      && o.first == First(g.kids) && o.next == First(g.right)
      && o.parent == Par(From(f, from).kids, from, m)
      && (o.next == null || o.next != Link(f, from).next)
  {
    var k := From(f, from).kids;
    FromLinks(f, null, null, from, m);
    FromFrom(f, from, m);
    LinkShape(f, null, null, m);
    LinkShape(f, null, null, from);
    LinkPar(k, from, null, m);
    LinkRange(k, from, null, m);
  }

  lemma CopyDown(f: Forest<Node>, c: CopyState, cur: Node)
    requires NoDup(f) && c.from in Elems(f) && From(f, c.from).kids == c.source && NoDup(c.source)
    requires c.from !in Elems(c.source)
    requires SeenUpto(c, cur) && cur in Elems(f) && Link(f, cur).first != null
    ensures var d := Link(f, cur).first;
      && (cur == c.from || cur in Elems(c.seen)) && d in Elems(c.source) && d !in Elems(c.seen)
      && Upto(c.source, d) == Grown(c.from, c.seen, cur, d)
  {
    var d := Link(f, cur).first;
    LinkShape(f, null, null, cur);
    if cur == c.from {
      assert d == c.source.id && Upto(c.source, d) == Leaf<Node>(d) == Append(Nil, Leaf<Node>(d));
    } else {
      SourceLinks(f, c.from, cur);
      UptoElems(c.source, cur);
      UptoDown(c.source, cur);
    }
  }

  lemma CopyLeaf(f: Forest<Node>, c: CopyState, cur: Node)
    requires NoDup(f) && c.from in Elems(f) && From(f, c.from).kids == c.source && NoDup(c.source)
    requires SeenUpto(c, cur) && cur in Elems(f) && Link(f, cur).first == null
    ensures SeenThrough(c, cur)
  {
    LinkShape(f, null, null, cur);
    if cur != c.from {
      SourceLinks(f, c.from, cur);
      UptoLeaf(c.source, cur);
    }
  }

  /** Climbing in the source and in the copy goes in step. */
  lemma CopyUp(f: Forest<Node>, all: Forest<Node>, c: CopyState, p: Node)
    requires NoDup(f) && c.from in Elems(f) && From(f, c.from).kids == c.source
    requires CopyShape(c, all) && NoDup(all) && SeenThrough(c, p) && p != c.from
    ensures p in Elems(f) && p in c.cpy && c.cpy[p] in Elems(all)
    ensures var q := Link(f, p).parent;
      && q != null && q in c.cpy && q in Elems(f) && (q == c.from || q in Elems(c.seen)) &&
        Depth(f, p) == Depth(f, q) + 1
      && Link(all, c.cpy[p]).parent == c.cpy[q]
      && (Link(f, p).next == null ==> SeenThrough(c, q))
  {
    var q := Par(c.source, c.from, p);
    SourceLinks(f, c.from, p);
    UptoElems(c.source, p);
    ThroughPar(c.source, c.from, p, p);
    DepthParent(f, null, null, p);
    ParIn(c.source, c.from, p);
    ParIn(c.seen, c.from, p);
    if Link(f, p).next == null {
      ThroughUp(c.source, c.from, p);
    }
    CopyParent(all, c, p);
  }

  lemma CopyParent(all: Forest<Node>, c: CopyState, p: Node)
    requires CopyShape(c, all) && p in Elems(c.seen)
    ensures c.cpy[p] in Elems(all) && Par(c.seen, c.from, p) in c.cpy
    ensures Link(all, c.cpy[p]).parent == c.cpy[Par(c.seen, c.from, p)]
  {
    var k := Image(c.seen, c.cpy);
    var g := Cons(c.tmp, k, From(c.base, c.tmp).right);
    ImageOutside(c);
    ImagePar(c.seen, c.from, p, c.cpy);
    ReplaceLinksInside(c.base, null, null, c.tmp, g, c.cpy[p]);
    LinkPar(k, c.tmp, null, c.cpy[p]);
    assert c.cpy[p] != c.tmp;
  }

  lemma CopyNext(f: Forest<Node>, c: CopyState, p: Node)
    requires NoDup(f) && c.from in Elems(f) && From(f, c.from).kids == c.source && NoDup(c.source)
    requires c.from !in Elems(c.source)
    requires SeenThrough(c, p) && p != c.from && p in Elems(f) && Link(f, p).next != null
    ensures var s, q := Link(f, p).next, Link(f, p).parent;
      && q != null && s in Elems(c.source) && s !in Elems(c.seen) && (q == c.from || q in Elems(c.seen))
      && s != Link(f, c.from).next
      && Upto(c.source, s) == Grown(c.from, c.seen, q, s)
  {
    SourceLinks(f, c.from, p);
    ThroughNext(c.source, c.from, p);
  }

  /** The copy loop of replace: afterwards all of the source is copied. */
  method CopyChildren(t: Tree, u: Tree, from: Node, tmp: Node, ghost c0: CopyState) returns (ghost c: CopyState)
    requires Copying(t, u, c0) && c0.from == from && c0.tmp == tmp && c0.seen == Nil
    modifies t, t.nodes
    ensures Copying(t, u, c) && c.seen == c.source && SameTask(c, c0)
    ensures t.head == old(t.head) && t.feet == old(t.feet) && fresh(t.nodes - old(t.nodes)) && old(t.nodes) <= t.nodes
    ensures forall m :: m in old(t.nodes) ==> m.data == old(m.data)
  {
    hide Copying, Elems, NoDup, Tree.Valid, GrownState, Link, From;
    c := c0;
    var current: Node := from;
    var last := from.next_sibling;
    var toit := tmp;
    CopySource(t, u, c);
    while true
      invariant Copying(t, u, c) && SameTask(c, c0)
      invariant SeenUpto(c, current) && current in c.cpy && toit == c.cpy[current] && from.next_sibling == last
      invariant t.head == old(t.head) && t.feet == old(t.feet) && fresh(t.nodes - old(t.nodes))
      invariant old(t.nodes) <= t.nodes
      invariant forall m :: m in old(t.nodes) ==> m.data == old(m.data)
      decreases Elems(c.source) - Elems(c.seen)
    {
      if current.first_child != null {
        current, toit, c := DescendAndCopy(t, u, from, c, current, toit);
      } else {
        current, toit := Climb(t, u, from, c, current, toit);
        if current.next_sibling == last {
          CopyDone(t, u, c, current);
          return;
        }
        current, toit, c := AdvanceAndCopy(t, u, from, c, current, toit);
      }
    }
  }

  ghost predicate SameTask(c: CopyState, d: CopyState) {
    c.from == d.from && c.tmp == d.tmp && c.base == d.base && c.source == d.source
  }

  lemma CopySource(t: Tree, u: Tree, c: CopyState)
    requires Copying(t, u, c)
    ensures c.from in c.cpy && c.cpy[c.from] == c.tmp
    ensures c.from in u.nodes && c.from in Elems(u.all) && u.nodes == Elems(u.all) && NoDup(u.all)
    ensures From(u.all, c.from).kids == c.source
    ensures NoDup(c.seen) && NoDup(c.source) && c.from !in Elems(c.source) && CopyShape(c, t.all) && NoDup(t.all)
    ensures t.nodes == Elems(t.all)
    ensures c.cpy.Keys <= u.nodes && c.cpy.Keys == {c.from} + Elems(c.seen)
    ensures forall m :: m in c.cpy ==>
      Fields(m) == Link(u.all, m) && c.cpy[m] in t.nodes && Fields(c.cpy[m]) == Link(t.all, c.cpy[m])
  {
    forall m | m in c.cpy
      ensures c.cpy[m] in t.nodes
    {
      ValueIn(c.cpy, m);
    }
  }

  /** Down to the first child, whose copy becomes a child of the current copy. */
  method DescendAndCopy(t: Tree, u: Tree, from: Node, ghost c: CopyState, current: Node, toit: Node)
    returns (next: Node, r: Node, ghost d: CopyState)
    requires Copying(t, u, c) && c.from == from
    requires SeenUpto(c, current) && current in c.cpy && toit == c.cpy[current] && current.first_child != null
    modifies t, t.nodes
    ensures Copied(t, u, c, d, next, r)
    ensures t.head == old(t.head) && t.feet == old(t.feet) && t.nodes == old(t.nodes) + {r} && fresh(r)
    ensures from.next_sibling == old(from.next_sibling)
    ensures forall m :: m in old(t.nodes) ==> m.data == old(m.data)
  {
    hide Copying, Elems, NoDup, Tree.Valid, GrownState, Link, From, SeenUpto, CopyShape, Upto, Grown;
    CopySource(t, u, c);
    CopyDown(u.all, c, current);
    next := current.first_child;
    r, d := GrowCopy(t, u, c, current, from, toit, next);
    GrownTask(c, current, next, r);
  }

  ghost predicate Copied(t: Tree, u: Tree, c: CopyState, d: CopyState, next: Node, r: Node)
    reads t, t.nodes, u, u.nodes
  {
    && Copying(t, u, d) && SameTask(c, d)
    && SeenUpto(d, next) && next in d.cpy && r == d.cpy[next]
    && Elems(d.source) - Elems(d.seen) < Elems(c.source) - Elems(c.seen)
  }

  lemma GrownTask(c: CopyState, p: Node, n: Node, r: Node)
    requires p == c.from || p in Elems(c.seen)
    requires NoDup(c.seen) && n in Elems(c.source) && n !in Elems(c.seen) && n != c.from
    requires Upto(c.source, n) == Grown(c.from, c.seen, p, n)
    ensures var d := GrownState(c, p, n, r);
      && SameTask(c, d) && SeenUpto(d, n) && n in d.cpy && d.cpy[n] == r
      && Elems(d.source) - Elems(d.seen) < Elems(c.source) - Elems(c.seen)
  {
    LeafElems(n);
    var d := GrownState(c, p, n, r);
    if p != c.from {
      AppendedElems(c.seen, p, Leaf(n));
    }
    assert Elems(d.seen) == Elems(c.seen) + {n};
    assert n in Elems(c.source) - Elems(c.seen);
  }

  /** Up in both trees until there is a next sibling or the top is reached. */
  method Climb(t: Tree, u: Tree, from: Node, ghost c: CopyState, start: Node, startCopy: Node)
    returns (current: Node, toit: Node)
    requires Copying(t, u, c) && c.from == from
    requires SeenUpto(c, start) && start in c.cpy && startCopy == c.cpy[start] && start.first_child == null
    ensures SeenThrough(c, current) && current in c.cpy && toit == c.cpy[current]
    ensures current.next_sibling == null ==> current == from
  {
    hide Copying, Elems, NoDup, Tree.Valid, Link, From, SeenUpto, SeenThrough, CopyShape;
    CopySource(t, u, c);
    CopyLeaf(u.all, c, start);
    current, toit := start, startCopy;
    while current.next_sibling == null && current != from
      invariant SeenThrough(c, current) && current in c.cpy && toit == c.cpy[current]
      decreases Depth(u.all, current)
    {
      CopyUp(u.all, t.all, c, current);
      current := current.parent;
      toit := toit.parent;
    }
  }

  lemma CopyDone(t: Tree, u: Tree, c: CopyState, current: Node)
    requires Copying(t, u, c) && SeenThrough(c, current) && current in c.cpy
    requires current.next_sibling == null ==> current == c.from
    requires current.next_sibling == c.from.next_sibling
    ensures c.seen == c.source
  {
    CopySource(t, u, c);
    if current != c.from {
      SourceLinks(u.all, c.from, current);
    }
  }

  /** On to the next sibling, whose copy becomes a child of the parent's copy. */
  method AdvanceAndCopy(t: Tree, u: Tree, from: Node, ghost c: CopyState, current: Node, toit: Node)
    returns (next: Node, r: Node, ghost d: CopyState)
    requires Copying(t, u, c) && c.from == from
    requires SeenThrough(c, current) && current in c.cpy && toit == c.cpy[current]
    requires current.next_sibling != null && current.next_sibling != from.next_sibling
    modifies t, t.nodes
    ensures Copied(t, u, c, d, next, r)
    ensures t.head == old(t.head) && t.feet == old(t.feet) && t.nodes == old(t.nodes) + {r} && fresh(r)
    ensures from.next_sibling == old(from.next_sibling)
    ensures forall m :: m in old(t.nodes) ==> m.data == old(m.data)
  {
    hide Copying, Elems, NoDup, Tree.Valid, GrownState, Link, From, SeenUpto, SeenThrough, CopyShape, Upto, Grown;
    CopySource(t, u, c);
    CopyUp(u.all, t.all, c, current);
    CopyNext(u.all, c, current);
    ghost var q := current.parent;
    next := current.next_sibling;
    r, d := GrowCopy(t, u, c, q, from, toit.parent, next);
    GrownTask(c, q, next, r);
  }

  /** The first half of replace: what hangs below `position` is destroyed and a
      fresh node with the label of `from` takes its place. */
  method PutFreshNode(t: Tree, position: Node, x: Value) returns (tmp: Node)
    requires t.Valid() && position in t.nodes && position != t.head && position != t.feet
    modifies t, t.nodes
    ensures t.Valid() && t.head == old(t.head) && t.feet == old(t.feet) && fresh(tmp) && tmp.data == x
    ensures t.all == Substituted(old(t.all), position, tmp)
    ensures t.nodes == old(t.nodes) - Sub(old(t.all), position) + {tmp}
    ensures forall m :: m in old(t.nodes) - Sub(old(t.all), position) ==> m.data == old(m.data)
  {
    ghost var was, k := t.all, From(t.all, position).kids;
    KidsHang(was, t.nodes, position);
    RemovedTree(was, position, t.head, t.feet);
    var _ := EraseChildren(position, k, t.nodes);
    tmp := new Node(x);
    PutInTree(t, position, tmp);
  }

  /** The pointer part, once the children of `position` are gone. */
  method PutInTree(t: Tree, position: Node, tmp: Node)
    requires Framed(t.all, t.head, t.feet) && t.nodes == Elems(t.all) && NoDup(t.all)
    requires position in t.nodes && position != t.head && position != t.feet && tmp !in t.nodes
    requires Fields(position) == Link(t.all, position).(first := null, last := null)
    requires forall m :: m in t.nodes - Sub(t.all, position) ==> Fields(m) == Link(t.all, m)
    modifies t, tmp, t.nodes - Sub(t.all, position)
    ensures t.Valid() && t.head == old(t.head) && t.feet == old(t.feet)
    ensures t.all == Substituted(old(t.all), position, tmp)
    ensures t.nodes == old(t.nodes) - Sub(old(t.all), position) + {tmp}
    ensures forall m :: m in old(t.nodes) + {tmp} ==> m.data == old(m.data)
  {
    hide Elems, NoDup, From, Link, Substituted, Sub, Framed, Removed;
    ghost var was, left := t.all, t.nodes - Sub(t.all, position);
    RemovedTree(was, position, t.head, t.feet);
    SubstitutedTree(was, position, tmp, t.head, t.feet);
    TakePlace(position, tmp, was, left);
    t.all, t.nodes := Substituted(was, position, tmp), left + {tmp};
  }

  /** PutInPlace seen from the nodes that are `left`. */
  method TakePlace(pos: Node, tmp: Node, ghost f: Forest<Node>, ghost left: set<Node>)
    requires NoDup(f) && pos in Elems(f) && left == Elems(f) - Sub(f, pos) && tmp !in left && tmp != pos
    requires Fields(pos) == Link(f, pos).(first := null, last := null)
    requires forall m :: m in left ==> Fields(m) == Link(f, m)
    modifies left + {tmp}
    ensures Fields(tmp) == old(Links(pos.parent, null, null, pos.prev_sibling, pos.next_sibling))
    ensures tmp.data == old(tmp.data)
    ensures forall m :: m in left ==> Fields(m) == SubstitutedLink(Link(f, m), pos, tmp) && m.data == old(m.data)
  {
    Neighbours(f, pos);
    KeptNeighbours(f, pos);
    hide Elems, NoDup, From, Link, Sub;
    PutInPlace(pos, tmp);
    forall m | m in left
      ensures Fields(m) == SubstitutedLink(Link(f, m), pos, tmp)
    {
      LinkTriple(f, pos, m);
    }
  }

  lemma KeptNeighbours(f: Forest<Node>, n: Node)
    requires NoDup(f) && n in Elems(f)
    ensures var o := Link(f, n);
      Opt(o.parent) + Opt(o.prev) + Opt(o.next) <= Elems(f) - Sub(f, n)
  {
    Neighbours(f, n);
    ParentOutside(f, null, null, n);
    LinkShape(f, null, null, n);
  }
}
