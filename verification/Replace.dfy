/** replace, insert_subtree and whole-tree copies built on the copy loop. */
module TreeReplace {
  import opened Forests
  import opened TreeLinks
  import opened TreeEdits
  import opened TreePrefix
  import opened TreeCompare
  import opened Trees
  import opened TreeCopy

  /** A copy that keeps all data has the labels of its source. */
  lemma {:induction false} ImageLabels(f: Forest<Node>, cpy: map<Node, Node>)
    requires Elems(f) <= cpy.Keys && forall m :: m in cpy ==> cpy[m].data == m.data
    ensures Labels(Image(f, cpy)) == Labels(f)
  {
    if f.Cons? {
      ImageLabels(f.kids, cpy);
      ImageLabels(f.right, cpy);
    }
  }

  /** Replacing a subtree elsewhere keeps the children of `n`. */
  lemma KidsSubstituted(f: Forest<Node>, n: Node, q: Node, x: Node)
    requires NoDup(f) && n in Elems(f) && q in Elems(f) && x !in Elems(f)
    requires q !in Sub(f, n) && n !in Sub(f, q)
    ensures n in Elems(Substituted(f, q, x)) && From(Substituted(f, q, x), n).kids == From(f, n).kids
  {
    var g := Cons(x, Nil, From(f, q).right);
    FromReplace(f, q, g, n);
    if n in Elems(From(f, q).right) {
      FromFrom(f, q, n);
    }
  }

  /** `t.all` with the subtree of `position` replaced by `r` over `k`. */
  ghost function Replaced<A>(f: Forest<A>, position: A, r: A, k: Forest<A>): Forest<A>
    requires position in Elems(f)
  {
    Replace(f, position, Cons(r, k, From(f, position).right))
  }

  lemma ReplacedSubstituted(f: Forest<Node>, position: Node, r: Node, k: Forest<Node>)
    requires NoDup(f) && position in Elems(f) && r !in Elems(f)
    ensures r in Elems(Substituted(f, position, r))
    ensures From(Substituted(f, position, r), r) == Cons(r, Nil, From(f, position).right)
    ensures Replaced(Substituted(f, position, r), r, r, k) == Replaced(f, position, r, k)
  {
    var g := Cons(r, Nil, From(f, position).right);
    FromReplace(f, position, g, r);
    ReplaceReplace(f, position, g, r, Cons(r, k, From(f, position).right));
  }

  /** The first state of the copy. */
  lemma CopyStart(t: Tree, u: Tree, tmp: Node, from: Node)
    requires t.Valid() && u.Valid() && (u == t || u.nodes !! t.nodes) && from in u.nodes
    requires tmp in t.nodes && tmp != t.head && tmp != t.feet && From(t.all, tmp).kids == Nil
    requires tmp !in Sub(u.all, from) && tmp.data == from.data
    ensures Copying(t, u, CopyState(t.all, tmp, from, From(u.all, from).kids, Nil, map[from := tmp]))
  {
    ReplaceSame(t.all, tmp);
    var cpy := map[from := tmp];
    assert cpy.Values == {tmp} by {
      assert cpy[from] == tmp;
    }
    SubApart(u.all, from);
  }

  lemma SubApart(f: Forest<Node>, n: Node)
    requires NoDup(f) && n in Elems(f)
    ensures NoDup(From(f, n).kids) && n !in Elems(From(f, n).kids)
  {}

  /** What a finished copy leaves in the target list. */
  lemma CopyEnd(t: Tree, u: Tree, c: CopyState)
    requires Copying(t, u, c) && c.seen == c.source
    ensures t.Valid() && u.Valid() && c.from in u.nodes && From(u.all, c.from).kids == c.source
    ensures c.cpy.Values * Elems(c.base) == {c.tmp}
    ensures Elems(c.source) <= c.cpy.Keys
    ensures var k := Image(c.source, c.cpy);
      && t.all == Replaced(c.base, c.tmp, c.tmp, k) && Labels(k) == Labels(c.source)
      && Elems(k) !! Elems(c.base) && Elems(k) <= c.cpy.Values <= t.nodes
  {
    ImageElems(c.source, c.cpy);
    ImageLabels(c.source, c.cpy);
  }

  /** A forest whose nodes are among `nodes`. */
  datatype Within = Within(f: Forest<Node>, nodes: set<Node>)

  /** Labels only depend on the data. */
  twostate lemma LabelsKept(w: Within)
    requires Elems(w.f) <= w.nodes && forall m :: m in w.nodes && m in Elems(w.f) ==> m.data == old(m.data)
    ensures Labels(w.f) == old(Labels(w.f))
    decreases w.f
  {
    if w.f.Cons? {
      LabelsKept(Within(w.f.kids, w.nodes));
      LabelsKept(Within(w.f.right, w.nodes));
    }
  }

  /** replace(position, from), for two subtrees without a common node; `k` is
      the copy of what is below `from`. */
  method ReplaceSubtree(t: Tree, position: Node, u: Tree, from: Node) returns (r: Node, ghost k: Forest<Node>)
    requires t.Valid() && u.Valid() && (u == t || u.nodes !! t.nodes)
    requires position in t.nodes && position != t.head && position != t.feet
    requires from in u.nodes && (u == t ==> position !in Sub(t.all, from) && from !in Sub(t.all, position))
    modifies t, t.nodes
    ensures t.Valid() && u.Valid() && t.head == old(t.head) && t.feet == old(t.feet)
    ensures t.all == Replaced(old(t.all), position, r, k)
    ensures r.data == old(from.data) && Labels(k) == old(Labels(From(u.all, from).kids))
    ensures fresh(r) && fresh(Elems(k))
    ensures from in u.nodes && From(u.all, from).kids == old(From(u.all, from).kids)
    ensures forall m :: m in old(t.nodes) - Sub(old(t.all), position) ==> m.data == old(m.data)
  {
    ghost var was, source := t.all, From(u.all, from).kids;
    SourceApart(t, position, u, from);
    assert NoDup(was) && t.nodes == Elems(was);
    hide Elems, NoDup, From, Link, Replace, Substituted, Sub, Framed, Tree.Valid, Copying, Image, Replaced, Labels;
    ghost var c0;
    r, c0 := ClearForCopy(t, position, u, from);
    ReplacedSubstituted(was, position, r, Nil);
    k := CopyBelow(t, u, from, r, c0);
    ReplacedSubstituted(was, position, r, k);
  }

  /** The second half: the copy loop. */
  method CopyBelow(t: Tree, u: Tree, from: Node, tmp: Node, ghost c0: CopyState) returns (ghost k: Forest<Node>)
    requires Copying(t, u, c0) && t.nodes == Elems(c0.base) && c0.from == from && c0.tmp == tmp && c0.seen == Nil
    modifies t, t.nodes
    ensures t.Valid() && u.Valid() && t.head == old(t.head) && t.feet == old(t.feet)
    ensures t.all == Replaced(c0.base, tmp, tmp, k) && Labels(k) == old(Labels(c0.source))
    ensures from in u.nodes && From(u.all, from).kids == c0.source
    ensures old(t.nodes) <= t.nodes && Elems(k) <= t.nodes && fresh(Elems(k))
    ensures forall m :: m in old(t.nodes) ==> m.data == old(m.data)
  {
    hide Elems, NoDup, From, Replace, Tree.Valid, Copying, Image, Replaced, Labels;
    SourceIn(t, u, c0);
    ghost var sources := u.nodes;
    ghost var c := CopyChildren(t, u, from, tmp, c0);
    LabelsKept(Within(c0.source, sources));
    CopyEnd(t, u, c);
    k := Image(c.source, c.cpy);
  }

  lemma SourceIn(t: Tree, u: Tree, c: CopyState)
    requires Copying(t, u, c)
    ensures Elems(c.source) <= u.nodes && (u == t || u.nodes !! t.nodes)
  {
    KidsIn(u.all, c.from);
  }

  lemma SourceApart(t: Tree, position: Node, u: Tree, from: Node)
    requires t.Valid() && u.Valid() && (u == t || u.nodes !! t.nodes)
    requires position in t.nodes && from in u.nodes
    requires u == t ==> position !in Sub(t.all, from) && from !in Sub(t.all, position)
    ensures Elems(From(u.all, from).kids) <= u.nodes && Elems(From(u.all, from).kids) !! Sub(t.all, position)
    ensures Sub(t.all, position) <= t.nodes && position in Sub(t.all, position)
  {
    KidsIn(u.all, from);
    if u == t {
      SubsApart(t.all, position, from);
    }
  }

  lemma {:induction false} SubsApart<A>(f: Forest<A>, m: A, n: A)
    requires NoDup(f) && m in Elems(f) && n in Elems(f) && m !in Sub(f, n) && n !in Sub(f, m)
    ensures Sub(f, m) !! Sub(f, n)
  {
    if m in Elems(f.kids) && n in Elems(f.kids) {
      SubsApart(f.kids, m, n);
    } else if m in Elems(f.right) && n in Elems(f.right) {
      SubsApart(f.right, m, n);
    }
  }

  /** The first half: the place is cleared and a fresh node put there. */
  method ClearForCopy(t: Tree, position: Node, u: Tree, from: Node) returns (r: Node, ghost c: CopyState)
    requires t.Valid() && u.Valid() && (u == t || u.nodes !! t.nodes)
    requires position in t.nodes && position != t.head && position != t.feet
    requires from in u.nodes && (u == t ==> position !in Sub(t.all, from) && from !in Sub(t.all, position))
    modifies t, t.nodes
    ensures t.head == old(t.head) && t.feet == old(t.feet) && fresh(r) && r.data == old(from.data)
    ensures t.all == Substituted(old(t.all), position, r)
    ensures t.nodes == old(t.nodes) - Sub(old(t.all), position) + {r}
    ensures c == CopyState(t.all, r, from, old(From(u.all, from).kids), Nil, map[from := r])
    ensures Copying(t, u, c) && t.nodes == Elems(t.all)
    ensures Labels(c.source) == old(Labels(From(u.all, from).kids))
    ensures forall m :: m in old(t.nodes) - Sub(old(t.all), position) ==> m.data == old(m.data)
  {
    ghost var was, source := t.all, From(u.all, from).kids;
    SourceApart(t, position, u, from);
    hide Elems, NoDup, From, Link, Replace, Substituted, Sub, Framed, Copying, Image, Replaced, Labels;
    ghost var sources := u.nodes;
    r := PutFreshNode(t, position, from.data);
    LabelsKept(Within(source, sources));
    StillThere(was, position, r, t, u, from, source);
    ReplacedSubstituted(was, position, r, Nil);
    hide Tree.Valid;
    CopyStart(t, u, r, from);
    c := CopyState(t.all, r, from, source, Nil, map[from := r]);
  }

  lemma SubIn<A>(f: Forest<A>, n: A)
    requires n in Elems(f)
    ensures Sub(f, n) <= Elems(f) && n in Sub(f, n)
  {}

  /** The source after the target has been cleared. */
  lemma StillThere(was: Forest<Node>, position: Node, r: Node, t: Tree, u: Tree, from: Node, source: Forest<Node>)
    requires NoDup(was) && position in Elems(was) && r !in Elems(was) && t.Valid()
    requires t.all == Substituted(was, position, r)
    requires if u == t
      then from in Elems(was) && position !in Sub(was, from) && from !in Sub(was, position) &&
        source == From(was, from).kids
      else u.Valid() && from in u.nodes && source == From(u.all, from).kids && u.nodes !! t.nodes
    ensures from in Elems(u.all) && From(u.all, from).kids == source && r !in Sub(u.all, from)
  {
    if u == t {
      KidsSubstituted(was, from, position, r);
    } else {
      SubstitutedElems(was, position, r);
    }
  }
}
