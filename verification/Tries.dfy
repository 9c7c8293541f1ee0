/** Merging label forests: with distinct labels among siblings, the union of tries. */
module Tries {
  import opened Forests

  ghost predicate DistinctRoots<A>(f: Forest<A>) {
    f.Cons? ==> f.id !in Roots(f.right) && DistinctRoots(f.right)
  }

  /** No two siblings have the same label, anywhere. */
  ghost predicate Distinct<A>(f: Forest<A>) {
    DistinctRoots(f) && (f.Cons? ==> Distinct(f.kids) && Distinct(f.right))
  }

  /** The labels on the way from a root to a node, for every node. */
  ghost function LabelPaths<A(!new)>(f: Forest<A>): iset<seq<A>> {
    iset p | IsPath(f, p)
  }

  ghost predicate IsPath<A>(f: Forest<A>, p: seq<A>)
    decreases f
  {
    && f.Cons? && p != []
    && ((p[0] == f.id && (|p| == 1 || IsPath(f.kids, p[1..]))) || IsPath(f.right, p))
  }

  /** Merging one tree into a list of siblings, a list into a list that is not
      empty, and a list into any; what is merged into an empty list is copied as
      it is. */
  function MergeTree<A(==)>(a: Forest<A>, v: A, k: Forest<A>): Forest<A>
    decreases k, 2, a
  {
    match a
    case Nil => Cons(v, k, Nil)
    case Cons(w, j, r) => if w == v then Cons(w, Merged(j, k), r) else Cons(w, j, MergeTree(r, v, k))
  }

  function MergedInto<A(==)>(a: Forest<A>, b: Forest<A>): Forest<A>
    decreases b, 0
  {
    match b
    case Nil => a
    case Cons(v, k, r) => MergedInto(MergeTree(a, v, k), r)
  }

  function Merged<A(==)>(a: Forest<A>, b: Forest<A>): Forest<A>
    decreases b, 1
  {
    if a.Nil? then b else MergedInto(a, b)
  }

  lemma {:induction false} MergeTreeRoots<A>(a: Forest<A>, v: A, k: Forest<A>)
    ensures Roots(MergeTree(a, v, k)) == if v in Roots(a) then Roots(a) else Roots(a) + [v]
    decreases a
  {
    if a.Cons? && a.id != v {
      MergeTreeRoots(a.right, v, k);
    }
  }

  lemma {:induction false} RootsDistinct<A>(f: Forest<A>, g: Forest<A>, v: A)
    requires DistinctRoots(f) && Roots(g) == (if v in Roots(f) then Roots(f) else Roots(f) + [v])
    ensures DistinctRoots(g)
  {
    if f.Cons? {
      assert Roots(g)[0] == f.id;
      assert Roots(g.right) == Roots(g)[1..];
      assert Roots(f)[1..] == Roots(f.right) && (Roots(f) + [v])[1..] == Roots(f.right) + [v];
      if f.id == v {
        SameRoots(f.right, g.right);
      } else {
        RootsDistinct(f.right, g.right, v);
      }
    }
  }

  lemma {:induction false} SameRoots<A>(f: Forest<A>, g: Forest<A>)
    requires DistinctRoots(f) && Roots(f) == Roots(g)
    ensures DistinctRoots(g)
  {
    if f.Cons? {
      assert Roots(g.right) == Roots(g)[1..] == Roots(f)[1..] == Roots(f.right);
      SameRoots(f.right, g.right);
    }
  }

  /** Merging keeps labels distinct. */
  lemma {:induction false} MergeTreeDistinct<A>(a: Forest<A>, v: A, k: Forest<A>)
    requires Distinct(a) && Distinct(k)
    ensures Distinct(MergeTree(a, v, k))
    decreases k, 2, a
  {
    MergeTreeRoots(a, v, k);
    RootsDistinct(a, MergeTree(a, v, k), v);
    if a.Cons? {
      if a.id == v {
        MergedDistinct(a.kids, k);
      } else {
        MergeTreeDistinct(a.right, v, k);
      }
    }
  }

  lemma {:induction false} MergedIntoDistinct<A>(a: Forest<A>, b: Forest<A>)
    requires Distinct(a) && Distinct(b)
    ensures Distinct(MergedInto(a, b))
    decreases b, 0
  {
    if b.Cons? {
      MergeTreeDistinct(a, b.id, b.kids);
      MergedIntoDistinct(MergeTree(a, b.id, b.kids), b.right);
    }
  }

  lemma {:induction false} MergedDistinct<A>(a: Forest<A>, b: Forest<A>)
    requires Distinct(a) && Distinct(b)
    ensures Distinct(Merged(a, b))
    decreases b, 1
  {
    MergedIntoDistinct(a, b);
  }

  /** A path after a merge was a path before, in one of the two. */
  lemma {:induction false} MergeTreePath<A>(a: Forest<A>, v: A, k: Forest<A>, p: seq<A>)
    requires p != []
    ensures IsPath(MergeTree(a, v, k), p) <==> IsPath(a, p) || (p[0] == v && (|p| == 1 || IsPath(k, p[1..])))
    decreases k, 2, a
  {
    if a.Cons? {
      if a.id == v {
        if p[0] == v && |p| > 1 {
          MergedPath(a.kids, k, p[1..]);
        }
      } else {
        MergeTreePath(a.right, v, k, p);
      }
    }
  }

  lemma {:induction false} MergedIntoPath<A>(a: Forest<A>, b: Forest<A>, p: seq<A>)
    requires p != []
    ensures IsPath(MergedInto(a, b), p) <==> IsPath(a, p) || IsPath(b, p)
    decreases b, 0
  {
    if b.Cons? {
      MergeTreePath(a, b.id, b.kids, p);
      MergedIntoPath(MergeTree(a, b.id, b.kids), b.right, p);
    }
  }

  lemma {:induction false} MergedPath<A>(a: Forest<A>, b: Forest<A>, p: seq<A>)
    requires p != []
    ensures IsPath(Merged(a, b), p) <==> IsPath(a, p) || IsPath(b, p)
    decreases b, 1
  {
    MergedIntoPath(a, b, p);
  }

  /** The paths of the merge are exactly those of the two. */
  lemma TrieUnion<A(!new)>(a: Forest<A>, b: Forest<A>)
    ensures LabelPaths(Merged(a, b)) == LabelPaths(a) + LabelPaths(b)
  {
    forall p: seq<A>
      ensures p in LabelPaths(Merged(a, b)) <==> p in LabelPaths(a) + LabelPaths(b)
    {
      if p != [] {
        MergedPath(a, b, p);
      }
    }
  }

  // ---- Merging again ----

  /** Everything in `b` is found in `c`, along the first matches. */
  ghost predicate Covers<A>(c: Forest<A>, b: Forest<A>)
    decreases b
  {
    b.Cons? ==> b.id in Roots(c) && Covers(Below(c, b.id), b.kids) && Covers(c, b.right)
  }

  lemma {:induction false} MergeTreeBelow<A>(a: Forest<A>, v: A, k: Forest<A>, w: A)
    requires w == v || w in Roots(a)
    ensures w in Roots(MergeTree(a, v, k))
    ensures Below(MergeTree(a, v, k), w) ==
      if w != v then Below(a, w) else if v in Roots(a) then Merged(Below(a, v), k) else k
    decreases a
  {
    MergeTreeRoots(a, v, k);
    if a.Cons? && a.id != v && a.id != w {
      MergeTreeRoots(a.right, v, k);
      MergeTreeBelow(a.right, v, k, w);
    }
  }

  /** A merge only adds. */
  lemma {:induction false} MergeTreeCovers<A>(a: Forest<A>, v: A, k: Forest<A>, b: Forest<A>)
    requires Covers(a, b)
    ensures Covers(MergeTree(a, v, k), b)
    decreases k, 2, b
  {
    if b.Cons? {
      MergeTreeRoots(a, v, k);
      MergeTreeBelow(a, v, k, b.id);
      if b.id == v {
        MergedCovers(Below(a, v), k, b.kids);
      }
      MergeTreeCovers(a, v, k, b.right);
    }
  }

  lemma {:induction false} MergedIntoCovers<A>(a: Forest<A>, k: Forest<A>, b: Forest<A>)
    requires Covers(a, b)
    ensures Covers(MergedInto(a, k), b)
    decreases k, 0, b
  {
    if k.Cons? {
      MergeTreeCovers(a, k.id, k.kids, b);
      MergedIntoCovers(MergeTree(a, k.id, k.kids), k.right, b);
    }
  }

  lemma {:induction false} MergedCovers<A>(a: Forest<A>, k: Forest<A>, b: Forest<A>)
    requires Covers(a, b)
    ensures Covers(Merged(a, k), b)
    decreases k, 1, b
  {
    if a.Cons? {
      MergedIntoCovers(a, k, b);
    }
  }

  /** What `k` covers is found in every forest that `k` was merged into. */
  lemma {:induction false} MergedFinds<A>(a: Forest<A>, k: Forest<A>, b: Forest<A>)
    requires Covers(k, b)
    ensures Covers(Merged(a, k), b)
    decreases k, 1, b
  {
    if b.Cons? && a.Cons? {
      MergedIntoFinds(a, k, b.id, b.kids);
      MergedFinds(a, k, b.right);
    }
  }

  lemma {:induction false} MergedIntoFinds<A>(a: Forest<A>, k: Forest<A>, w: A, m: Forest<A>)
    requires w in Roots(k) && Covers(Below(k, w), m)
    ensures w in Roots(MergedInto(a, k)) && Covers(Below(MergedInto(a, k), w), m)
    decreases k, 0
  {
    var a1 := MergeTree(a, k.id, k.kids);
    if k.id == w {
      MergeTreeBelow(a, w, k.kids, w);
      if w in Roots(a) {
        MergedFinds(Below(a, w), k.kids, m);
      }
      var only := Cons(w, m, Nil);
      assert Covers(a1, only);
      MergedIntoCovers(a1, k.right, only);
    } else {
      MergedIntoFinds(a1, k.right, w, m);
    }
  }

  /** A forest covers itself if siblings have distinct labels. */
  lemma {:induction false} CoversSelf<A>(b: Forest<A>, c: Forest<A>)
    requires Distinct(b) && Distinct(c) && (forall v :: v in Roots(b) ==> v in Roots(c) && Below(c, v) == Below(b, v))
    ensures Covers(c, b)
    decreases b
  {
    if b.Cons? {
      CoversSelf(b.kids, b.kids);
      CoversSelf(b.right, c);
    }
  }

  /** Merging what is there already changes nothing. */
  lemma {:induction false} CoveredMerge<A>(c: Forest<A>, b: Forest<A>)
    requires Covers(c, b)
    ensures Merged(c, b) == c && MergedInto(c, b) == c
    decreases b, 0
  {
    if b.Cons? {
      CoveredTree(c, b.id, b.kids);
      CoveredMerge(c, b.right);
    }
  }

  lemma {:induction false} CoveredTree<A>(c: Forest<A>, v: A, k: Forest<A>)
    requires v in Roots(c) && Covers(Below(c, v), k)
    ensures MergeTree(c, v, k) == c
    decreases k, 1, c
  {
    if c.id == v {
      CoveredMerge(c.kids, k);
    } else {
      CoveredTree(c.right, v, k);
    }
  }

  /** A merge that changes anything adds a node. */
  lemma {:induction false} MergeTreeGrows<A>(a: Forest<A>, v: A, k: Forest<A>)
    ensures MergeTree(a, v, k) == a || |PreOrder(MergeTree(a, v, k))| > |PreOrder(a)|
    decreases k, 2, a
  {
    if a.Cons? {
      if a.id == v {
        MergedGrows(a.kids, k);
      } else {
        MergeTreeGrows(a.right, v, k);
      }
    }
  }

  lemma {:induction false} MergedIntoGrows<A>(a: Forest<A>, b: Forest<A>)
    ensures MergedInto(a, b) == a || |PreOrder(MergedInto(a, b))| > |PreOrder(a)|
    decreases b, 0
  {
    if b.Cons? {
      MergeTreeGrows(a, b.id, b.kids);
      MergedIntoGrows(MergeTree(a, b.id, b.kids), b.right);
    }
  }

  lemma {:induction false} MergedGrows<A>(a: Forest<A>, b: Forest<A>)
    ensures Merged(a, b) == a || |PreOrder(Merged(a, b))| > |PreOrder(a)|
    decreases b, 1
  {
    MergedIntoGrows(a, b);
  }

  /** Merging changes nothing only if everything is there already. */
  lemma {:induction false} UnchangedCovers<A>(c: Forest<A>, b: Forest<A>)
    requires Merged(c, b) == c
    ensures Covers(c, b)
    decreases b
  {
    if b.Cons? {
      var v, k, c1 := b.id, b.kids, MergeTree(c, b.id, b.kids);
      MergeTreeGrows(c, v, k);
      MergedIntoGrows(c1, b.right);
      assert c1 == c;
      MergeTreeRoots(c, v, k);
      MergeTreeBelow(c, v, k, v);
      UnchangedCovers(Below(c, v), k);
      UnchangedCovers(c, b.right);
    }
  }

  /** Merging `b` into `a` again changes nothing if and only if all of `b` is found
      along the first matches. */
  lemma MergeTwice<A>(a: Forest<A>, b: Forest<A>)
    ensures Merged(Merged(a, b), b) == Merged(a, b) <==> Covers(Merged(a, b), b)
    ensures Covers(b, b) ==> Merged(Merged(a, b), b) == Merged(a, b)
    ensures Distinct(b) ==> Covers(b, b)
  {
    if Covers(b, b) {
      MergedFinds(a, b, b);
    }
    if Covers(Merged(a, b), b) {
      CoveredMerge(Merged(a, b), b);
    }
    if Merged(Merged(a, b), b) == Merged(a, b) {
      UnchangedCovers(Merged(a, b), b);
    }
    if Distinct(b) {
      CoversSelf(b, b);
    }
  }

  /** Merging `b` again never changes anything, whatever it was merged into, if
      and only if `b` covers itself. */
  lemma MergeTwiceAlways<A(!new)>(b: Forest<A>)
    ensures (forall a: Forest<A> :: Merged(Merged(a, b), b) == Merged(a, b)) <==> Covers(b, b)
  {
    forall a: Forest<A>
      ensures Covers(b, b) ==> Merged(Merged(a, b), b) == Merged(a, b)
    {
      MergeTwice(a, b);
    }
    var none: Forest<A> := Nil;
    MergeTwice(none, b);
    if !Covers(b, b) {
      assert Merged(none, b) == b && Merged(Merged(none, b), b) != Merged(none, b);
    }
  }

  /** A forest with equal siblings that does not. */
  lemma MergeTwiceDiffers<A>(q: A, r: A)
    ensures var b := Cons(q, Nil, Cons(q, Cons(r, Nil, Nil), Nil));
      !Covers(b, b) && Merged(Merged(Nil, b), b) != Merged(Nil, b)
  {
    var leaf: Forest<A> := Cons(r, Nil, Nil);
    var b := Cons(q, Nil, Cons(q, leaf, Nil));
    assert Below(b, q) == Nil && !Covers(Below(b, q), leaf) && !Covers(b, b.right);
    MergeTwice(Nil, b);
  }
}
