/** The part of a tree that a pre-order walk has seen, and structural copies. */
module TreePrefix {
  import opened Forests
  import opened TreeLinks
  import opened TreeEdits

  /** The nodes seen when `c` is reached; everything below `c` is still unseen. */
  ghost function Upto<A>(f: Forest<A>, c: A): Forest<A>
    requires c in Elems(f)
  {
    if f.id == c then Cons(c, Nil, Nil)
    else if c in Elems(f.kids) then Cons(f.id, Upto(f.kids, c), Nil)
    else Cons(f.id, f.kids, Upto(f.right, c))
  }

  /** The nodes seen when the whole subtree of `c` is done. */
  ghost function Through<A>(f: Forest<A>, c: A): Forest<A>
    requires c in Elems(f)
  {
    if f.id == c then Cons(c, f.kids, Nil)
    else if c in Elems(f.kids) then Cons(f.id, Through(f.kids, c), Nil)
    else Cons(f.id, f.kids, Through(f.right, c))
  }

  /** Parent of `n` in `f`; the roots have parent `top`. */
  ghost function Par<A>(f: Forest<A>, top: A, n: A): A
    requires n in Elems(f)
  {
    if f.id == n then top else if n in Elems(f.kids) then Par(f.kids, f.id, n) else Par(f.right, top, n)
  }

  function Leaf<A>(x: A): Forest<A> {
    Cons(x, Nil, Nil)
  }

  /** `Cons(top, f, Nil)` with a last child `x` added below `p`. */
  ghost function Grown<A>(top: A, f: Forest<A>, p: A, x: A): Forest<A>
    requires p == top || p in Elems(f)
  {
    if p == top then Append(f, Leaf(x)) else Appended(f, p, Leaf(x))
  }

  lemma {:induction false} UptoElems<A>(f: Forest<A>, c: A)
    requires NoDup(f) && c in Elems(f)
    ensures NoDup(Upto(f, c)) && c in Elems(Upto(f, c)) && Elems(Upto(f, c)) <= Elems(f)
    ensures NoDup(Through(f, c)) && c in Elems(Through(f, c)) && Elems(Through(f, c)) <= Elems(f)
    ensures Elems(Upto(f, c)) <= Elems(Through(f, c))
  {
    if f.id == c {
    } else if c in Elems(f.kids) {
      UptoElems(f.kids, c);
    } else {
      UptoElems(f.right, c);
    }
  }

  /** Going down: the first child is the next node to be seen. */
  lemma {:induction false} UptoDown<A>(f: Forest<A>, c: A)
    requires NoDup(f) && c in Elems(f) && From(f, c).kids.Cons?
    ensures var d := From(f, c).kids.id;
      && d in Elems(f) && c in Elems(Upto(f, c)) && d !in Elems(Upto(f, c))
      && Upto(f, d) == Appended(Upto(f, c), c, Leaf(d))
  {
    var d := From(f, c).kids.id;
    UptoElems(f, c);
    if f.id == c {
      assert Upto(f, d) == Cons(c, Leaf(d), Nil);
    } else if c in Elems(f.kids) {
      UptoDown(f.kids, c);
    } else {
      UptoDown(f.right, c);
      assert c !in Elems(f.kids);
    }
  }

  /** A leaf is done as soon as it is seen. */
  lemma {:induction false} UptoLeaf<A>(f: Forest<A>, c: A)
    requires NoDup(f) && c in Elems(f) && From(f, c).kids.Nil?
    ensures Upto(f, c) == Through(f, c)
  {
    if f.id == c {
    } else if c in Elems(f.kids) {
      UptoLeaf(f.kids, c);
    } else {
      UptoLeaf(f.right, c);
    }
  }

  /** Going up: a parent is done with its last child. */
  lemma {:induction false} ThroughUp<A>(f: Forest<A>, top: A, c: A)
    requires NoDup(f) && c in Elems(f) && top !in Elems(f) && From(f, c).right.Nil?
    ensures var p := Par(f, top, c);
      if p == top then Through(f, c) == f else p in Elems(f) && Through(f, c) == Through(f, p)
  {
    if f.id == c {
    } else if c in Elems(f.kids) {
      ThroughUp(f.kids, f.id, c);
      ParIn(f.kids, f.id, c);
    } else {
      ThroughUp(f.right, top, c);
      ParIn(f.right, top, c);
    }
  }

  lemma {:induction false} ParIn<A>(f: Forest<A>, top: A, c: A)
    requires c in Elems(f)
    ensures Par(f, top, c) == top || Par(f, top, c) in Elems(f)
  {
    if f.id == c {
    } else if c in Elems(f.kids) {
      ParIn(f.kids, f.id, c);
    } else {
      ParIn(f.right, top, c);
    }
  }

  /** Going on: the next sibling is seen as a new last child of the parent. */
  lemma {:induction false} ThroughNext<A>(f: Forest<A>, top: A, c: A)
    requires NoDup(f) && c in Elems(f) && top !in Elems(f) && From(f, c).right.Cons?
    ensures var s, p := From(f, c).right.id, Par(f, top, c);
      && s in Elems(f) && s !in Elems(Through(f, c)) && (p == top || p in Elems(Through(f, c)))
      && Upto(f, s) == Grown(top, Through(f, c), p, s)
  {
    var s, p := From(f, c).right.id, Par(f, top, c);
    UptoElems(f, c);
    if f.id == c {
      assert Upto(f, s) == Cons(c, f.kids, Leaf(s));
      assert Append(Through(f, c), Leaf(s)) == Cons(c, f.kids, Append(Nil, Leaf(s)));
    } else if c in Elems(f.kids) {
      ThroughNext(f.kids, f.id, c);
      ParIn(f.kids, f.id, c);
    } else {
      ThroughNext(f.right, top, c);
      ParIn(f.right, top, c);
    }
  }

  /** The image of a forest under a renaming of its nodes. */
  ghost function Image<A, B>(f: Forest<A>, cpy: map<A, B>): Forest<B>
    requires Elems(f) <= cpy.Keys
  {
    match f
    case Nil => Nil
    case Cons(n, k, r) => Cons(cpy[n], Image(k, cpy), Image(r, cpy))
  }

  ghost predicate Injective<A, B>(cpy: map<A, B>) {
    forall m, n :: m in cpy && n in cpy && cpy[m] == cpy[n] ==> m == n
  }

  lemma {:induction false} ImageElems<A, B>(f: Forest<A>, cpy: map<A, B>)
    requires Elems(f) <= cpy.Keys && Injective(cpy)
    ensures forall n :: n in cpy ==> (n in Elems(f) <==> cpy[n] in Elems(Image(f, cpy)))
    ensures Elems(Image(f, cpy)) <= cpy.Values
    ensures NoDup(f) ==> NoDup(Image(f, cpy))
  {
    if f.Cons? {
      assert cpy[f.id] in cpy.Values;
      ImageElems(f.kids, cpy);
      ImageElems(f.right, cpy);
      if NoDup(f) {
        forall x | x in Elems(Image(f.kids, cpy))
          ensures x !in Elems(Image(f.right, cpy))
        {
          var n :| n in cpy && cpy[n] == x;
        }
      }
    }
  }

  lemma {:induction false} ImageExtend<A, B>(f: Forest<A>, cpy: map<A, B>, n: A, x: B)
    requires Elems(f) <= cpy.Keys && n !in cpy
    ensures Image(f, cpy[n := x]) == Image(f, cpy)
  {
    if f.Cons? {
      ImageExtend(f.kids, cpy, n, x);
      ImageExtend(f.right, cpy, n, x);
    }
  }

  lemma {:induction false} ImageAppend<A, B>(f: Forest<A>, g: Forest<A>, cpy: map<A, B>)
    requires Elems(f) + Elems(g) <= cpy.Keys
    ensures Image(Append(f, g), cpy) == Append(Image(f, cpy), Image(g, cpy))
  {
    if f.Cons? {
      ImageAppend(f.right, g, cpy);
    }
  }

  /** Growing a tree and growing its image is the same. */
  lemma {:induction false} ImageAppended<A, B>(f: Forest<A>, p: A, n: A, cpy: map<A, B>)
    requires NoDup(f) && p in Elems(f) && Elems(f) + {n} <= cpy.Keys && Injective(cpy)
    ensures cpy[p] in Elems(Image(f, cpy))
    ensures Elems(Appended(f, p, Leaf(n))) <= cpy.Keys
    ensures Image(Appended(f, p, Leaf(n)), cpy) == Appended(Image(f, cpy), cpy[p], Leaf(cpy[n]))
  {
    ImageElems(f, cpy);
    ImageElems(f.kids, cpy);
    ImageElems(f.right, cpy);
    if f.id == p {
      ImageAppend(f.kids, Leaf(n), cpy);
    } else if p in Elems(f.kids) {
      ImageAppended(f.kids, p, n, cpy);
    } else {
      ImageAppended(f.right, p, n, cpy);
    }
  }

  lemma {:induction false} ImagePar<A, B>(f: Forest<A>, top: A, n: A, cpy: map<A, B>)
    requires NoDup(f) && n in Elems(f) && Elems(f) + {top} <= cpy.Keys && Injective(cpy)
    ensures cpy[n] in Elems(Image(f, cpy)) && Par(f, top, n) in cpy
    ensures Par(Image(f, cpy), cpy[top], cpy[n]) == cpy[Par(f, top, n)]
  {
    ImageElems(f, cpy);
    ImageElems(f.kids, cpy);
    ImageElems(f.right, cpy);
    if f.id == n {
    } else if n in Elems(f.kids) {
      ImagePar(f.kids, f.id, n, cpy);
    } else {
      ImagePar(f.right, top, n, cpy);
    }
  }

  /** Parents do not change while more of the tree is seen. */
  lemma {:induction false} ThroughPar<A>(f: Forest<A>, top: A, c: A, n: A)
    requires NoDup(f) && c in Elems(f) && n in Elems(Through(f, c))
    ensures n in Elems(f) && Par(Through(f, c), top, n) == Par(f, top, n)
  {
    UptoElems(f, c);
    if f.id == c {
    } else if c in Elems(f.kids) {
      UptoElems(f.kids, c);
      if n != f.id {
        ThroughPar(f.kids, f.id, c, n);
      }
    } else {
      UptoElems(f.right, c);
      if n != f.id && n !in Elems(f.kids) {
        ThroughPar(f.right, top, c, n);
      }
    }
  }

  lemma {:induction false} LinkPar(f: Forest<Node>, top: Node, prev: Node?, n: Node)
    requires n in Elems(f)
    ensures LinkOf(f, top, prev, n).parent == Par(f, top, n)
  {
    if f.id == n {
    } else if n in Elems(f.kids) {
      LinkPar(f.kids, f.id, null, n);
    } else {
      LinkPar(f.right, top, f.id, n);
    }
  }
}
