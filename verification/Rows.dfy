/** The children of a node, or the top-level trees, as one row that is edited. */
module TreeRows {
  import opened Forests
  import opened TreeLinks
  import opened TreeEdits
  import opened TreeCompare
  import opened Trees
  import opened TreePrefix
  import opened TreeReplace
  import opened TreeCopyAll

  /** The row at `place`; null is the place of the top-level trees. */
  ghost predicate KidsRow(f: Forest<Node>, head: Node, feet: Node, place: Node?, k: Forest<Node>) {
    if place == null then f == Cons(head, Nil, Append(k, Leaf(feet)))
    else place in Elems(f) && place != head && place != feet && From(f, place).kids == k
  }

  ghost function WithRow(f: Forest<Node>, head: Node, feet: Node, place: Node?, k: Forest<Node>): Forest<Node>
    requires place != null ==> place in Elems(f)
  {
    if place == null then Cons(head, Nil, Append(k, Leaf(feet)))
    else Replace(f, place, Cons(place, k, From(f, place).right))
  }

  /** `k` with other children below its node `x`. */
  ghost function ReKid<A>(k: Forest<A>, x: A, j: Forest<A>): Forest<A>
    requires x in Elems(k)
  {
    Replace(k, x, Cons(x, j, From(k, x).right))
  }

  lemma {:induction false} ReplacedThere<A>(f: Forest<A>, n: A, g: Forest<A>, h: Forest<A>)
    requires n in Elems(f) && g.Cons? && g.id == n
    ensures n in Elems(Replace(f, n, g)) && From(Replace(f, n, g), n) == g
    ensures Replace(Replace(f, n, g), n, h) == Replace(f, n, h)
    ensures Elems(g) <= Elems(Replace(f, n, g))
  {
    if f.id == n {
    } else if n in Elems(f.kids) {
      ReplacedThere(f.kids, n, g, h);
    } else {
      ReplacedThere(f.right, n, g, h);
    }
  }

  lemma {:induction false} ReplaceInside<A>(f: Forest<A>, n: A, g: Forest<A>, x: A, h: Forest<A>)
    requires n in Elems(f) && g.Cons? && g.id == n && x in Elems(g) && NoDup(Replace(f, n, g))
    ensures x in Elems(Replace(f, n, g)) && From(Replace(f, n, g), x) == From(g, x)
    ensures Replace(Replace(f, n, g), x, h) == Replace(f, n, Replace(g, x, h))
  {
    if f.id == n {
    } else if n in Elems(f.kids) {
      ReplacedThere(f.kids, n, g, h);
      ReplaceInside(f.kids, n, g, x, h);
    } else {
      ReplacedThere(f.right, n, g, h);
      ReplaceInside(f.right, n, g, x, h);
    }
  }

  /** Editing below a node of the first part of a list. */
  lemma {:induction false} ReKidAppend<A>(k: Forest<A>, e: Forest<A>, x: A, j: Forest<A>)
    requires x in Elems(k)
    ensures x in Elems(Append(k, e)) && ReKid(Append(k, e), x, j) == Append(ReKid(k, x, j), e)
    ensures From(Append(k, e), x).kids == From(k, x).kids
  {
    if k.id != x && x !in Elems(k.kids) {
      ReKidAppend(k.right, e, x, j);
    }
  }

  /** The row that was put there is there. */
  lemma RowThere(f: Forest<Node>, head: Node, feet: Node, place: Node?, k: Forest<Node>, k2: Forest<Node>)
    requires place != null ==> place in Elems(f) && place != head && place != feet
    ensures var h := WithRow(f, head, feet, place, k);
      && KidsRow(h, head, feet, place, k) && (place != null ==> place in Elems(h))
      && WithRow(h, head, feet, place, k2) == WithRow(f, head, feet, place, k2)
  {
    if place != null {
      var r := From(f, place).right;
      ReplacedThere(f, place, Cons(place, k, r), Cons(place, k2, r));
    }
  }

  /** A list that has a row is the list with that row. */
  lemma RowSame(f: Forest<Node>, head: Node, feet: Node, place: Node?, k: Forest<Node>)
    requires KidsRow(f, head, feet, place, k)
    ensures WithRow(f, head, feet, place, k) == f
  {
    if place != null {
      ReplaceSame(f, place);
    }
  }

  /** Editing below a node of the row edits the row. */
  lemma RowReKid(f: Forest<Node>, head: Node, feet: Node, place: Node?, k: Forest<Node>, x: Node, j: Forest<Node>)
    requires place != null ==> place in Elems(f)
    requires x in Elems(k) && NoDup(WithRow(f, head, feet, place, k))
    ensures var h := WithRow(f, head, feet, place, k);
      && x in Elems(h) && From(h, x).kids == From(k, x).kids
      && WithRow(h, head, feet, x, j) == WithRow(f, head, feet, place, ReKid(k, x, j))
  {
    if place == null {
      ReKidAppend(k, Leaf(feet), x, j);
    } else {
      var r := From(f, place).right;
      var g := Cons(place, k, r);
      ReplacedThere(f, place, g, g);
      RowNoDup(f, place, g);
      ReplaceInside(f, place, g, x, Cons(x, j, From(k, x).right));
    }
  }

  lemma {:induction false} RowNoDup<A>(f: Forest<A>, n: A, g: Forest<A>)
    requires n in Elems(f) && g.Cons? && g.id == n && NoDup(Replace(f, n, g))
    ensures NoDup(g)
  {
    if f.id == n {
    } else if n in Elems(f.kids) {
      RowNoDup(f.kids, n, g);
    } else {
      RowNoDup(f.right, n, g);
    }
  }

  lemma {:induction false} AppendTwice<A>(k: Forest<A>, x: A, j: Forest<A>, e: Forest<A>)
    ensures Append(Append(k, Cons(x, j, Nil)), e) == Append(k, Cons(x, j, e))
  {
    if k.Cons? {
      AppendTwice(k.right, x, j, e);
    }
  }

  /** A fresh last child or a fresh node in front of `feet` extends the row. */
  lemma RowGrown(f: Forest<Node>, head: Node, feet: Node, place: Node?, k: Forest<Node>, x: Node)
    requires place != null ==> place in Elems(f) && place != head && place != feet
    requires NoDup(WithRow(f, head, feet, place, k)) && x !in Elems(WithRow(f, head, feet, place, k))
    ensures var h, w := WithRow(f, head, feet, place, k), WithRow(f, head, feet, place, Append(k, Leaf(x)));
      if place == null then feet in Elems(h) && Inserted(h, feet, x, Nil) == w
      else place in Elems(h) && Appended(h, place, Leaf(x)) == w
  {
    var h := WithRow(f, head, feet, place, k);
    if place == null {
      FromInRow(k, Leaf(feet));
      ReplaceInRow(k, Leaf(feet), Cons(x, Nil, Leaf(feet)));
      AppendTwice(k, x, Nil, Leaf(feet));
      assert feet != head;
    } else {
      var r := From(f, place).right;
      ReplacedThere(f, place, Cons(place, k, r), Cons(place, Append(k, Leaf(x)), r));
    }
  }

  /** The last node of a row, replaced with what is below it. */
  lemma {:induction false} LastReplaced<A>(k: Forest<A>, x: A, r: A, j: Forest<A>)
    requires x !in Elems(k)
    ensures x in Elems(Append(k, Leaf(x))) && From(Append(k, Leaf(x)), x) == Leaf(x)
    ensures Replaced(Append(k, Leaf(x)), x, r, j) == Append(k, Cons(r, j, Nil))
  {
    if k.Cons? {
      LastReplaced(k.right, x, r, j);
    } else {
      assert From(Leaf(x), x) == Leaf(x);
    }
  }

  lemma RowLastReplaced(f: Forest<Node>, head: Node, feet: Node, place: Node?, k: Forest<Node>, x: Node, r: Node,
                        j: Forest<Node>)
    requires place != null ==> place in Elems(f) && place != head && place != feet
    requires NoDup(WithRow(f, head, feet, place, Append(k, Leaf(x))))
    ensures var h := WithRow(f, head, feet, place, Append(k, Leaf(x)));
      && x in Elems(h) && From(h, x).kids == Nil
      && Replaced(h, x, r, j) == WithRow(f, head, feet, place, Append(k, Cons(r, j, Nil)))
  {
    var h := WithRow(f, head, feet, place, Append(k, Leaf(x)));
    if place == null {
      AppendTwice(k, x, Nil, Leaf(feet));
      FromInRow(k, Cons(x, Nil, Leaf(feet)));
      ReplaceInRow(k, Cons(x, Nil, Leaf(feet)), Cons(r, j, Leaf(feet)));
      AppendTwice(k, r, j, Leaf(feet));
      AppendedApart(k, Cons(x, Nil, Leaf(feet)));
    } else {
      var right := From(f, place).right;
      var g := Cons(place, Append(k, Leaf(x)), right);
      ReplacedThere(f, place, g, g);
      RowNoDup(f, place, g);
      AppendedApart(k, Leaf(x));
      LastReplaced(k, x, r, j);
      ReplaceInside(f, place, g, x, Cons(r, j, Nil));
    }
  }

  /** A childless node at the end of a row. */
  method AppendDummy(t: Tree, place: Node?, dummy: Value, ghost k: Forest<Node>) returns (it: Node)
    requires t.Valid() && KidsRow(t.all, t.head, t.feet, place, k)
    modifies t, t.nodes
    ensures t.Valid() && t.head == old(t.head) && t.feet == old(t.feet) && fresh(it) && t.nodes == old(t.nodes) + {it}
    ensures place != null ==> place in Elems(old(t.all))
    ensures t.all == WithRow(old(t.all), t.head, t.feet, place, Append(k, Leaf(it)))
    ensures forall m :: m in old(t.nodes) ==> m.data == old(m.data)
  {
    ghost var was, head, feet := t.all, t.head, t.feet;
    RowSame(was, head, feet, place, k);
    Unfold(t);
    FramedEnds(was, head, feet);
    assert place != null ==> place in t.nodes && place != head && place != feet;
    hide Elems, NoDup, From, Replace, Framed, Link, WithRow, KidsRow, Tree.Valid, Appended, Inserted;
    if place == null {
      it := t.Insert(null, dummy);
    } else {
      it := t.AppendChild(place, dummy);
    }
    RowGrown(was, head, feet, place, k, it);
  }

  lemma ReplacedNodes<A>(f: Forest<A>, n: A, r: A, j: Forest<A>)
    requires NoDup(f) && n in Elems(f)
    ensures Elems(f) - Sub(f, n) <= Elems(Replaced(f, n, r, j)) <= Elems(f) + {r} + Elems(j)
  {
    if f.id == n {
    } else if n in Elems(f.kids) {
      ReplacedNodes(f.kids, n, r, j);
    } else {
      ReplacedNodes(f.right, n, r, j);
    }
  }

  /** insert_subtree at the end of a row: a dummy that is then replaced. */
  method InsertSubtreeLast(t: Tree, place: Node?, u: Tree, from: Node, dummy: Value, ghost k: Forest<Node>)
    returns (r: Node, ghost j: Forest<Node>)
    requires t.Valid() && u.Valid() && u != t && u.nodes !! t.nodes && from in u.nodes && from in Elems(u.all)
    requires KidsRow(t.all, t.head, t.feet, place, k)
    modifies t, t.nodes
    ensures t.Valid() && u.Valid() && u.nodes !! t.nodes && t.head == old(t.head) && t.feet == old(t.feet)
    ensures place != null ==> place in Elems(old(t.all))
    ensures t.all == WithRow(old(t.all), t.head, t.feet, place, Append(k, Cons(r, j, Nil)))
    ensures r.data == from.data && Labels(j) == Labels(From(u.all, from).kids)
    ensures old(t.nodes) <= t.nodes && forall m :: m in t.nodes ==> m in old(t.nodes) || fresh(m)
    ensures forall m :: m in old(t.nodes) ==> m.data == old(m.data)
  {
    hide *;
    ghost var was, head, feet := t.all, t.head, t.feet;
    var it := PlaceDummy(t, place, dummy, k);
    r, j := ReplaceLeaf(t, it, u, from);
    RowLastReplaced(was, head, feet, place, k, it, r, j);
  }

  /** replace where there is nothing below. */
  method ReplaceLeaf(t: Tree, it: Node, u: Tree, from: Node) returns (r: Node, ghost j: Forest<Node>)
    requires t.Valid() && u.Valid() && u != t && u.nodes !! t.nodes && from in u.nodes && from in Elems(u.all)
    requires it in t.nodes && it != t.head && it != t.feet && it in Elems(t.all) && From(t.all, it).kids == Nil
    modifies t, t.nodes
    ensures t.Valid() && u.Valid() && u.nodes !! t.nodes && t.head == old(t.head) && t.feet == old(t.feet)
    ensures t.all == Replaced(old(t.all), it, r, j)
    ensures r.data == from.data && Labels(j) == Labels(From(u.all, from).kids)
    ensures old(t.nodes) - {it} <= t.nodes && forall m :: m in t.nodes ==> m in old(t.nodes) || fresh(m)
    ensures forall m :: m in old(t.nodes) - {it} ==> m.data == old(m.data)
  {
    ghost var was, nodes, sources, kids := t.all, t.nodes, u.nodes, From(u.all, from).kids;
    Unfold(t);
    SubLeaf(was, it);
    SourceKids(u, from);
    hide *;
    r, j := ReplaceSubtree(t, it, u, from);
    LabelsKept(Within(kids, sources));
    ReplacedNodes(was, it, r, j);
    Unfold(t);
    assert t.nodes <= nodes + ({r} + Elems(j));
  }

  lemma SourceKids(u: Tree, from: Node)
    requires u.Valid() && from in u.nodes
    ensures from in Elems(u.all) && Elems(From(u.all, from).kids) <= u.nodes
  {
    KidsIn(u.all, from);
  }

  /** The same with what the replacement needs. */
  method PlaceDummy(t: Tree, place: Node?, dummy: Value, ghost k: Forest<Node>) returns (it: Node)
    requires t.Valid() && KidsRow(t.all, t.head, t.feet, place, k)
    modifies t, t.nodes
    ensures t.Valid() && t.head == old(t.head) && t.feet == old(t.feet) && fresh(it) && t.nodes == old(t.nodes) + {it}
    ensures place != null ==> place in Elems(old(t.all)) && place != t.head && place != t.feet
    ensures t.all == WithRow(old(t.all), t.head, t.feet, place, Append(k, Leaf(it)))
    ensures it != t.head && it != t.feet && NoDup(t.all) && it in Elems(t.all) && From(t.all, it).kids == Nil
    ensures forall m :: m in old(t.nodes) ==> m.data == old(m.data)
  {
    ghost var was, head, feet := t.all, t.head, t.feet;
    EndsIn(t);
    hide *;
    it := AppendDummy(t, place, dummy, k);
    DummyPlace(was, head, feet, place, k, it, t);
  }

  lemma EndsIn(t: Tree)
    requires t.Valid()
    ensures t.nodes == Elems(t.all) && t.head in t.nodes && t.feet in t.nodes
  {}

  lemma DummyPlace(f: Forest<Node>, head: Node, feet: Node, place: Node?, k: Forest<Node>, it: Node, t: Tree)
    requires KidsRow(f, head, feet, place, k) && t.Valid() && head == t.head && feet == t.feet && it in t.nodes
    requires it !in Elems(f) && head in Elems(f) && feet in Elems(f)
    requires place != null ==> place in Elems(f)
    requires t.all == WithRow(f, head, feet, place, Append(k, Leaf(it)))
    ensures place != null ==> place != head && place != feet
    ensures it != t.head && it != t.feet && NoDup(t.all) && it in Elems(t.all) && From(t.all, it).kids == Nil
  {
    RowLastReplaced(f, head, feet, place, k, it, it, Nil);
  }

  lemma SubLeaf<A>(f: Forest<A>, n: A)
    requires n in Elems(f) && From(f, n).kids == Nil
    ensures Sub(f, n) == {n}
  {}
}
