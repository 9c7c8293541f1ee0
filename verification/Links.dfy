/** Tree nodes and the five links that a forest prescribes for each of them. */
module TreeLinks {
  import opened Forests

  type Value(==, 0, !new)

  class Node {
    var parent: Node?
    var first_child: Node?
    var last_child: Node?
    var prev_sibling: Node?
    var next_sibling: Node?
    var data: Value

    constructor (x: Value)
      ensures data == x && Fields(this) == Links(null, null, null, null, null)
    {
      parent, first_child, last_child, prev_sibling, next_sibling := null, null, null, null, null;
      data := x;
    }
  }

  datatype Links = Links(parent: Node?, first: Node?, last: Node?, prev: Node?, next: Node?)

  function Fields(n: Node): Links
    reads n
  {
    Links(n.parent, n.first_child, n.last_child, n.prev_sibling, n.next_sibling)
  }

  function First(f: Forest<Node>): Node? {
    if f.Nil? then null else f.id
  }

  function Last(f: Forest<Node>): Node? {
    if f.Nil? then null else if f.right.Nil? then f.id else Last(f.right)
  }

  /** The links of node `n` in forest `f`, whose roots have parent `par` and
      follow the sibling `prev`. */
  ghost function LinkOf(f: Forest<Node>, par: Node?, prev: Node?, n: Node): Links
    requires n in Elems(f)
  {
    if f.id == n then Links(par, First(f.kids), Last(f.kids), prev, First(f.right))
    else if n in Elems(f.kids) then LinkOf(f.kids, f.id, null, n)
    else LinkOf(f.right, par, f.id, n)
  }

  /** Links of a node in a whole top-level list: no parent, no neighbours. */
  ghost function Link(f: Forest<Node>, n: Node): Links
    requires n in Elems(f)
  {
    LinkOf(f, null, null, n)
  }

  ghost predicate Linked(f: Forest<Node>)
    reads Elems(f)
  {
    NoDup(f) && forall n :: n in Elems(f) ==> Fields(n) == Link(f, n)
  }

  lemma LastIn(f: Forest<Node>)
    ensures f.Cons? ==> First(f) in Elems(f) && Last(f) in Elems(f)
  {}

  /** Links never leave the forest except through its borders. */
  lemma {:induction false} LinkRange(f: Forest<Node>, par: Node?, prev: Node?, m: Node)
    requires m in Elems(f)
    ensures var o := LinkOf(f, par, prev, m);
      && (o.parent == par || o.parent in Elems(f))
      && (o.first == null || o.first in Elems(f))
      && (o.last == null || o.last in Elems(f))
      && (o.prev == null || o.prev == prev || o.prev in Elems(f))
      && (o.next == null || o.next in Elems(f))
      && (par !in Elems(f) && o.parent == par ==> o.prev == prev || o.prev in Elems(f))
      && (o.parent != par ==> o.prev == null || o.prev in Elems(f))
      && (NoDup(f) ==> o.first != f.id && o.next != f.id)
  {
    LastIn(f.kids);
    if f.id == m {
    } else if m in Elems(f.kids) {
      LinkRange(f.kids, f.id, null, m);
    } else {
      LinkRange(f.right, par, f.id, m);
    }
  }

  /** The sibling list that starts at node `n`. */
  ghost function From<A>(f: Forest<A>, n: A): (g: Forest<A>)
    requires n in Elems(f)
    ensures g.Cons? && g.id == n && Elems(g) <= Elems(f)
    ensures NoDup(f) ==> NoDup(g)
  {
    if f.id == n then f
    else if n in Elems(f.kids) then From(f.kids, n)
    else From(f.right, n)
  }

  /** `f` with the sibling list that starts at `n` replaced by `g`. */
  ghost function Replace<A>(f: Forest<A>, n: A, g: Forest<A>): (h: Forest<A>)
    requires n in Elems(f)
  {
    if f.id == n then g
    else if n in Elems(f.kids) then Cons(f.id, Replace(f.kids, n, g), f.right)
    else Cons(f.id, f.kids, Replace(f.right, n, g))
  }

  lemma {:induction false} ReplaceElems<A>(f: Forest<A>, n: A, g: Forest<A>)
    requires NoDup(f) && n in Elems(f)
    requires NoDup(g) && Elems(g) !! Elems(f) - Elems(From(f, n))
    ensures var h := Replace(f, n, g);
      NoDup(h) && Elems(h) == Elems(f) - Elems(From(f, n)) + Elems(g)
  {
    if f.id == n {
    } else if n in Elems(f.kids) {
      ReplaceElems(f.kids, n, g);
    } else {
      ReplaceElems(f.right, n, g);
    }
  }

  /** Links inside the list from `n` depend on the rest only through its borders. */
  lemma {:induction false} FromLinks(f: Forest<Node>, par: Node?, prev: Node?, n: Node, m: Node)
    requires NoDup(f) && n in Elems(f) && m in Elems(From(f, n))
    ensures var at := LinkOf(f, par, prev, n);
      LinkOf(f, par, prev, m) == LinkOf(From(f, n), at.parent, at.prev, m)
  {
    if f.id == n {
    } else if n in Elems(f.kids) {
      FromLinks(f.kids, f.id, null, n, m);
    } else {
      FromLinks(f.right, par, f.id, n, m);
    }
  }

  /** The node before `n` that remains last when the list from `n` is cut off. */
  function LastOr(g: Forest<Node>, prev: Node?): Node? {
    if g.Nil? then prev else Last(g)
  }

  /** Links inside the new list. */
  lemma {:induction false} ReplaceLinksInside(f: Forest<Node>, par: Node?, prev: Node?, n: Node, g: Forest<Node>,
                                              m: Node)
    requires NoDup(f) && n in Elems(f) && m in Elems(g)
    requires NoDup(g) && Elems(g) !! Elems(f) - Elems(From(f, n))
    ensures m in Elems(Replace(f, n, g))
    ensures var at := LinkOf(f, par, prev, n);
      LinkOf(Replace(f, n, g), par, prev, m) == LinkOf(g, at.parent, at.prev, m)
  {
    if f.id == n {
    } else if n in Elems(f.kids) {
      assert f.id in Elems(f) - Elems(From(f, n));
      ReplaceLinksInside(f.kids, f.id, null, n, g, m);
    } else {
      ReplaceElems(f.right, n, g);
      assert Elems(f.kids) <= Elems(f) - Elems(From(f, n));
      ReplaceLinksInside(f.right, par, f.id, n, g, m);
    }
  }

  /** Links outside it: only the node before it and its parent notice. */
  lemma {:induction false} ReplaceLinksOutside(f: Forest<Node>, par: Node?, prev: Node?, n: Node, g: Forest<Node>,
                                               m: Node)
    requires NoDup(f) && n in Elems(f) && m in Elems(f) && m !in Elems(From(f, n))
    requires NoDup(g) && Elems(g) !! Elems(f) - Elems(From(f, n))
    requires par !in Elems(f) && prev !in Elems(f)
    ensures m in Elems(Replace(f, n, g))
    ensures LinkOf(Replace(f, n, g), par, prev, m) ==
            Adjusted(LinkOf(f, par, prev, m), LinkOf(f, par, prev, n), n, g, m)
  {
    ReplaceElems(f, n, g);
    if m == f.id {
      ReplaceLinksOwner(f, par, prev, n, g);
    } else if n in Elems(f.kids) {
      var k := Replace(f.kids, n, g);
      ReplaceElems(f.kids, n, g);
      if m in Elems(f.kids) {
        ReplaceLinksOutside(f.kids, f.id, null, n, g, m);
      } else {
        LinkRange(f.kids, f.id, null, n);
        LinkRange(f.right, par, f.id, m);
        assert m !in Elems(k);
      }
    } else if m in Elems(f.right) {
      ReplaceLinksOutside(f.right, par, f.id, n, g, m);
    } else {
      LinkRange(f.right, par, f.id, n);
      LinkRange(f.kids, f.id, null, m);
    }
  }

  ghost function Adjusted(o: Links, at: Links, n: Node, g: Forest<Node>, m: Node): Links {
    o.(next := if o.next == n then First(g) else o.next,
       first := if o.first == n then First(g) else o.first,
       last := if m == at.parent then LastOr(g, at.prev) else o.last)
  }

  lemma ReplaceLinksOwner(f: Forest<Node>, par: Node?, prev: Node?, n: Node, g: Forest<Node>)
    requires NoDup(f) && n in Elems(f) && f.id != n
    requires par !in Elems(f) && prev !in Elems(f)
    ensures LinkOf(Replace(f, n, g), par, prev, f.id) ==
            Adjusted(LinkOf(f, par, prev, f.id), LinkOf(f, par, prev, n), n, g, f.id)
  {
    if n in Elems(f.kids) {
      LinkRange(f.kids, f.id, null, n);
      ReplaceLast(f.kids, f.id, null, n, g);
    } else {
      LinkRange(f.right, par, f.id, n);
    }
  }

  /** What is last in a sibling list after such a replacement. */
  lemma {:induction false} ReplaceLast(f: Forest<Node>, par: Node?, prev: Node?, n: Node, g: Forest<Node>)
    requires NoDup(f) && n in Elems(f) && par !in Elems(f)
    ensures var at := LinkOf(f, par, prev, n);
      LastOr(Replace(f, n, g), prev) == if at.parent == par then LastOr(g, at.prev) else LastOr(f, prev)
  {
    if f.id == n {
    } else if n in Elems(f.kids) {
      LinkRange(f.kids, f.id, null, n);
    } else {
      ReplaceLast(f.right, par, f.id, n, g);
    }
  }

  /** The three lemmas above for a whole list. */
  lemma ReplaceLinks(f: Forest<Node>, n: Node, g: Forest<Node>, m: Node)
    requires NoDup(f) && n in Elems(f) && m in Elems(f) - Elems(From(f, n)) + Elems(g)
    requires NoDup(g) && Elems(g) !! Elems(f) - Elems(From(f, n))
    ensures m in Elems(Replace(f, n, g))
    ensures var at := Link(f, n);
      Link(Replace(f, n, g), m) ==
      if m in Elems(g) then LinkOf(g, at.parent, at.prev, m)
      else Adjusted(Link(f, m), at, n, g, m)
  {
    if m in Elems(g) {
      ReplaceLinksInside(f, null, null, n, g, m);
    } else {
      ReplaceLinksOutside(f, null, null, n, g, m);
    }
  }

  lemma {:induction false} FromReplace<A>(f: Forest<A>, n: A, g: Forest<A>, m: A)
    requires NoDup(f) && n in Elems(f)
    requires NoDup(g) && Elems(g) !! Elems(f) - Elems(From(f, n))
    requires m in Elems(f) - Elems(From(f, n)) + Elems(g)
    ensures m in Elems(Replace(f, n, g))
    ensures From(Replace(f, n, g), m) ==
            if m in Elems(g) then From(g, m)
            else if n in Elems(From(f, m)) then Replace(From(f, m), n, g) else From(f, m)
  {
    ReplaceElems(f, n, g);
    if f.id == n || m == f.id {
    } else if n in Elems(f.kids) {
      ReplaceElems(f.kids, n, g);
      if m in Elems(Replace(f.kids, n, g)) {
        FromReplace(f.kids, n, g, m);
      }
    } else {
      ReplaceElems(f.right, n, g);
      if m in Elems(Replace(f.right, n, g)) {
        FromReplace(f.right, n, g, m);
      }
    }
  }

  /** The five links of two nodes agree with each other: the consistency that
      a doubly linked tree promises. */
  lemma {:induction false} LinksAgree(f: Forest<Node>, par: Node?, prev: Node?, n: Node, m: Node)
    requires NoDup(f) && n in Elems(f) && m in Elems(f)
    requires par !in Elems(f) && prev !in Elems(f)
    ensures var a, o := LinkOf(f, par, prev, n), LinkOf(f, par, prev, m);
      && (o.next == n <==> a.prev == m)
      && (o.first == n <==> a.parent == m && a.prev == null)
      && (o.last == n <==> a.parent == m && a.next == null)
  {
    if n in Elems(f.kids) {
      LinkRange(f.kids, f.id, null, n);
      if m in Elems(f.kids) {
        LinksAgree(f.kids, f.id, null, n, m);
      } else if m in Elems(f.right) {
        LinkRange(f.right, par, f.id, m);
      } else {
        FirstLast(f.kids, f.id, null, n);
      }
    } else if n in Elems(f.right) {
      LinkRange(f.right, par, f.id, n);
      if m in Elems(f.right) {
        LinksAgree(f.right, par, f.id, n, m);
      } else if m in Elems(f.kids) {
        LinkRange(f.kids, f.id, null, m);
      } else {
        LastIn(f.kids);
        FirstLast(f.right, par, f.id, n);
      }
    } else if m in Elems(f.kids) {
      LinkRange(f.kids, f.id, null, m);
    } else if m in Elems(f.right) {
      LinkRange(f.right, par, f.id, m);
    } else {
      LastIn(f.kids);
    }
  }

  lemma {:induction false} FirstLast(f: Forest<Node>, par: Node?, prev: Node?, n: Node)
    requires NoDup(f) && n in Elems(f) && par !in Elems(f) && prev !in Elems(f)
    ensures var a := LinkOf(f, par, prev, n);
      && (First(f) == n <==> a.parent == par && a.prev == prev)
      && (Last(f) == n <==> a.parent == par && a.next == null)
  {
    LastIn(f.right);
    if n in Elems(f.kids) {
      LinkRange(f.kids, f.id, null, n);
    } else if n in Elems(f.right) {
      LinkRange(f.right, par, f.id, n);
      FirstLast(f.right, par, f.id, n);
    }
  }

  lemma {:induction false} ReplaceSame<A>(f: Forest<A>, n: A)
    requires n in Elems(f)
    ensures Replace(f, n, From(f, n)) == f
  {
    if f.id == n {
    } else if n in Elems(f.kids) {
      ReplaceSame(f.kids, n);
    } else {
      ReplaceSame(f.right, n);
    }
  }

  lemma ParentLast(f: Forest<Node>, n: Node)
    requires NoDup(f) && n in Elems(f) && Link(f, n).parent != null
    ensures var p := Link(f, n).parent;
      p in Elems(f) && p !in Elems(From(f, n)) && Link(f, p).last == Last(From(f, n))
  {
    var at := Link(f, n);
    LinkRange(f, null, null, n);
    ParentOutside(f, null, null, n);
    ReplaceSame(f, n);
    ReplaceLinks(f, n, From(f, n), at.parent);
  }

  lemma {:induction false} ParentOutside(f: Forest<Node>, par: Node?, prev: Node?, n: Node)
    requires NoDup(f) && n in Elems(f) && par !in Elems(f) && prev !in Elems(f)
    ensures var a := LinkOf(f, par, prev, n);
      a.parent !in Elems(From(f, n)) && a.prev !in Elems(From(f, n))
  {
    if n in Elems(f.kids) {
      ParentOutside(f.kids, f.id, null, n);
    } else if n in Elems(f.right) {
      ParentOutside(f.right, par, f.id, n);
    }
  }

  /** Putting node `x` with children `k` in front of `pos`. */
  ghost function Inserted(f: Forest<Node>, pos: Node, x: Node, k: Forest<Node>): Forest<Node>
    requires pos in Elems(f)
  {
    Replace(f, pos, Cons(x, k, From(f, pos)))
  }

  lemma InsertedElems(f: Forest<Node>, pos: Node, x: Node, k: Forest<Node>)
    requires NoDup(f) && pos in Elems(f)
    requires x !in Elems(f) && x !in Elems(k) && NoDup(k) && Elems(k) !! Elems(f)
    ensures NoDup(Inserted(f, pos, x, k))
    ensures Elems(Inserted(f, pos, x, k)) == Elems(f) + {x} + Elems(k)
  {
    ReplaceElems(f, pos, Cons(x, k, From(f, pos)));
  }

  lemma InsertedLinks(f: Forest<Node>, pos: Node, x: Node, k: Forest<Node>, m: Node)
    requires NoDup(f) && pos in Elems(f)
    requires x !in Elems(f) && x !in Elems(k) && NoDup(k) && Elems(k) !! Elems(f)
    requires m in Elems(f) + {x} + Elems(k)
    ensures m in Elems(Inserted(f, pos, x, k))
    ensures Link(Inserted(f, pos, x, k), m) == InsertedLink(f, pos, x, k, m)
  {
    InsertedElems(f, pos, x, k);
    var h, at := From(f, pos), Link(f, pos);
    var g := Cons(x, k, h);
    ReplaceLinks(f, pos, g, m);
    if m in Elems(f) {
      LinksAgree(f, null, null, pos, m);
    }
    if m == at.parent {
      ParentLast(f, pos);
    }
    if m in Elems(h) {
      FromLinks(f, null, null, pos, m);
      LinkRange(h, at.parent, at.prev, m);
      assert LinkOf(g, at.parent, at.prev, m) == LinkOf(h, at.parent, x, m);
    }
  }

  ghost function InsertedLink(f: Forest<Node>, pos: Node, x: Node, k: Forest<Node>, m: Node): Links
    requires pos in Elems(f) && m in Elems(f) + {x} + Elems(k)
  {
    var at := Link(f, pos);
    if m == x then Links(at.parent, First(k), Last(k), at.prev, pos)
    else if m in Elems(k) then LinkOf(k, x, null, m)
    else Link(f, m).(
      prev := if m == pos then x else Link(f, m).prev,
      next := if m == at.prev then x else Link(f, m).next,
      first := if m == at.parent && at.prev == null then x else Link(f, m).first)
  }

  /** A whole list: it starts with the childless `head` and ends with the
      childless `feet`. */
  ghost predicate Framed(f: Forest<Node>, head: Node, feet: Node) {
    && NoDup(f) && f.Cons? && f.id == head && f.kids == Nil
    && feet in Elems(f.right)
    && From(f, feet) == Cons(feet, Nil, Nil)
    && Link(f, feet).parent == null
  }

  /** The trees proper: the list without its first and last node. */
  function Body(f: Forest<Node>): Forest<Node>
    requires f.Cons?
  {
    DropLast(f.right)
  }

  function DropLast(f: Forest<Node>): Forest<Node> {
    if f.Nil? || f.right.Nil? then Nil else Cons(f.id, f.kids, DropLast(f.right))
  }

  lemma FramedShape(f: Forest<Node>, head: Node, feet: Node)
    requires Framed(f, head, feet)
    ensures f == Cons(head, Nil, Append(Body(f), Cons(feet, Nil, Nil)))
  {
    DropLastShape(f.right, null, head, feet);
  }

  lemma {:induction false} DropLastShape(f: Forest<Node>, par: Node?, prev: Node?, feet: Node)
    requires NoDup(f) && feet in Elems(f) && par !in Elems(f)
    requires From(f, feet) == Cons(feet, Nil, Nil) && LinkOf(f, par, prev, feet).parent == par
    ensures f == Append(DropLast(f), Cons(feet, Nil, Nil))
  {
    if feet in Elems(f.kids) {
      LinkRange(f.kids, f.id, null, feet);
    } else if f.id != feet {
      DropLastShape(f.right, par, f.id, feet);
    }
  }

  /** First child, last child and next sibling can be read off the list from `n`. */
  lemma {:induction false} LinkShape(f: Forest<Node>, par: Node?, prev: Node?, n: Node)
    requires NoDup(f) && n in Elems(f)
    ensures var o, g := LinkOf(f, par, prev, n), From(f, n);
      && o.first == First(g.kids) && o.last == Last(g.kids) && o.next == First(g.right)
      && (g.kids.Cons? ==> o.first in Elems(f) && From(f, g.kids.id) == g.kids)
      && (g.right.Cons? ==> o.next in Elems(f) && From(f, g.right.id) == g.right)
  {
    if f.id == n {
    } else if n in Elems(f.kids) {
      LinkShape(f.kids, f.id, null, n);
    } else {
      LinkShape(f.right, par, f.id, n);
    }
  }

  lemma FramedEnds(f: Forest<Node>, head: Node, feet: Node)
    requires Framed(f, head, feet)
    ensures head in Elems(f) && feet in Elems(f) && head != feet
    ensures var o := Link(f, head);
      o.parent == null && o.first == null && o.last == null && o.prev == null && o.next != null
    ensures var o := Link(f, feet);
      o.parent == null && o.first == null && o.last == null && o.prev != null && o.next == null
  {
    LinkShape(f, null, null, feet);
    FirstLast(f, null, null, feet);
  }

  lemma EmptyFramed(head: Node, feet: Node)
    requires head != feet
    ensures var f := Cons(head, Nil, Cons(feet, Nil, Nil));
      && Framed(f, head, feet) && Elems(f) == {head, feet}
      && Link(f, head) == Links(null, null, null, null, feet)
      && Link(f, feet) == Links(null, null, null, head, null)
  {
    var g := Cons(feet, Nil, Nil);
    assert Elems(g) == {feet};
    var f := Cons(head, Nil, g);
    assert From(f, feet) == From(g, feet) == g;
    assert Link(f, feet) == LinkOf(g, null, head, feet);
  }

  lemma {:induction false} FromFrom<A>(f: Forest<A>, n: A, m: A)
    requires NoDup(f) && n in Elems(f) && m in Elems(From(f, n))
    ensures From(From(f, n), m) == From(f, m)
  {
    if f.id == n {
    } else if n in Elems(f.kids) {
      FromFrom(f.kids, n, m);
    } else {
      FromFrom(f.right, n, m);
    }
  }

  /** A list stays framed when the part from `pos` is replaced by one that
      still ends with `feet`, if it did. */
  lemma ReplaceFramed(f: Forest<Node>, pos: Node, g: Forest<Node>, head: Node, feet: Node)
    requires Framed(f, head, feet) && pos in Elems(f) && pos != head
    requires NoDup(g) && Elems(g) !! Elems(f) - Elems(From(f, pos))
    requires feet in Elems(From(f, pos)) ==>
      feet in Elems(g) && From(g, feet) == Cons(feet, Nil, Nil) &&
      LinkOf(g, Link(f, pos).parent, Link(f, pos).prev, feet).parent == null
    requires feet in Elems(g) ==> feet in Elems(From(f, pos))
    ensures Framed(Replace(f, pos, g), head, feet)
  {
    ReplaceElems(f, pos, g);
    ReplaceLinks(f, pos, g, feet);
    FromReplace(f, pos, g, feet);
  }

  lemma InsertedFramed(f: Forest<Node>, pos: Node, x: Node, k: Forest<Node>, head: Node, feet: Node)
    requires Framed(f, head, feet) && pos in Elems(f) && pos != head
    requires x !in Elems(f) && x !in Elems(k) && NoDup(k) && Elems(k) !! Elems(f)
    ensures Framed(Inserted(f, pos, x, k), head, feet)
  {
    InsertedElems(f, pos, x, k);
    InsertedLinks(f, pos, x, k, feet);
    FromReplace(f, pos, Cons(x, k, From(f, pos)), feet);
    if feet in Elems(From(f, pos)) {
      FromFrom(f, pos, feet);
    }
  }

  /** Neighbours of a node are in the forest and are different nodes. */
  lemma Neighbours(f: Forest<Node>, m: Node)
    requires NoDup(f) && m in Elems(f)
    ensures var o := Link(f, m);
      && (o.parent == null || o.parent in Elems(f))
      && (o.first == null || o.first in Elems(f))
      && (o.last == null || o.last in Elems(f))
      && (o.prev == null || o.prev in Elems(f))
      && (o.next == null || o.next in Elems(f))
      && o.parent != m && o.prev != m && o.next != m && o.first != m && o.last != m
      && (o.parent != null ==> o.parent != o.prev && o.parent != o.next)
      && (o.prev != null ==> o.prev != o.next)
  {
    LinkRange(f, null, null, m);
    NeighboursDiffer(f, null, null, m);
  }

  lemma {:induction false} NeighboursDiffer(f: Forest<Node>, par: Node?, prev: Node?, m: Node)
    requires NoDup(f) && m in Elems(f) && par !in Elems(f) && prev !in Elems(f)
    requires par != null ==> par != prev
    ensures var o := LinkOf(f, par, prev, m);
      && o.parent != m && o.prev != m && o.next != m && o.first != m && o.last != m
      && (o.parent != null ==> o.parent != o.prev && o.parent != o.next)
      && (o.prev != null ==> o.prev != o.next)
  {
    if m in Elems(f.kids) {
      NeighboursDiffer(f.kids, f.id, null, m);
    } else if m in Elems(f.right) {
      NeighboursDiffer(f.right, par, f.id, m);
    } else {
      LastIn(f.kids);
    }
  }

  /** How the links of an old node `m` change when `x` goes in front of `pos`. */
  function Patched(o: Links, m: Node, at: Links, pos: Node, x: Node): Links {
    Links(o.parent,
          if m == at.parent && at.prev == null then x else o.first,
          o.last,
          if m == pos then x else o.prev,
          if m == at.prev then x else o.next)
  }

  /** Everything the insertion of a leaf has to establish. */
  lemma LeafInserted(f: Forest<Node>, pos: Node, x: Node, head: Node, feet: Node)
    requires Framed(f, head, feet) && pos in Elems(f) && pos != head && x !in Elems(f)
    ensures var h := Inserted(f, pos, x, Nil);
      && Framed(h, head, feet)
      && Elems(h) == Elems(f) + {x}
      && Link(h, x) == Links(Link(f, pos).parent, null, null, Link(f, pos).prev, pos)
      && forall m :: m in Elems(f) ==> Link(h, m) == Patched(Link(f, m), m, Link(f, pos), pos, x)
  {
    InsertedElems(f, pos, x, Nil);
    InsertedFramed(f, pos, x, Nil, head, feet);
    forall m | m in Elems(f) + {x}
      ensures Link(Inserted(f, pos, x, Nil), m) == InsertedLink(f, pos, x, Nil, m)
    {
      InsertedLinks(f, pos, x, Nil, m);
    }
  }
}
