/** The same sibling trees in another order, and what that does to links. */
module TreeRearrange {
  import opened Forests
  import opened TreeLinks
  import opened TreeEdits
  import opened TreeFlatten
  import opened TreeReparent

  /** `p` has the trees of `s`, in any order. */
  ghost predicate Shuffled(s: Forest<Node>, p: Forest<Node>) {
    && NoDup(s) && NoDup(p) && Elems(s) == Elems(p)
    && multiset(Roots(s)) == multiset(Roots(p))
    && forall x :: x in Roots(s) ==> x in multiset(Roots(p)) && Below(s, x) == Below(p, x)
  }

  lemma ShuffledRoots(s: Forest<Node>, p: Forest<Node>)
    requires Shuffled(s, p)
    ensures |Roots(s)| == |Roots(p)| && forall x: Node :: x in Roots(s) <==> x in Roots(p)
  {
    assert |multiset(Roots(s))| == |multiset(Roots(p))|;
    forall x: Node
      ensures x in Roots(s) <==> x in Roots(p)
    {
      assert x in multiset(Roots(s)) <==> x in multiset(Roots(p));
    }
  }

  /** The links of the j-th root of a sibling list. */
  ghost function RootLinks(s: Forest<Node>, par: Node?, prev: Node?, j: nat): Links
    requires j < |Roots(s)|
  {
    var q := Roots(s);
    var k := Below(s, q[j]);
    Links(par, First(k), Last(k), PrevIn(q, prev, j), NextIn(q, null, j))
  }

  function PrevIn(q: seq<Node>, prev: Node?, j: nat): Node?
    requires j < |q|
  {
    if j == 0 then prev else q[j - 1]
  }

  function NextIn(q: seq<Node>, next: Node?, j: nat): Node?
    requires j < |q|
  {
    if j == |q| - 1 then next else q[j + 1]
  }

  lemma {:induction false} RootAt(s: Forest<Node>, par: Node?, prev: Node?, j: nat)
    requires NoDup(s) && j < |Roots(s)|
    ensures Roots(s)[j] in Elems(s) && LinkOf(s, par, prev, Roots(s)[j]) == RootLinks(s, par, prev, j)
  {
    RootsIn(s.right);
    assert s.right.Cons? ==> Roots(s)[1] == s.right.id;
    if j > 0 {
      RootAt(s.right, par, s.id, j - 1);
      assert Roots(s)[j] == Roots(s.right)[j - 1];
    }
  }

  /** The root of the tree that `m` is in. */
  ghost function RootOver(s: Forest<Node>, m: Node): Node
    requires m in Elems(s)
  {
    if m == s.id || m in Elems(s.kids) then s.id else RootOver(s.right, m)
  }

  lemma {:induction false} RootIsOver(s: Forest<Node>, m: Node)
    requires NoDup(s) && m in Elems(s)
    ensures var x := RootOver(s, m);
      x in Roots(s) && (m == x || m in Elems(Below(s, x))) && (m == x <==> m in Roots(s))
  {
    RootsIn(s.right);
    if m != s.id && m !in Elems(s.kids) {
      RootIsOver(s.right, m);
    }
  }

  lemma {:induction false} LinkBelow(s: Forest<Node>, par: Node?, prev: Node?, x: Node, m: Node)
    requires NoDup(s) && x in Roots(s) && m in Elems(Below(s, x))
    ensures m in Elems(s) && m !in Roots(s) && LinkOf(s, par, prev, m) == LinkOf(Below(s, x), x, null, m)
  {
    RootsIn(s.right);
    if s.id != x {
      LinkBelow(s.right, par, s.id, x, m);
    }
  }

  /** Below the roots nothing changes. */
  lemma ShuffledBelow(s: Forest<Node>, p: Forest<Node>, par: Node?, prev: Node?, m: Node)
    requires Shuffled(s, p) && m in Elems(s) && m !in Roots(s)
    ensures m in Elems(p) && m !in Roots(p) && LinkOf(p, par, prev, m) == LinkOf(s, par, prev, m)
  {
    var x := RootOver(s, m);
    RootIsOver(s, m);
    ShuffledRoots(s, p);
    LinkBelow(s, par, prev, x, m);
    LinkBelow(p, par, prev, x, m);
  }

  /** The list with the siblings from `first` up to `r` in the order of `p`. */
  ghost function Rearranged<A>(f: Forest<A>, first: A, p: Forest<A>, r: Forest<A>): Forest<A>
    requires first in Elems(f)
  {
    Replace(f, first, Append(p, r))
  }

  lemma RearrangedElems(f: Forest<Node>, first: Node, last: Node, s: Forest<Node>, r: Forest<Node>, p: Forest<Node>)
    requires Range(f, first, last, s, r) && Shuffled(s, p)
    ensures NoDup(p) && Elems(p) !! Elems(r) && NoDup(Append(p, r)) && Elems(Append(p, r)) == Elems(From(f, first))
    ensures NoDup(Rearranged(f, first, p, r)) && Elems(Rearranged(f, first, p, r)) == Elems(f)
  {
    RangeParts(f, first, last, s, r);
    AppendNoDup(p, r);
    ReplaceElems(f, first, Append(p, r));
  }

  lemma RootInAppend(p: Forest<Node>, r: Forest<Node>, par: Node?, prev: Node?, j: nat)
    requires NoDup(p) && NoDup(r) && Elems(p) !! Elems(r) && par !in Elems(p) && j < |Roots(p)|
    ensures Roots(p)[j] in Elems(p) && Roots(p)[j] in Elems(Append(p, r))
    ensures LinkOf(Append(p, r), par, prev, Roots(p)[j]) ==
      RootLinks(p, par, prev, j).(next := NextIn(Roots(p), First(r), j))
  {
    RootAt(p, par, prev, j);
    AppendLinks(p, r, par, prev, Roots(p)[j]);
  }

  /** The links of a root at its new place. */
  lemma RearrangedRoot(f: Forest<Node>, first: Node, last: Node, s: Forest<Node>, r: Forest<Node>, p: Forest<Node>,
                       j: nat)
    requires Range(f, first, last, s, r) && Shuffled(s, p) && j < |Roots(p)|
    ensures Roots(p)[j] in Elems(f) && Roots(p)[j] in Elems(Replace(f, first, Append(p, r)))
    ensures var q, o := Roots(p), Link(f, Roots(p)[j]);
      && o.parent == Link(f, first).parent
      && Link(Replace(f, first, Append(p, r)), q[j]) ==
        o.(prev := PrevIn(q, Link(f, first).prev, j), next := NextIn(q, First(r), j))
  {
    var a, q := Link(f, first), Roots(p);
    var x := q[j];
    RearrangedElems(f, first, last, s, r, p);
    RangeBefore(f, first, last, s, r);
    RangeParts(f, first, last, s, r);
    RangeIs(f, first, last, s, r);
    RootsAgree(s, p, j);
    hide Elems, NoDup, LinkOf, Roots, Replace, Append, From, Below, Shuffled, Range, First, Last;
    var i: nat :| i < |Roots(s)| && Roots(s)[i] == x;
    RootInAppend(s, r, a.parent, a.prev, i);
    RootInAppend(p, r, a.parent, a.prev, j);
    FromLinks(f, null, null, first, x);
    ReplaceLinks(f, first, Append(p, r), x);
  }

  lemma RangeIs(f: Forest<Node>, first: Node, last: Node, s: Forest<Node>, r: Forest<Node>)
    requires Range(f, first, last, s, r)
    ensures NoDup(f) && From(f, first) == Append(s, r) && Elems(From(f, first)) <= Elems(f)
  {}

  lemma RootsAgree(s: Forest<Node>, p: Forest<Node>, j: nat)
    requires Shuffled(s, p) && j < |Roots(p)|
    ensures var x := Roots(p)[j];
      x in Roots(s) && x in Elems(s) && x in Elems(p) && Below(s, x) == Below(p, x)
  {
    RootsIn(p);
    ShuffledRoot(s, p, Roots(p)[j]);
  }

  lemma ShuffledRoot(s: Forest<Node>, p: Forest<Node>, x: Node)
    requires Shuffled(s, p) && x in Roots(p)
    ensures x in Roots(s) && x in Elems(s) && Below(s, x) == Below(p, x)
  {
    RootsIn(s);
    assert x in multiset(Roots(p));
    hide Elems, NoDup, Roots, Below;
  }

  /** The links of all other nodes. */
  function BorderLink(o: Links, m: Node, first: Node, a: Links, after: Node?, q: seq<Node>): Links
    requires |q| > 0
  {
    Links(o.parent,
          if o.first == first then q[0] else o.first,
          if m == a.parent && after == null then q[|q| - 1] else o.last,
          if m == after then q[|q| - 1] else o.prev,
          if o.next == first then q[0] else o.next)
  }

  lemma {:induction false} RowBounds(p: Forest<Node>)
    requires p.Cons?
    ensures |Roots(p)| > 0 && First(p) == Roots(p)[0] && Last(p) == Roots(p)[|Roots(p)| - 1]
  {
    if p.right.Cons? {
      RowBounds(p.right);
    }
  }

  lemma RearrangedOther(f: Forest<Node>, first: Node, last: Node, s: Forest<Node>, r: Forest<Node>, p: Forest<Node>,
                        m: Node)
    requires Range(f, first, last, s, r) && Shuffled(s, p) && m in Elems(f) && m !in Roots(p)
    ensures p.Cons? && |Roots(p)| > 0 && m in Elems(Rearranged(f, first, p, r))
    ensures Link(Rearranged(f, first, p, r), m) == BorderLink(Link(f, m), m, first, Link(f, first), First(r), Roots(p))
  {
    var a := Link(f, first);
    RearrangedElems(f, first, last, s, r, p);
    RangeEnds(f, first, last, s, r);
    ShuffledRoots(s, p);
    ReplaceLinks(f, first, Append(p, r), m);
    RowBounds(p);
    if m in Elems(s) {
      RearrangedInside(f, first, last, s, r, p, m);
    } else if m in Elems(r) {
      RearrangedRight(f, first, last, s, r, p, m);
    } else {
      RearrangedLeft(f, first, last, s, r, p, m);
    }
  }

  lemma RearrangedInside(f: Forest<Node>, first: Node, last: Node, s: Forest<Node>, r: Forest<Node>, p: Forest<Node>,
                         m: Node)
    requires Range(f, first, last, s, r) && Shuffled(s, p) && m in Elems(s) && m !in Roots(s)
    ensures var a := Link(f, first);
      && m in Elems(f) && m in Elems(Append(p, r)) && |Roots(p)| > 0
      && LinkOf(Append(p, r), a.parent, a.prev, m) == BorderLink(Link(f, m), m, first, a, First(r), Roots(p))
  {
    var a := Link(f, first);
    RearrangedElems(f, first, last, s, r, p);
    RangeEnds(f, first, last, s, r);
    ShuffledRoots(s, p);
    FromLinks(f, null, null, first, m);
    AppendLinks(s, r, a.parent, a.prev, m);
    AppendLinks(p, r, a.parent, a.prev, m);
    ShuffledBelow(s, p, a.parent, a.prev, m);
    Rebordered(s, a.parent, a.prev, a.parent, a.prev, m);
    LinkTriple(f, first, m);
    LinkRange(s, a.parent, a.prev, m);
    FirstLast(s, a.parent, a.prev, m);
  }

  lemma RearrangedRight(f: Forest<Node>, first: Node, last: Node, s: Forest<Node>, r: Forest<Node>, p: Forest<Node>,
                        m: Node)
    requires Range(f, first, last, s, r) && Shuffled(s, p) && m in Elems(r)
    ensures var a := Link(f, first);
      && m in Elems(f) && m in Elems(Append(p, r)) && |Roots(p)| > 0
      && LinkOf(Append(p, r), a.parent, a.prev, m) == BorderLink(Link(f, m), m, first, a, First(r), Roots(p))
  {
    var a := Link(f, first);
    RearrangedElems(f, first, last, s, r, p);
    RangeEnds(f, first, last, s, r);
    RowBounds(p);
    FromLinks(f, null, null, first, m);
    AppendLinks(s, r, a.parent, a.prev, m);
    AppendLinks(p, r, a.parent, a.prev, m);
    PrevShift(r, a.parent, last, Last(p), m);
    LinkRange(r, a.parent, last, m);
    LinkTriple(f, first, m);
  }

  /** The borders of the new list. */
  lemma NewEnds(p: Forest<Node>, r: Forest<Node>, prev: Node?)
    requires p.Cons?
    ensures |Roots(p)| > 0 && First(Append(p, r)) == Roots(p)[0]
    ensures LastOr(Append(p, r), prev) == if First(r) == null then Roots(p)[|Roots(p)| - 1] else Last(r)
  {
    RowBounds(p);
    LastAppend(p, r);
  }

  lemma AdjustedAround(o: Links, at: Links, first: Node, s: Forest<Node>, r: Forest<Node>, p: Forest<Node>, m: Node)
    requires p.Cons? && First(r) != m && (m == at.parent ==> o.last == Last(Append(s, r)))
    ensures |Roots(p)| > 0 && Adjusted(o, at, first, Append(p, r), m) == BorderLink(o, m, first, at, First(r), Roots(p))
  {
    NewEnds(p, r, at.prev);
    LastAppend(s, r);
    hide Append, Roots;
  }

  lemma RearrangedLeft(f: Forest<Node>, first: Node, last: Node, s: Forest<Node>, r: Forest<Node>, p: Forest<Node>,
                       m: Node)
    requires Range(f, first, last, s, r) && Shuffled(s, p) && m in Elems(f) && m !in Elems(s) + Elems(r)
    ensures |Roots(p)| > 0
    ensures Adjusted(Link(f, m), Link(f, first), first, Append(p, r), m) ==
            BorderLink(Link(f, m), m, first, Link(f, first), First(r), Roots(p))
  {
    RangeEnds(f, first, last, s, r);
    LastIn(r);
    assert p.Cons? && From(f, first) == Append(s, r) && NoDup(f);
    hide *;
    if m == Link(f, first).parent {
      ParentLast(f, first);
    }
    AdjustedAround(Link(f, m), Link(f, first), first, s, r, p, m);
  }

  lemma RearrangedFramed(f: Forest<Node>, first: Node, last: Node, s: Forest<Node>, r: Forest<Node>, p: Forest<Node>,
                         head: Node, feet: Node)
    requires Range(f, first, last, s, r) && Shuffled(s, p) && Framed(f, head, feet) && first != head
    requires feet !in Elems(s)
    ensures Framed(Rearranged(f, first, p, r), head, feet)
  {
    var a := Link(f, first);
    RearrangedElems(f, first, last, s, r, p);
    RangeEnds(f, first, last, s, r);
    if feet in Elems(From(f, first)) {
      FromFrom(f, first, feet);
      FromAppendRight(s, r, feet);
      FromAppendRight(p, r, feet);
      AppendLinks(s, r, a.parent, a.prev, feet);
      AppendLinks(p, r, a.parent, a.prev, feet);
      FromLinks(f, null, null, first, feet);
      Rebordered(r, a.parent, Last(s), a.parent, Last(p), feet);
    }
    ReplaceFramed(f, first, Append(p, r), head, feet);
  }
}
