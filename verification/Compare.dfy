/** Structural comparison of subtrees by a lockstep pre-order walk. */
module TreeCompare {
  import opened Forests
  import opened TreeLinks
  import opened TreeEdits
  import opened Traversals
  import opened Trees
  import opened TreeQueries

  /** The forest of the data stored at the nodes. */
  ghost function Labels(f: Forest<Node>): Forest<Value>
    reads Elems(f)
  {
    match f
    case Nil => Nil
    case Cons(n, k, r) => Cons(n.data, Labels(k), Labels(r))
  }

  /** What the walk looks at: the label and the number of children of each
      node, in pre-order. */
  function Code<A>(f: Forest<A>): seq<(A, nat)> {
    match f
    case Nil => []
    case Cons(v, k, r) => [(v, |Roots(k)|)] + Code(k) + Code(r)
  }

  /** The code is prefix-free for a given number of roots, hence injective. */
  lemma {:induction false} CodeInjective<A>(f: Forest<A>, g: Forest<A>, x: seq<(A, nat)>, y: seq<(A, nat)>)
    requires |Roots(f)| == |Roots(g)| && Code(f) + x == Code(g) + y
    ensures f == g && x == y
  {
    if f.Nil? {
      assert x == Code(f) + x && y == Code(g) + y;
    } else {
      var tf, tg := Code(f.right) + x, Code(g.right) + y;
      assert Code(f) + x == [(f.id, |Roots(f.kids)|)] + (Code(f.kids) + tf);
      assert Code(g) + y == [(g.id, |Roots(g.kids)|)] + (Code(g.kids) + tg);
      assert (Code(f) + x)[0] == (Code(g) + y)[0];
      assert Code(f.kids) + tf == (Code(f) + x)[1..] == Code(g.kids) + tg;
      CodeInjective(f.kids, g.kids, tf, tg);
      CodeInjective(f.right, g.right, x, y);
    }
  }

  /** One code entry, read from the heap. */
  ghost function Entry(f: Forest<Node>, n: Node): (Value, nat)
    requires n in Elems(f)
    reads n
  {
    (n.data, |Roots(From(f, n).kids)|)
  }

  lemma RootsLabels(f: Forest<Node>)
    ensures |Roots(Labels(f))| == |Roots(f)|
  {}

  lemma {:induction false} PreOrderElems<A>(f: Forest<A>)
    ensures forall n :: n in PreOrder(f) <==> n in Elems(f)
  {
    if f.Cons? {
      PreOrderElems(f.kids);
      PreOrderElems(f.right);
    }
  }

  lemma {:induction false} CodeLength(f: Forest<Node>)
    ensures |Code(Labels(f))| == |PreOrder(f)|
  {
    if f.Cons? {
      CodeLength(f.kids);
      CodeLength(f.right);
    }
  }

  lemma {:induction false} CodeEntries(f: Forest<Node>, i: nat)
    requires NoDup(f) && i < |PreOrder(f)|
    ensures |Code(Labels(f))| == |PreOrder(f)|
    ensures PreOrder(f)[i] in Elems(f) && Code(Labels(f))[i] == Entry(f, PreOrder(f)[i])
  {
    hide Elems, Entry;
    CodeLength(f);
    CodeLength(f.kids);
    CodeLength(f.right);
    var k := |PreOrder(f.kids)|;
    PreOrderElems(f);
    assert PreOrder(f)[i] in PreOrder(f);
    if i == 0 {
      RootsLabels(f.kids);
      assert Code(Labels(f))[0] == (f.id.data, |Roots(f.kids)|);
      EntryHead(f);
    } else if i <= k {
      CodeEntries(f.kids, i - 1);
      assert PreOrder(f)[i] == PreOrder(f.kids)[i - 1];
      EntryKids(f, PreOrder(f)[i]);
      assert Code(Labels(f))[i] == Code(Labels(f.kids))[i - 1];
    } else {
      CodeEntries(f.right, i - 1 - k);
      assert PreOrder(f)[i] == PreOrder(f.right)[i - 1 - k];
      EntryRight(f, PreOrder(f)[i]);
      assert Code(Labels(f))[i] == Code(Labels(f.right))[i - 1 - k];
    }
  }

  lemma EntryHead(f: Forest<Node>)
    requires f.Cons?
    ensures f.id in Elems(f) && Entry(f, f.id) == (f.id.data, |Roots(f.kids)|)
  {}

  lemma EntryKids(f: Forest<Node>, n: Node)
    requires NoDup(f) && f.Cons? && n in Elems(f.kids)
    ensures n in Elems(f) && Entry(f, n) == Entry(f.kids, n)
  {}

  lemma EntryRight(f: Forest<Node>, n: Node)
    requires NoDup(f) && f.Cons? && n in Elems(f.right)
    ensures n in Elems(f) && Entry(f, n) == Entry(f.right, n)
  {}

  /** number_of_children(it) */
  method NumberOfChildren(ghost f: Forest<Node>, n: Node) returns (ret: nat)
    requires Linked(f) && n in Elems(f)
    ensures ret == |Roots(From(f, n).kids)|
  {
    hide Elems, NoDup, LinkOf, From;
    LinkShape(f, null, null, n);
    var pos := n.first_child;
    if pos == null {
      return 0;
    }
    ret := 1;
    LinkShape(f, null, null, pos);
    pos := pos.next_sibling;
    while pos != null
      invariant Linked(f) && (pos != null ==> pos in Elems(f))
      invariant ret + (if pos == null then 0 else |Roots(From(f, pos))|) == |Roots(From(f, n).kids)|
      decreases if pos == null then 0 else |Roots(From(f, pos))|
    {
      LinkShape(f, null, null, pos);
      ret := ret + 1;
      pos := pos.next_sibling;
    }
  }

  /** sibling_iterator: past the end, only the parent is known. */
  datatype Sibling = Sibling(node: Node?, parent: Node)

  function Begin(n: Node): Sibling
    reads n
  {
    Sibling(n.first_child, n)
  }

  function End(n: Node): Sibling {
    Sibling(null, n)
  }

  /** The conversion of a sibling position to a pre-order position: past the
      end it becomes what follows the parent's subtree. */
  method ToPreOrder(s: Sibling, t: Tree) returns (it: PreOrderIterator)
    requires t.Valid() && s.parent in t.nodes && (s.node != null ==> s.node in t.nodes)
    ensures fresh(it) && !it.skip_current_children && (it.node != null ==> it.node in t.nodes)
    ensures Rest(t.all, it.node) == if s.node == null then PreAfter(t.all, [], s.parent) else PreFrom(t.all, [], s.node)
  {
    ghost var f := t.all;
    hide Elems, NoDup, LinkOf, PreFrom, PreAfter, Depth;
    it := new PreOrderIterator(s.node);
    if it.node == null {
      if s.parent.last_child != null {
        LastChild(f, s.parent);
        PreLinks(f, null, null, [], s.parent.last_child);
        it.node := s.parent.last_child;
      } else {
        it.node := s.parent;
      }
      it.skip_current_children := true;
      it.Increment(f);
    }
  }

  /** The two walks agree so far but only one of them is at its end. */
  lemma NoEarlyEnd(f: Forest<Value>, g: Forest<Value>)
    requires |Roots(f)| == |Roots(g)| && Code(g) <= Code(f)
    ensures f == g
  {
    assert Code(f) + [] == Code(g) + Code(f)[|Code(g)|..];
    CodeInjective(f, g, [], Code(f)[|Code(g)|..]);
  }

  /** Position `i` of the children's listing seen from the whole forest. */
  lemma EntryAt(f: Forest<Node>, n: Node, i: nat)
    requires NoDup(f) && n in Elems(f) && i < |PreOrder(From(f, n).kids)|
    ensures var s := From(f, n).kids; var m := PreOrder(s)[i];
      m in Elems(s) && m in Elems(f) && i < |Code(Labels(s))| && Code(Labels(s))[i] == Entry(f, m)
  {
    var s := From(f, n).kids;
    CodeEntries(s, i);
    FromFrom(f, n, PreOrder(s)[i]);
  }

  lemma Children(f: Forest<Node>, n: Node)
    requires NoDup(f) && n in Elems(f)
    ensures var c := Link(f, n).first;
      if c == null then PreOrder(From(f, n).kids) == []
      else c in Elems(f) && PreFrom(f, [], c) == PreOrder(From(f, n).kids) + PreAfter(f, [], n)
  {
    PreLinks(f, null, null, [], n);
    PreSpan(f, [], n);
    LinkShape(f, null, null, n);
    var k, c := From(f, n).kids, Link(f, n).first;
    if c != null {
      assert [n] + PreFrom(f, [], c) == [n] + (PreOrder(k) + PreAfter(f, [], n));
      assert PreFrom(f, [], c) == ([n] + PreFrom(f, [], c))[1..];
    }
  }

  /** A walk over the nodes below `n` has visited `i` of them and stands at `m`. */
  ghost predicate Standing(f: Forest<Node>, n: Node, i: nat, m: Node?)
    requires n in Elems(f)
  {
    && (m != null ==> m in Elems(f))
    && i <= |PreOrder(From(f, n).kids)|
    && Rest(f, m) == PreOrder(From(f, n).kids)[i..] + PreAfter(f, [], n)
  }

  lemma StandingBegin(f: Forest<Node>, n: Node, m: Node?)
    requires NoDup(f) && n in Elems(f) && (m != null ==> m in Elems(f))
    requires var c := Link(f, n).first; c != null ==> c in Elems(f)
    requires var c := Link(f, n).first;
      Rest(f, m) == if c == null then PreAfter(f, [], n) else PreFrom(f, [], c)
    ensures Standing(f, n, 0, m)
  {
    Children(f, n);
  }

  lemma StandingStep(f: Forest<Node>, n: Node, i: nat, m: Node, next: Node?)
    requires NoDup(f) && n in Elems(f) && Standing(f, n, i, m) && i < |PreOrder(From(f, n).kids)|
    requires next != null ==> next in Elems(f)
    requires PreFrom(f, [], m) == [m] + Rest(f, next)
    ensures Standing(f, n, i + 1, next)
  {
    hide PreFrom, PreAfter, PreOrder, From, Elems, NoDup;
    var p, e := PreOrder(From(f, n).kids), PreAfter(f, [], n);
    assert Rest(f, next) == ([m] + Rest(f, next))[1..];
    assert (p[i..] + e)[1..] == p[i + 1..] + e;
  }

  /** Before the end of the subtree the position is the node that is due. */
  lemma StandingAt(f: Forest<Node>, n: Node, i: nat, m: Node?)
    requires NoDup(f) && n in Elems(f) && Standing(f, n, i, m) && i < |PreOrder(From(f, n).kids)|
    ensures m == PreOrder(From(f, n).kids)[i] && m in Elems(From(f, n).kids) && m in Elems(f)
  {
    var p := PreOrder(From(f, n).kids);
    assert p[i] in p;
    PreOrderElems(From(f, n).kids);
    PreHead(f, [], m);
  }

  ghost predicate AtEnd(f: Forest<Node>, n: Node, end: Node?)
    requires n in Elems(f)
  {
    (end != null ==> end in Elems(f)) && Rest(f, end) == PreAfter(f, [], n)
  }

  /** The end position is reached exactly when all nodes were visited. */
  lemma StandingEnd(f: Forest<Node>, n: Node, i: nat, m: Node?, end: Node?)
    requires n in Elems(f) && Standing(f, n, i, m) && AtEnd(f, n, end)
    ensures m == end <==> i == |PreOrder(From(f, n).kids)|
  {
    if i == |PreOrder(From(f, n).kids)| {
      RestInjective(f, m, end);
    }
  }

  method StartBelow(t: Tree, n: Node) returns (it: PreOrderIterator, end: PreOrderIterator)
    requires t.Valid() && n in t.nodes && n != t.feet
    ensures fresh(it) && fresh(end) && it != end && !it.skip_current_children
    ensures Standing(t.all, n, 0, it.node)
    ensures AtEnd(t.all, n, end.node)
  {
    Neighbours(t.all, n);
    it := ToPreOrder(Begin(n), t);
    StandingBegin(t.all, n, it.node);
    end := ToPreOrder(End(n), t);
  }

  method Advance(t: Tree, n: Node, ghost i: nat, it: PreOrderIterator)
    requires t.Valid() && n in t.nodes && !it.skip_current_children
    requires Standing(t.all, n, i, it.node) && i < |PreOrder(From(t.all, n).kids)|
    modifies it
    ensures Standing(t.all, n, i + 1, it.node) && !it.skip_current_children
  {
    hide Elems, NoDup, LinkOf, PreFrom, PreAfter, Framed, PreOrder, From;
    ghost var m := it.node;
    StandingAt(t.all, n, i, m);
    it.Increment(t.all);
    StandingStep(t.all, n, i, m, it.node);
  }

  /** The two tests of the loop body: equal data, equally many children. */
  method SameEntry(t: Tree, m: Node, u: Tree, n: Node) returns (same: bool)
    requires t.Valid() && m in t.nodes && u.Valid() && n in u.nodes
    ensures same <==> Entry(t.all, m) == Entry(u.all, n)
  {
    if m.data != n.data {
      return false;
    }
    var c1 := NumberOfChildren(t.all, m);
    var c3 := NumberOfChildren(u.all, n);
    return c1 == c3;
  }

  /** The loop body of the lockstep walk. */
  method CompareAndAdvance(t: Tree, one: Node, it1: PreOrderIterator, u: Tree, two: Node, it3: PreOrderIterator,
                           ghost i: nat)
    returns (same: bool)
    requires t.Valid() && one in t.nodes && Standing(t.all, one, i, it1.node) && !it1.skip_current_children
    requires u.Valid() && two in u.nodes && Standing(u.all, two, i, it3.node) && !it3.skip_current_children
    requires it1 != it3
    requires i < |Code(Labels(From(t.all, one).kids))| && i < |Code(Labels(From(u.all, two).kids))|
    modifies it1, it3
    ensures !it1.skip_current_children && !it3.skip_current_children
    ensures same <==> Code(Labels(From(t.all, one).kids))[i] == Code(Labels(From(u.all, two).kids))[i]
    ensures same ==> Standing(t.all, one, i + 1, it1.node) && Standing(u.all, two, i + 1, it3.node)
  {
    hide Elems, NoDup, LinkOf, PreFrom, PreAfter, Framed, PreOrder, From, Labels, Roots, Code, Rest, Standing, Entry;
    CodeLength(From(t.all, one).kids);
    CodeLength(From(u.all, two).kids);
    KidsIn(t.all, one);
    KidsIn(u.all, two);
    StandingAt(t.all, one, i, it1.node);
    StandingAt(u.all, two, i, it3.node);
    EntryAt(t.all, one, i);
    EntryAt(u.all, two, i);
    same := SameEntry(t, it1.node, u, it3.node);
    if same {
      Advance(t, one, i, it1);
      Advance(u, two, i, it3);
    }
  }

  /** The codes agree on their first `i` entries. */
  ghost predicate Agree(f: Forest<Value>, g: Forest<Value>, i: nat) {
    i <= |Code(f)| && i <= |Code(g)| && Code(f)[..i] == Code(g)[..i]
  }

  /** While they agree, neither walk leaves its subtree before the other. */
  lemma AgreeOn(f: Forest<Value>, g: Forest<Value>, i: nat)
    requires |Roots(f)| == |Roots(g)| && Agree(f, g, i)
    ensures i < |Code(f)| <==> i < |Code(g)|
    ensures i == |Code(f)| ==> f == g
    ensures i < |Code(f)| ==> (Code(f)[i] == Code(g)[i] <==> Agree(f, g, i + 1))
  {
    hide Code;
    var c, d := Code(f), Code(g);
    if i == |d| {
      NoEarlyEnd(f, g);
    } else if i == |c| {
      NoEarlyEnd(g, f);
    } else {
      assert c[..i + 1] == c[..i] + [c[i]] && d[..i + 1] == d[..i] + [d[i]];
      assert c[..i + 1][i] == c[i] && d[..i + 1][i] == d[i];
    }
  }

  /** The loop of equal: a lockstep walk that compares labels and numbers of
      children only. */
  method Lockstep(t: Tree, one: Node, it1: PreOrderIterator, end: Node?, u: Tree, two: Node, it3: PreOrderIterator)
    returns (same: bool)
    requires t.Valid() && one in t.nodes && Standing(t.all, one, 0, it1.node) && !it1.skip_current_children
    requires u.Valid() && two in u.nodes && Standing(u.all, two, 0, it3.node) && !it3.skip_current_children
    requires it1 != it3 && AtEnd(t.all, one, end)
    requires Elems(From(u.all, two).kids) !! {t.head, t.feet}
    requires |Roots(From(t.all, one).kids)| == |Roots(From(u.all, two).kids)|
    modifies it1, it3
    ensures same <==> Labels(From(t.all, one).kids) == Labels(From(u.all, two).kids)
  {
    hide Elems, NoDup, LinkOf, PreFrom, PreAfter, Framed, PreOrder, From, Labels, Roots, Code, Rest, Standing, Entry,
      AtEnd;
    ghost var s1, s2 := From(t.all, one).kids, From(u.all, two).kids;
    KidsIn(t.all, one);
    KidsIn(u.all, two);
    CodeLength(s1);
    CodeLength(s2);
    RootsLabels(s1);
    RootsLabels(s2);
    ghost var i := 0;
    ghost var l1, l2 := Labels(s1), Labels(s2);
    assert Agree(l1, l2, 0);
    hide Tree.Valid, Agree;
    same := true;
    while same && it1.node != end && it3.node != null && it3.node != t.head && it3.node != t.feet
      invariant t.Valid() && NoDup(t.all)
      invariant u.Valid() && NoDup(u.all)
      invariant Labels(s1) == l1 && Labels(s2) == l2
      invariant i <= |Code(l1)| && Agree(l1, l2, i)
      invariant same ==> !it1.skip_current_children && !it3.skip_current_children
      invariant same ==> Standing(t.all, one, i, it1.node) && Standing(u.all, two, i, it3.node)
      invariant !same ==> l1 != l2
      decreases same, |Code(l1)| - i
    {
      StandingEnd(t.all, one, i, it1.node, end);
      AgreeOn(l1, l2, i);
      same := CompareAndAdvance(t, one, it1, u, two, it3, i);
      if same {
        i := i + 1;
      }
    }
    if same {
      StandingEnd(t.all, one, i, it1.node, end);
      AgreeOn(l1, l2, i);
      if it1.node != end {
        StandingAt(u.all, two, i, it3.node);
      }
    }
  }

  /** equal(begin(one), end(one), begin(two)) */
  method EqualChildren(t: Tree, one: Node, u: Tree, two: Node) returns (same: bool)
    requires t.Valid() && one in t.nodes && one != t.feet
    requires u.Valid() && two in u.nodes && two != u.feet && (u == t || u.nodes !! t.nodes)
    requires |Roots(From(t.all, one).kids)| == |Roots(From(u.all, two).kids)|
    ensures same <==> Labels(From(t.all, one).kids) == Labels(From(u.all, two).kids)
  {
    hide Elems, NoDup, LinkOf, PreFrom, PreAfter, Framed, PreOrder, From, Labels, Roots, Code, Rest, Standing, Entry,
      AtEnd;
    KidsIn(t.all, one);
    KidsIn(u.all, two);
    BelowHasParent(u.all, u.head, u.feet, two);
    var it1, end1 := StartBelow(t, one);
    var it3, _ := StartBelow(u, two);
    same := Lockstep(t, one, it1, end1.node, u, two, it3);
  }

  lemma KidsIn(f: Forest<Node>, n: Node)
    requires n in Elems(f)
    ensures Elems(From(f, n).kids) <= Elems(f)
  {}

  /** equal_subtree(one, two) */
  method EqualSubtree(t: Tree, one: Node, u: Tree, two: Node) returns (same: bool)
    requires t.Valid() && one in t.nodes && one != t.feet
    requires u.Valid() && two in u.nodes && two != u.feet && (u == t || u.nodes !! t.nodes)
    ensures same <==> one.data == two.data && Labels(From(t.all, one).kids) == Labels(From(u.all, two).kids)
  {
    if one.data != two.data {
      return false;
    }
    var c1 := NumberOfChildren(t.all, one);
    var c2 := NumberOfChildren(u.all, two);
    if c1 != c2 {
      RootsLabels(From(t.all, one).kids);
      RootsLabels(From(u.all, two).kids);
      return false;
    }
    same := EqualChildren(t, one, u, two);
  }
}
