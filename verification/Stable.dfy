/** Stable insertion sort of sibling lists, and of every list below them. */
module SiblingOrder {
  import opened Forests
  import opened TreeLinks
  import opened TreeFlatten
  import opened TreeRearrange

  /** How nodes compare: by the values that they hold. */
  datatype Order = Order(key: map<Node, Value>, less: (Value, Value) -> bool) {
    predicate Before(x: Node, y: Node) {
      x in key && y in key && less(key[x], key[y])
    }

    /** `less` is what std::multiset asks for. */
    ghost predicate StrictWeak() {
      && (forall a :: !less(a, a))
      && (forall a, b, c :: less(a, b) && less(b, c) ==> less(a, c))
      && (forall a, b, c :: less(a, b) ==> less(a, c) || less(c, b))
    }
  }

  /** Into a sorted list, behind everything that is not greater. */
  ghost function InsertTree(o: Order, acc: Forest<Node>, x: Node, k: Forest<Node>): Forest<Node> {
    if acc.Nil? || o.Before(x, acc.id) then Cons(x, k, acc)
    else Cons(acc.id, acc.kids, InsertTree(o, acc.right, x, k))
  }

  ghost function SortInto(o: Order, acc: Forest<Node>, s: Forest<Node>): Forest<Node>
    decreases s
  {
    if s.Nil? then acc else SortInto(o, InsertTree(o, acc, s.id, s.kids), s.right)
  }

  ghost function Sorted(o: Order, s: Forest<Node>): Forest<Node> {
    SortInto(o, Nil, s)
  }

  /** No root comes before one that is less. */
  ghost predicate InOrder(o: Order, s: Forest<Node>) {
    s.Cons? ==>
      && (forall y :: y in Roots(s.right) && y in o.key && s.id in o.key ==> !o.less(o.key[y], o.key[s.id]))
      && InOrder(o, s.right)
  }

  /** Root `a` stands before root `b`. */
  ghost predicate Precedes(s: Forest<Node>, a: Node, b: Node) {
    s.Cons? && ((s.id == a && b in Roots(s.right)) || Precedes(s.right, a, b))
  }

  lemma RootsStep(s: Forest<Node>)
    requires s.Cons?
    ensures multiset(Roots(s)) == multiset{s.id} + multiset(Roots(s.right))
    ensures forall y: Node :: y in Roots(s) <==> y == s.id || y in Roots(s.right)
  {
    assert Roots(s) == [s.id] + Roots(s.right);
  }

  lemma {:induction false} InsertMultiset(o: Order, acc: Forest<Node>, x: Node, k: Forest<Node>)
    ensures multiset(Roots(InsertTree(o, acc, x, k))) == multiset(Roots(acc)) + multiset{x}
  {
    RootsStep(InsertTree(o, acc, x, k));
    if acc.Cons? && !o.Before(x, acc.id) {
      InsertMultiset(o, acc.right, x, k);
      RootsStep(acc);
    }
  }

  lemma {:induction false} InsertElems(o: Order, acc: Forest<Node>, x: Node, k: Forest<Node>)
    ensures Elems(InsertTree(o, acc, x, k)) == Elems(acc) + {x} + Elems(k)
    ensures |PreOrder(InsertTree(o, acc, x, k))| == |PreOrder(acc)| + 1 + |PreOrder(k)|
  {
    if acc.Cons? && !o.Before(x, acc.id) {
      InsertElems(o, acc.right, x, k);
    }
  }

  lemma {:induction false} InsertRoots(o: Order, acc: Forest<Node>, x: Node, k: Forest<Node>)
    ensures forall y: Node :: y in Roots(InsertTree(o, acc, x, k)) <==> y in Roots(acc) || y == x
  {
    RootsStep(InsertTree(o, acc, x, k));
    if acc.Cons? && !o.Before(x, acc.id) {
      InsertRoots(o, acc.right, x, k);
      RootsStep(acc);
    }
  }

  lemma {:induction false} InsertNoDup(o: Order, acc: Forest<Node>, x: Node, k: Forest<Node>)
    requires NoDup(acc) && NoDup(k) && x !in Elems(k) + Elems(acc) && Elems(k) !! Elems(acc)
    ensures NoDup(InsertTree(o, acc, x, k))
  {
    if acc.Cons? && !o.Before(x, acc.id) {
      InsertNoDup(o, acc.right, x, k);
      InsertElems(o, acc.right, x, k);
    }
  }

  lemma {:induction false} InsertBelow(o: Order, acc: Forest<Node>, x: Node, k: Forest<Node>, y: Node)
    requires NoDup(acc) && x !in Elems(acc) && (y == x || y in Roots(acc))
    ensures y in Roots(InsertTree(o, acc, x, k))
    ensures Below(InsertTree(o, acc, x, k), y) == if y == x then k else Below(acc, y)
  {
    InsertRoots(o, acc, x, k);
    RootsIn(acc);
    if acc.Cons? && !o.Before(x, acc.id) {
      RootsIn(acc.right);
      if y != acc.id {
        InsertBelow(o, acc.right, x, k, y);
      }
    }
  }

  lemma {:induction false} InsertInOrder(o: Order, acc: Forest<Node>, x: Node, k: Forest<Node>)
    requires o.StrictWeak() && InOrder(o, acc)
    ensures InOrder(o, InsertTree(o, acc, x, k))
  {
    InsertRoots(o, acc, x, k);
    if acc.Cons? {
      if !o.Before(x, acc.id) {
        InsertInOrder(o, acc.right, x, k);
        InsertRoots(o, acc.right, x, k);
      }
    }
  }

  /** The node goes behind every one that it does not come before. */
  lemma {:induction false} InsertBehind(o: Order, acc: Forest<Node>, x: Node, k: Forest<Node>, a: Node)
    requires o.StrictWeak() && InOrder(o, acc) && a in Roots(acc) && !o.Before(x, a)
    requires x in o.key && forall y :: y in Roots(acc) ==> y in o.key
    ensures Precedes(InsertTree(o, acc, x, k), a, x)
  {
    InsertRoots(o, acc.right, x, k);
    if !o.Before(x, acc.id) && acc.id != a {
      InsertBehind(o, acc.right, x, k, a);
    }
  }

  lemma {:induction false} InsertKeepsOrder(o: Order, acc: Forest<Node>, x: Node, k: Forest<Node>, a: Node, b: Node)
    requires Precedes(acc, a, b)
    ensures Precedes(InsertTree(o, acc, x, k), a, b)
  {
    if !o.Before(x, acc.id) {
      InsertRoots(o, acc.right, x, k);
      if acc.id != a || b !in Roots(acc.right) {
        InsertKeepsOrder(o, acc.right, x, k, a, b);
      }
    }
  }

  lemma {:induction false} PrecedesIn(s: Forest<Node>, a: Node, b: Node)
    requires Precedes(s, a, b)
    ensures a in Roots(s) && b in Roots(s)
  {
    if s.id != a || b !in Roots(s.right) {
      PrecedesIn(s.right, a, b);
    }
  }

  /** The sort orders the roots. */
  lemma {:induction false} SortOrders(o: Order, acc: Forest<Node>, s: Forest<Node>)
    requires o.StrictWeak() && InOrder(o, acc)
    ensures InOrder(o, SortInto(o, acc, s))
    decreases s
  {
    if s.Cons? {
      InsertInOrder(o, acc, s.id, s.kids);
      SortOrders(o, InsertTree(o, acc, s.id, s.kids), s.right);
    }
  }

  /** The sort moves whole trees. */
  lemma {:induction false} SortElems(o: Order, acc: Forest<Node>, s: Forest<Node>)
    requires NoDup(acc) && NoDup(s) && Elems(acc) !! Elems(s)
    ensures NoDup(SortInto(o, acc, s)) && Elems(SortInto(o, acc, s)) == Elems(acc) + Elems(s)
    ensures |PreOrder(SortInto(o, acc, s))| == |PreOrder(acc)| + |PreOrder(s)|
    decreases s
  {
    if s.Cons? {
      InsertElems(o, acc, s.id, s.kids);
      InsertNoDup(o, acc, s.id, s.kids);
      SortElems(o, InsertTree(o, acc, s.id, s.kids), s.right);
    }
  }

  lemma {:induction false} SortMultiset(o: Order, acc: Forest<Node>, s: Forest<Node>)
    ensures multiset(Roots(SortInto(o, acc, s))) == multiset(Roots(acc)) + multiset(Roots(s))
    decreases s
  {
    if s.Cons? {
      InsertMultiset(o, acc, s.id, s.kids);
      SortMultiset(o, InsertTree(o, acc, s.id, s.kids), s.right);
      RootsStep(s);
    } else {
      assert Roots(s) == [];
    }
  }

  lemma {:induction false} SortBelow(o: Order, acc: Forest<Node>, s: Forest<Node>, y: Node)
    requires NoDup(acc) && NoDup(s) && Elems(acc) !! Elems(s) && (y in Roots(acc) || y in Roots(s))
    ensures y in Roots(SortInto(o, acc, s))
    ensures Below(SortInto(o, acc, s), y) == if y in Roots(acc) then Below(acc, y) else Below(s, y)
    decreases s
  {
    if s.Cons? {
      RootsIn(acc);
      RootsIn(s.right);
      RootsStep(s);
      InsertRoots(o, acc, s.id, s.kids);
      InsertElems(o, acc, s.id, s.kids);
      InsertNoDup(o, acc, s.id, s.kids);
      if y in Roots(acc) || y == s.id {
        InsertBelow(o, acc, s.id, s.kids, y);
      }
      SortBelow(o, InsertTree(o, acc, s.id, s.kids), s.right, y);
    }
  }

  lemma SortedElems(o: Order, s: Forest<Node>)
    requires NoDup(s)
    ensures NoDup(Sorted(o, s)) && Elems(Sorted(o, s)) == Elems(s)
  {
    SortElems(o, Nil, s);
  }

  lemma ShuffledBy(s: Forest<Node>, p: Forest<Node>)
    requires NoDup(s) && NoDup(p) && Elems(s) == Elems(p) && multiset(Roots(s)) == multiset(Roots(p))
    requires forall y :: y in Roots(s) ==> y in Roots(p) && y in multiset(Roots(p)) && Below(s, y) == Below(p, y)
    ensures Shuffled(s, p)
  {}

  lemma SortedMultiset(o: Order, s: Forest<Node>)
    ensures multiset(Roots(Sorted(o, s))) == multiset(Roots(s))
  {
    var none: Forest<Node> := Nil;
    assert Roots(none) == [];
    SortMultiset(o, none, s);
  }

  lemma SortedBelow(o: Order, s: Forest<Node>, y: Node)
    requires NoDup(s) && y in Roots(s)
    ensures y in Roots(Sorted(o, s)) && y in multiset(Roots(Sorted(o, s))) && Below(s, y) == Below(Sorted(o, s), y)
  {
    SortBelow(o, Nil, s, y);
  }

  /** Sorting permutes the sibling trees and nothing below them. */
  lemma SortedShuffled(o: Order, s: Forest<Node>)
    requires NoDup(s)
    ensures Shuffled(s, Sorted(o, s))
  {
    hide *;
    SortedElems(o, s);
    SortedMultiset(o, s);
    forall y | y in Roots(s)
      ensures y in Roots(Sorted(o, s)) && y in multiset(Roots(Sorted(o, s))) && Below(s, y) == Below(Sorted(o, s), y)
    {
      SortedBelow(o, s, y);
    }
    ShuffledBy(s, Sorted(o, s));
  }

  lemma KeysInserted(o: Order, acc: Forest<Node>, s: Forest<Node>)
    requires s.Cons? && (forall y :: y in Roots(acc) ==> y in o.key) && (forall y :: y in Roots(s) ==> y in o.key)
    ensures s.id in o.key && (forall y :: y in Roots(s.right) ==> y in o.key)
    ensures forall y :: y in Roots(InsertTree(o, acc, s.id, s.kids)) ==> y in o.key
  {
    assert s.id in Roots(s);
    forall y | y in Roots(s.right)
      ensures y in o.key
    {
      assert y in Roots(s);
    }
    InsertMultiset(o, acc, s.id, s.kids);
    forall y | y in Roots(InsertTree(o, acc, s.id, s.kids))
      ensures y in o.key
    {
      assert y in multiset(Roots(InsertTree(o, acc, s.id, s.kids)));
    }
  }

  /** What stands before something that is not less stays before it. */
  lemma {:induction false} SortStable(o: Order, acc: Forest<Node>, s: Forest<Node>, a: Node, b: Node)
    requires o.StrictWeak() && InOrder(o, acc) && !o.Before(b, a)
    requires (forall y :: y in Roots(acc) ==> y in o.key) && (forall y :: y in Roots(s) ==> y in o.key)
    requires Precedes(acc, a, b) || (a in Roots(acc) && b in Roots(s)) || Precedes(s, a, b)
    ensures Precedes(SortInto(o, acc, s), a, b)
    decreases s
  {
    if s.Cons? {
      var acc1 := InsertTree(o, acc, s.id, s.kids);
      InsertRoots(o, acc, s.id, s.kids);
      InsertInOrder(o, acc, s.id, s.kids);
      RootsStep(s);
      if Precedes(acc, a, b) {
        InsertKeepsOrder(o, acc, s.id, s.kids, a, b);
      } else if a in Roots(acc) && b == s.id {
        InsertBehind(o, acc, s.id, s.kids, a);
      }
      KeysInserted(o, acc, s);
      SortStable(o, acc1, s.right, a, b);
    } else {
      assert Roots(s) == [];
    }
  }

  /** The sorted list: ordered, and equals keep their order. */
  lemma SortedStable(o: Order, s: Forest<Node>)
    requires o.StrictWeak() && NoDup(s) && forall y :: y in Roots(s) ==> y in o.key
    ensures InOrder(o, Sorted(o, s))
    ensures forall a, b :: a in Roots(s) && b in Roots(s) && Precedes(s, a, b) && !o.less(o.key[b], o.key[a]) ==>
      Precedes(Sorted(o, s), a, b)
  {
    SortOrders(o, Nil, s);
    forall a, b | a in Roots(s) && b in Roots(s) && Precedes(s, a, b) && !o.less(o.key[b], o.key[a])
      ensures Precedes(Sorted(o, s), a, b)
    {
      SortStable(o, Nil, s, a, b);
    }
  }

  // ---- The same for the sequence of roots ----

  /** `a` stands before `b`. */
  ghost predicate Comes(q: seq<Node>, a: Node, b: Node) {
    exists i, j :: 0 <= i < j < |q| && q[i] == a && q[j] == b
  }

  lemma {:induction false} PrecedesComes(s: Forest<Node>, a: Node, b: Node)
    ensures Precedes(s, a, b) <==> Comes(Roots(s), a, b)
  {
    if s.Cons? {
      var q, r := Roots(s), Roots(s.right);
      PrecedesComes(s.right, a, b);
      assert q == [s.id] + r;
      if s.id == a && b in r {
        var j :| 0 <= j < |r| && r[j] == b;
        assert q[0] == a && q[j + 1] == b;
      }
      if Comes(r, a, b) {
        var i, j :| 0 <= i < j < |r| && r[i] == a && r[j] == b;
        assert q[i + 1] == a && q[j + 1] == b;
      }
      if Comes(q, a, b) {
        var i, j :| 0 <= i < j < |q| && q[i] == a && q[j] == b;
        assert b == r[j - 1] && (i > 0 ==> a == r[i - 1]);
      }
    }
  }

  lemma {:induction false} InOrderAt(o: Order, s: Forest<Node>, i: nat, j: nat)
    requires InOrder(o, s) && i < j < |Roots(s)| && Roots(s)[i] in o.key && Roots(s)[j] in o.key
    ensures !o.less(o.key[Roots(s)[j]], o.key[Roots(s)[i]])
  {
    var q, r := Roots(s), Roots(s.right);
    assert q == [s.id] + r;
    assert q[j] == r[j - 1];
    if i > 0 {
      assert q[i] == r[i - 1];
      InOrderAt(o, s.right, i - 1, j - 1);
    }
  }

  /** `q` has the members of `s`, none before one that holds less, and otherwise
      in the order in which they are in `s`. */
  ghost predicate Ascends(key: map<Node, Value>, less: (Value, Value) -> bool, s: seq<Node>, q: seq<Node>)
    requires (forall x :: x in s ==> x in key) && (forall x :: x in q ==> x in key)
  {
    && multiset(q) == multiset(s)
    && (forall i, j :: 0 <= i < j < |q| ==> !less(key[q[j]], key[q[i]]))
    && (forall a, b :: a in s && b in s && Comes(s, a, b) && !less(key[b], key[a]) ==> Comes(q, a, b))
  }

  /** The sort by the values themselves. */
  lemma SortedAscends(o: Order, s: Forest<Node>)
    requires o.StrictWeak() && NoDup(s) && forall y :: y in Roots(s) ==> y in o.key
    ensures forall y :: y in Roots(Sorted(o, s)) ==> y in o.key
    ensures Ascends(o.key, o.less, Roots(s), Roots(Sorted(o, s)))
  {
    hide *;
    var r, q := Roots(s), Roots(Sorted(o, s));
    SortedStable(o, s);
    SortedMultiset(o, s);
    SameMembers(r, q);
    forall i, j | 0 <= i < j < |q|
      ensures !o.less(o.key[q[j]], o.key[q[i]])
    {
      InOrderAt(o, Sorted(o, s), i, j);
    }
    forall a, b | a in r && b in r && Comes(r, a, b) && !o.less(o.key[b], o.key[a])
      ensures Comes(q, a, b)
    {
      PrecedesComes(s, a, b);
      PrecedesComes(Sorted(o, s), a, b);
    }
    AscendsBy(o.key, o.less, r, q);
  }

  lemma SameMembers(r: seq<Node>, q: seq<Node>)
    requires multiset(q) == multiset(r)
    ensures forall x: Node :: x in q <==> x in r
    ensures forall i :: 0 <= i < |q| ==> q[i] in r
  {
    forall x: Node
      ensures x in q <==> x in r
    {
      assert x in multiset(q) <==> x in multiset(r);
    }
  }

  lemma AscendsBy(key: map<Node, Value>, less: (Value, Value) -> bool, s: seq<Node>, q: seq<Node>)
    requires (forall x :: x in s ==> x in key) && (forall x :: x in q ==> x in key)
    requires multiset(q) == multiset(s) && forall i, j :: 0 <= i < j < |q| ==> !less(key[q[j]], key[q[i]])
    requires forall a, b :: a in s && b in s && Comes(s, a, b) && !less(key[b], key[a]) ==> Comes(q, a, b)
    ensures Ascends(key, less, s, q)
  {}

  // ---- deep ----

  ghost function DeepSorted(o: Order, s: Forest<Node>): Forest<Node>
    decreases s, 1
  {
    Sorted(o, DeepBelow(o, s))
  }

  /** The lists below each root sorted deep. */
  ghost function DeepBelow(o: Order, s: Forest<Node>): Forest<Node>
    decreases s, 0
  {
    match s
    case Nil => Nil
    case Cons(n, k, r) => Cons(n, DeepSorted(o, k), DeepBelow(o, r))
  }

  /** Every sibling list in it is in order. */
  ghost predicate Tidy(o: Order, s: Forest<Node>)
    decreases s, 1
  {
    InOrder(o, s) && TidyBelow(o, s)
  }

  ghost predicate TidyBelow(o: Order, s: Forest<Node>)
    decreases s, 0
  {
    s.Cons? ==> Tidy(o, s.kids) && TidyBelow(o, s.right)
  }

  lemma {:induction false} DeepRoots(o: Order, s: Forest<Node>)
    ensures Roots(DeepBelow(o, s)) == Roots(s)
  {
    if s.Cons? {
      DeepRoots(o, s.right);
    }
  }

  lemma {:induction false} InsertTidy(o: Order, acc: Forest<Node>, x: Node, k: Forest<Node>)
    requires TidyBelow(o, acc) && Tidy(o, k)
    ensures TidyBelow(o, InsertTree(o, acc, x, k))
  {
    if acc.Cons? && !o.Before(x, acc.id) {
      InsertTidy(o, acc.right, x, k);
    }
  }

  lemma {:induction false} SortTidy(o: Order, acc: Forest<Node>, s: Forest<Node>)
    requires TidyBelow(o, acc) && TidyBelow(o, s)
    ensures TidyBelow(o, SortInto(o, acc, s))
    decreases s
  {
    if s.Cons? {
      InsertTidy(o, acc, s.id, s.kids);
      SortTidy(o, InsertTree(o, acc, s.id, s.kids), s.right);
    }
  }

  /** With `deep`, every sibling list in the range is in order. */
  lemma {:induction false} DeepTidy(o: Order, s: Forest<Node>)
    requires o.StrictWeak()
    ensures Tidy(o, DeepSorted(o, s))
    decreases s, 1
  {
    DeepBelowTidy(o, s);
    SortOrders(o, Nil, DeepBelow(o, s));
    SortTidy(o, Nil, DeepBelow(o, s));
  }

  lemma {:induction false} DeepBelowTidy(o: Order, s: Forest<Node>)
    requires o.StrictWeak()
    ensures TidyBelow(o, DeepBelow(o, s))
    decreases s, 0
  {
    if s.Cons? {
      DeepTidy(o, s.kids);
      DeepBelowTidy(o, s.right);
    }
  }

  lemma {:induction false} DeepElems(o: Order, s: Forest<Node>)
    requires NoDup(s)
    ensures NoDup(DeepSorted(o, s)) && Elems(DeepSorted(o, s)) == Elems(s)
    decreases s, 1
  {
    DeepBelowElems(o, s);
    SortElems(o, Nil, DeepBelow(o, s));
  }

  lemma {:induction false} DeepBelowElems(o: Order, s: Forest<Node>)
    requires NoDup(s)
    ensures NoDup(DeepBelow(o, s)) && Elems(DeepBelow(o, s)) == Elems(s)
    decreases s, 0
  {
    if s.Cons? {
      DeepElems(o, s.kids);
      DeepBelowElems(o, s.right);
    }
  }

  /** It does not matter whether a list is sorted before those below it. */
  lemma {:induction false} InsertDeep(o: Order, acc: Forest<Node>, x: Node, k: Forest<Node>)
    ensures DeepBelow(o, InsertTree(o, acc, x, k)) == InsertTree(o, DeepBelow(o, acc), x, DeepSorted(o, k))
  {
    if acc.Cons? && !o.Before(x, acc.id) {
      InsertDeep(o, acc.right, x, k);
    }
  }

  lemma {:induction false} SortDeep(o: Order, acc: Forest<Node>, s: Forest<Node>)
    ensures DeepBelow(o, SortInto(o, acc, s)) == SortInto(o, DeepBelow(o, acc), DeepBelow(o, s))
    decreases s
  {
    if s.Cons? {
      InsertDeep(o, acc, s.id, s.kids);
      SortDeep(o, InsertTree(o, acc, s.id, s.kids), s.right);
    }
  }

  lemma DeepEither(o: Order, s: Forest<Node>)
    ensures DeepSorted(o, s) == DeepBelow(o, Sorted(o, s))
  {
    SortDeep(o, Nil, s);
  }

  /** Every node keeps its children: below each root there is the sorted list
      of what was below it. */
  lemma {:induction false} DeepKeeps(o: Order, s: Forest<Node>, x: Node)
    requires NoDup(s) && x in Roots(s)
    ensures x in Roots(DeepSorted(o, s)) && Below(DeepSorted(o, s), x) == DeepSorted(o, Below(s, x))
  {
    DeepEither(o, s);
    DeepRoots(o, Sorted(o, s));
    SortBelow(o, Nil, s, x);
    DeepBelowAt(o, Sorted(o, s), x);
  }

  lemma {:induction false} DeepBelowAt(o: Order, s: Forest<Node>, x: Node)
    requires x in Roots(s)
    ensures x in Roots(DeepBelow(o, s)) && Below(DeepBelow(o, s), x) == DeepSorted(o, Below(s, x))
  {
    DeepRoots(o, s);
    if s.id != x {
      DeepBelowAt(o, s.right, x);
    }
  }

  lemma {:induction false} PrecedesBelow(o: Order, s: Forest<Node>, a: Node, b: Node)
    ensures Precedes(DeepBelow(o, s), a, b) <==> Precedes(s, a, b)
  {
    if s.Cons? {
      DeepRoots(o, s.right);
      PrecedesBelow(o, s.right, a, b);
    }
  }

  /** The deep sort is stable, too: the roots are those of the plain sort. */
  lemma DeepStable(o: Order, s: Forest<Node>, a: Node, b: Node)
    requires o.StrictWeak() && (forall y :: y in Roots(s) ==> y in o.key) && Precedes(s, a, b)
    requires b in o.key && a in o.key ==> !o.less(o.key[b], o.key[a])
    ensures Precedes(DeepSorted(o, s), a, b)
    ensures multiset(Roots(DeepSorted(o, s))) == multiset(Roots(s))
  {
    var none: Forest<Node> := Nil;
    assert Roots(none) == [];
    PrecedesBelow(o, s, a, b);
    DeepRoots(o, s);
    SortStable(o, Nil, DeepBelow(o, s), a, b);
    SortMultiset(o, Nil, DeepBelow(o, s));
  }

  lemma {:induction false} InsertFrom(o: Order, acc: Forest<Node>, x: Node, k: Forest<Node>, m: Node)
    requires NoDup(acc) && NoDup(k) && x !in Elems(k) + Elems(acc) && Elems(k) !! Elems(acc)
    requires m in Elems(acc) + {x} + Elems(k)
    ensures m in Elems(InsertTree(o, acc, x, k))
    ensures From(InsertTree(o, acc, x, k), m).kids ==
      if m == x then k else if m in Elems(k) then From(k, m).kids else From(acc, m).kids
  {
    InsertElems(o, acc, x, k);
    if acc.Cons? && !o.Before(x, acc.id) {
      InsertElems(o, acc.right, x, k);
      if m != acc.id && m !in Elems(acc.kids) {
        InsertFrom(o, acc.right, x, k, m);
      }
    }
  }

  lemma {:induction false} SortFrom(o: Order, acc: Forest<Node>, s: Forest<Node>, m: Node)
    requires NoDup(acc) && NoDup(s) && Elems(acc) !! Elems(s) && m in Elems(acc) + Elems(s)
    ensures m in Elems(SortInto(o, acc, s))
    ensures From(SortInto(o, acc, s), m).kids == if m in Elems(acc) then From(acc, m).kids else From(s, m).kids
    decreases s
  {
    if s.Cons? {
      InsertElems(o, acc, s.id, s.kids);
      InsertNoDup(o, acc, s.id, s.kids);
      if m !in Elems(s.right) {
        InsertFrom(o, acc, s.id, s.kids, m);
      }
      SortFrom(o, InsertTree(o, acc, s.id, s.kids), s.right, m);
    }
  }

  /** In the deep sort each node has the deep sort of its children below it, in
      the plain sort what it had. */
  lemma {:induction false} DeepFrom(o: Order, s: Forest<Node>, m: Node)
    requires NoDup(s) && m in Elems(s)
    ensures m in Elems(DeepSorted(o, s)) && From(DeepSorted(o, s), m).kids == DeepSorted(o, From(s, m).kids)
    decreases s, 1
  {
    DeepBelowElems(o, s);
    DeepBelowFrom(o, s, m);
    SortFrom(o, Nil, DeepBelow(o, s), m);
  }

  lemma {:induction false} DeepBelowFrom(o: Order, s: Forest<Node>, m: Node)
    requires NoDup(s) && m in Elems(s)
    ensures m in Elems(DeepBelow(o, s)) && From(DeepBelow(o, s), m).kids == DeepSorted(o, From(s, m).kids)
    decreases s, 0
  {
    DeepElems(o, s.kids);
    DeepBelowElems(o, s.right);
    if m in Elems(s.kids) {
      DeepFrom(o, s.kids, m);
    } else if m in Elems(s.right) {
      DeepBelowFrom(o, s.right, m);
    }
  }

  /** The deep sort by the values, for the row and for every list below it. */
  lemma DeepAscends(o: Order, s: Forest<Node>)
    requires o.StrictWeak() && NoDup(s) && forall y :: y in Roots(s) ==> y in o.key
    ensures forall y :: y in Roots(DeepSorted(o, s)) ==> y in o.key
    ensures Ascends(o.key, o.less, Roots(s), Roots(DeepSorted(o, s)))
  {
    DeepRoots(o, s);
    DeepBelowElems(o, s);
    SortedAscends(o, DeepBelow(o, s));
  }
}
