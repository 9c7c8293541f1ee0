/** swap: two nodes, neither below the other, change places with all below them. */
module TreeSwap {
  import opened Forests
  import opened TreeLinks
  import opened TreeEdits
  import opened TreeSurgery
  import opened Trees
  import opened TreeReplace

  /** Node `one` with the list `k` below it, node `two` with `j`. */
  datatype Pair = Pair(one: Node, k: Forest<Node>, two: Node, j: Forest<Node>) {
    function Flip(): Pair {
      Pair(two, j, one, k)
    }

    function Other(x: Node?): Node? {
      if x == one then two else if x == two then one else x
    }

    /** Apart from each other, and both whole or absent in `f`. */
    ghost predicate In(f: Forest<Node>) {
      && NoDup(f) && NoDup(k) && NoDup(j) && one != two && one !in Elems(k) && two !in Elems(j)
      && {one} + Elems(k) !! {two} + Elems(j)
      && (if one in Elems(f) then From(f, one).kids == k else {one} + Elems(k) !! Elems(f))
      && (if two in Elems(f) then From(f, two).kids == j else {two} + Elems(j) !! Elems(f))
    }
  }

  ghost function Exchanged(f: Forest<Node>, c: Pair): Forest<Node> {
    match f
    case Nil => Nil
    case Cons(n, k, r) =>
      if n == c.one then Cons(c.two, c.j, Exchanged(r, c))
      else if n == c.two then Cons(c.one, c.k, Exchanged(r, c))
      else Cons(n, Exchanged(k, c), Exchanged(r, c))
  }

  lemma {:induction false} ExchangedFlip(f: Forest<Node>, c: Pair)
    requires c.one != c.two
    ensures Exchanged(f, c.Flip()) == Exchanged(f, c)
  {
    if f.Cons? {
      ExchangedFlip(f.kids, c);
      ExchangedFlip(f.right, c);
    }
  }

  /** Swapping twice restores the list. */
  lemma {:induction false} ExchangedTwice(f: Forest<Node>, c: Pair)
    requires c.In(f)
    ensures Exchanged(Exchanged(f, c), c) == f
  {
    if f.Cons? {
      InParts(f, c);
      if f.id != c.one && f.id != c.two {
        ExchangedTwice(f.kids, c);
      }
      ExchangedTwice(f.right, c);
    }
  }

  lemma {:induction false} InParts(f: Forest<Node>, c: Pair)
    requires c.In(f) && f.Cons?
    ensures c.In(f.right)
    ensures f.id == c.one ==> f.kids == c.k
    ensures f.id == c.two ==> f.kids == c.j
    ensures f.id != c.one && f.id != c.two ==> c.In(f.kids)
  {
    if c.one in Elems(f) { FromApart(f, c.one); }
    if c.two in Elems(f) { FromApart(f, c.two); }
  }

  /** The subtree of a node is wholly on one side. */
  lemma FromApart(f: Forest<Node>, n: Node)
    requires NoDup(f) && n in Elems(f)
    ensures n in Elems(f.kids) ==> From(f, n) == From(f.kids, n) && Elems(From(f, n).kids) <= Elems(f.kids)
    ensures n in Elems(f.right) ==> From(f, n) == From(f.right, n) && Elems(From(f, n).kids) <= Elems(f.right)
  {}

  ghost function Tree1(c: Pair): set<Node> {
    {c.one} + Elems(c.k)
  }

  ghost function Tree2(c: Pair): set<Node> {
    {c.two} + Elems(c.j)
  }

  /** The nodes after the exchange. */
  ghost function Members(f: Forest<Node>, c: Pair): set<Node> {
    Elems(f) - Tree1(c) - Tree2(c) + (if c.one in Elems(f) then Tree2(c) else {}) +
      (if c.two in Elems(f) then Tree1(c) else {})
  }

  lemma {:induction false} ExchangedMembers(f: Forest<Node>, c: Pair)
    requires c.In(f)
    ensures Elems(Exchanged(f, c)) == Members(f, c)
  {
    if f.Cons? {
      InParts(f, c);
      ExchangedMembers(f.right, c);
      if f.id != c.one && f.id != c.two {
        ExchangedMembers(f.kids, c);
      }
    }
  }

  lemma {:induction false} ExchangedElems(f: Forest<Node>, c: Pair)
    requires c.In(f)
    ensures NoDup(Exchanged(f, c)) && Elems(Exchanged(f, c)) == Members(f, c)
  {
    ExchangedMembers(f, c);
    if f.Cons? {
      InParts(f, c);
      ExchangedElems(f.right, c);
      if f.id != c.one && f.id != c.two {
        ExchangedElems(f.kids, c);
      }
    }
  }

  lemma {:induction false} ExchangedEnds(f: Forest<Node>, c: Pair)
    ensures First(Exchanged(f, c)) == c.Other(First(f)) && Last(Exchanged(f, c)) == c.Other(Last(f))
  {
    if f.Cons? {
      ExchangedEnds(f.right, c);
    }
  }

  /** The links of the nodes that are neither of the two. */
  function SwapLink(o: Links, c: Pair): Links {
    Links(o.parent, c.Other(o.first), c.Other(o.last), c.Other(o.prev), c.Other(o.next))
  }

  lemma {:induction false} ExchangedOutside(f: Forest<Node>, c: Pair, par: Node?, prev: Node?, m: Node)
    requires c.In(f) && m in Elems(f) && m !in Tree1(c) + Tree2(c)
    ensures m in Elems(Exchanged(f, c))
    ensures LinkOf(Exchanged(f, c), par, c.Other(prev), m) == SwapLink(LinkOf(f, par, prev, m), c)
  {
    InParts(f, c);
    ExchangedEnds(f.right, c);
    if f.id == c.one || f.id == c.two {
      ExchangedApart(f, c, m);
      hide Pair.In;
      ExchangedOutside(f.right, c, par, f.id, m);
    } else {
      ExchangedEnds(f.kids, c);
      ExchangedApart(f, c, m);
      hide Pair.In;
      if m in Elems(f.kids) {
        ExchangedOutside(f.kids, c, f.id, null, m);
      } else if m in Elems(f.right) {
        ExchangedOutside(f.right, c, par, f.id, m);
      }
    }
  }

  /** On which side of the list a node stays. */
  lemma ExchangedApart(f: Forest<Node>, c: Pair, m: Node)
    requires c.In(f) && f.Cons? && m in Elems(f) && m !in Tree1(c) + Tree2(c)
    ensures NoDup(f) && c.In(f.right) && m in Elems(Exchanged(f, c))
    ensures m in Elems(f.right) <==> m in Elems(Exchanged(f.right, c))
    ensures f.id == c.one || f.id == c.two ==> m in Elems(f.right) && m !in Elems(Exchanged(f, c).kids)
    ensures f.id != c.one && f.id != c.two ==> (m in Elems(f.kids) <==> m in Elems(Exchanged(f.kids, c)))
  {
    InParts(f, c);
    ExchangedMembers(f.right, c);
    if f.id != c.one && f.id != c.two {
      ExchangedMembers(f.kids, c);
    }
  }

  /** The links of `two` at the old place of `one`, and of the nodes below it. */
  lemma {:induction false} ExchangedPlace(f: Forest<Node>, c: Pair, par: Node?, prev: Node?)
    requires c.In(f) && c.one in Elems(f)
    ensures c.two in Elems(Exchanged(f, c))
    ensures var at := LinkOf(f, par, prev, c.one);
      LinkOf(Exchanged(f, c), par, c.Other(prev), c.two) ==
      Links(at.parent, First(c.j), Last(c.j), c.Other(at.prev), c.Other(at.next))
  {
    InParts(f, c);
    ExchangedElems(f.right, c);
    ExchangedEnds(f.right, c);
    if f.id == c.two {
      ExchangedPlace(f.right, c, par, f.id);
    } else if f.id != c.one {
      ExchangedElems(f.kids, c);
      if c.one in Elems(f.kids) {
        ExchangedPlace(f.kids, c, f.id, null);
      } else {
        ExchangedPlace(f.right, c, par, f.id);
      }
    }
  }

  lemma {:induction false} ExchangedBelow(f: Forest<Node>, c: Pair, par: Node?, prev: Node?, m: Node)
    requires c.In(f) && c.one in Elems(f) && m in Elems(c.j)
    ensures m in Elems(Exchanged(f, c)) && LinkOf(Exchanged(f, c), par, prev, m) == LinkOf(c.j, c.two, null, m)
  {
    InParts(f, c);
    ExchangedElems(f.right, c);
    if f.id == c.two {
      ExchangedBelow(f.right, c, par, c.one, m);
    } else if f.id != c.one {
      ExchangedElems(f.kids, c);
      if c.one in Elems(f.kids) {
        ExchangedBelow(f.kids, c, f.id, null, m);
      } else {
        ExchangedBelow(f.right, c, par, f.id, m);
      }
    }
  }

  /** A node with its own children at another place. */
  function PlacedLink(at: Links, own: Links, c: Pair): Links {
    Links(at.parent, own.first, own.last, c.Other(at.prev), c.Other(at.next))
  }

  function SwappedLink(o1: Links, o2: Links, o: Links, c: Pair, m: Node): Links {
    if m == c.one then PlacedLink(o2, o1, c) else if m == c.two then PlacedLink(o1, o2, c) else SwapLink(o, c)
  }

  lemma LinkInKids(f: Forest<Node>, n: Node, m: Node)
    requires NoDup(f) && n in Elems(f) && m in Elems(From(f, n).kids)
    ensures m in Elems(f) && Link(f, m) == LinkOf(From(f, n).kids, n, null, m)
  {
    FromLinks(f, null, null, n, m);
  }

  lemma FlipIn(f: Forest<Node>, c: Pair)
    requires c.In(f)
    ensures c.Flip().In(f) && Exchanged(f, c.Flip()) == Exchanged(f, c)
  {
    ExchangedFlip(f, c);
  }

  lemma LinkBelowOther(f: Forest<Node>, c: Pair, m: Node)
    requires c.In(f) && c.one in Elems(f) && c.two in Elems(f) && m in Elems(c.j)
    ensures m in Elems(f) && m in Elems(Exchanged(f, c)) && Link(Exchanged(f, c), m) == SwapLink(Link(f, m), c)
  {
    ExchangedBelow(f, c, null, null, m);
    LinkInKids(f, c.two, m);
    LinkRange(c.j, c.two, null, m);
    LastIn(c.j);
  }

  /** The links of every node after the exchange. */
  lemma ExchangedLinks(f: Forest<Node>, c: Pair, m: Node)
    requires c.In(f) && c.one in Elems(f) && c.two in Elems(f) && m in Elems(f)
    ensures m in Elems(Exchanged(f, c))
    ensures Link(Exchanged(f, c), m) == SwappedLink(Link(f, c.one), Link(f, c.two), Link(f, m), c, m)
  {
    FlipIn(f, c);
    LinkShape(f, null, null, c.one);
    LinkShape(f, null, null, c.two);
    if m == c.two {
      ExchangedPlace(f, c, null, null);
    } else if m == c.one {
      ExchangedPlace(f, c.Flip(), null, null);
    } else if m in Elems(c.j) {
      LinkBelowOther(f, c, m);
    } else if m in Elems(c.k) {
      LinkBelowOther(f, c.Flip(), m);
    } else {
      ExchangedOutside(f, c, null, null, m);
    }
  }

  lemma ExchangedNodes(f: Forest<Node>, c: Pair)
    requires c.In(f) && c.one in Elems(f) && c.two in Elems(f)
    ensures NoDup(Exchanged(f, c)) && Elems(Exchanged(f, c)) == Elems(f)
  {
    ExchangedElems(f, c);
  }

  lemma ExchangedFramed(f: Forest<Node>, c: Pair, head: Node, feet: Node)
    requires c.In(f) && c.one in Elems(f) && c.two in Elems(f) && Framed(f, head, feet)
    requires head !in {c.one, c.two} && feet !in {c.one, c.two}
    ensures Framed(Exchanged(f, c), head, feet)
  {
    var h := Exchanged(f, c);
    ExchangedNodes(f, c);
    FramedEnds(f, head, feet);
    ExchangedLinks(f, c, feet);
    ExchangedLinks(f, c, head);
    LinkShape(h, null, null, feet);
    LastIn(From(h, feet).kids);
    LastIn(From(h, feet).right);
  }

  /** Two nodes of a list, neither below the other. */
  ghost predicate Apart(f: Forest<Node>, one: Node, two: Node) {
    && one in Elems(f) && two in Elems(f) && one !in Sub(f, two) && two !in Sub(f, one)
  }

  ghost function PairOf(f: Forest<Node>, one: Node, two: Node): Pair
    requires one in Elems(f) && two in Elems(f)
  {
    Pair(one, From(f, one).kids, two, From(f, two).kids)
  }

  lemma PairIn(f: Forest<Node>, one: Node, two: Node)
    requires NoDup(f) && Apart(f, one, two)
    ensures PairOf(f, one, two).In(f)
  {
    SubsApart(f, one, two);
    SubApart(f, one);
    SubApart(f, two);
  }

  // ---- The pointer part ----

  /** What becomes of a node around the place `at` when `x` is put there. */
  function Settled(o: Links, m: Node, at: Links, x: Node): Links {
    Links(o.parent,
          if m == at.parent && at.prev == null then x else o.first,
          if m == at.parent && at.next == null then x else o.last,
          if m == at.next then x else o.prev,
          if m == at.prev then x else o.next)
  }

  ghost function Around(o: Links): set<Node> {
    Opt(o.parent) + Opt(o.prev) + Opt(o.next)
  }

  /** Half of the assignments of swap: `x` gets the neighbours that `at` names. */
  method Settle(x: Node, at: Links, ghost nodes: set<Node>)
    requires x in nodes && Around(at) <= nodes && x !in Around(at)
    requires at.next == null || at.prev == null ==> at.parent != null
    modifies nodes
    ensures Fields(x) == at.(first := old(x.first_child), last := old(x.last_child))
    ensures forall m :: m in nodes && m != x ==> Fields(m) == Settled(old(Fields(m)), m, at, x)
    ensures forall m :: m in nodes ==> m.data == old(m.data)
  {
    x.parent := at.parent;
    x.next_sibling := at.next;
    if at.next != null {
      at.next.prev_sibling := x;
    } else {
      at.parent.last_child := x;
    }
    x.prev_sibling := at.prev;
    if at.prev != null {
      at.prev.next_sibling := x;
    } else {
      at.parent.first_child := x;
    }
  }

  lemma SettledApart(o: Links, m: Node, at: Links, x: Node)
    requires m !in Around(at)
    ensures Settled(o, m, at, x) == o
  {}

  /** The assignments of swap for nodes that are not next to each other. */
  method Reconnect(one: Node, two: Node, ghost nodes: set<Node>)
    requires one != two && {one, two} <= nodes
    requires Around(Fields(one)) + Around(Fields(two)) <= nodes - {one, two}
    requires one.next_sibling == null || one.prev_sibling == null ==> one.parent != null
    requires two.next_sibling == null || two.prev_sibling == null ==> two.parent != null
    modifies nodes
    ensures Fields(one) == old(Fields(two).(first := one.first_child, last := one.last_child))
    ensures Fields(two) == old(Fields(one).(first := two.first_child, last := two.last_child))
    ensures forall m :: m in nodes && m != one && m != two ==>
      Fields(m) == Settled(Settled(old(Fields(m)), m, old(Fields(two)), one), m, old(Fields(one)), two)
    ensures forall m :: m in nodes ==> m.data == old(m.data)
  {
    var at1, at2 := Fields(one), Fields(two);
    SettledApart(at2, two, at2, one);
    SettledApart(at2.(first := at1.first, last := at1.last), one, at1, two);
    assert Around(at1) <= nodes && one !in Around(at2) && Around(at2) <= nodes && two !in Around(at1);
    hide Settled, Around, Fields;
    Settle(one, at2, nodes);
    Settle(two, at1, nodes);
  }

  /** What becomes of a node around `it` and its next sibling `nxt`. */
  function Turned(o: Links, m: Node, at: Links, it: Node, nxt: Node, nxtnxt: Node?): Links {
    Links(o.parent,
          if m == at.parent && at.prev == null then nxt else o.first,
          if m == at.parent && nxtnxt == null then it else o.last,
          if m == nxtnxt then it else o.prev,
          if m == at.prev then nxt else o.next)
  }

  /** The assignments of swap for a node and its next sibling `nxt`. */
  method Turn(it: Node, nxt: Node)
    requires nxt == it.next_sibling && it !in {nxt} + Opt(it.parent) + Opt(it.prev_sibling) + Opt(nxt.next_sibling)
    requires nxt !in Opt(it.parent) + Opt(it.prev_sibling) + Opt(nxt.next_sibling)
    requires it.prev_sibling == null || nxt.next_sibling == null ==> it.parent != null
    modifies it`prev_sibling, it`next_sibling, nxt`prev_sibling, nxt`next_sibling
    modifies Opt(it.parent)`first_child, Opt(it.parent)`last_child, Opt(it.prev_sibling)`next_sibling
    modifies Opt(nxt.next_sibling)`prev_sibling
    ensures it.prev_sibling == nxt && it.next_sibling == old(nxt.next_sibling)
    ensures nxt.prev_sibling == old(it.prev_sibling) && nxt.next_sibling == it
    ensures var p := it.parent; p != null ==>
      p.first_child == if old(it.prev_sibling) == null then nxt else old(it.parent.first_child)
    ensures var p := it.parent; p != null ==>
      p.last_child == if old(nxt.next_sibling) == null then it else old(it.parent.last_child)
    ensures var b := old(it.prev_sibling); b != null ==> b.next_sibling == nxt
    ensures var n := old(nxt.next_sibling); n != null ==> n.prev_sibling == it
  {
    if it.prev_sibling != null {
      it.prev_sibling.next_sibling := nxt;
    } else {
      it.parent.first_child := nxt;
    }
    nxt.prev_sibling := it.prev_sibling;
    var nxtnxt := nxt.next_sibling;
    if nxtnxt != null {
      nxtnxt.prev_sibling := it;
    } else {
      it.parent.last_child := it;
    }
    nxt.next_sibling := it;
    it.prev_sibling := nxt;
    it.next_sibling := nxtnxt;
  }

  /** The same, seen from all `nodes` of a tree. */
  method TurnAround(it: Node, nxt: Node, ghost at: Links, ghost at2: Links, ghost nodes: set<Node>)
    requires at == Fields(it) && at2 == Fields(nxt) && {it, nxt} + Around(at) + Around(at2) <= nodes
    requires nxt == at.next && it !in {nxt} + Opt(at.parent) + Opt(at.prev) + Opt(at2.next)
    requires nxt !in Opt(at.parent) + Opt(at.prev) + Opt(at2.next)
    requires at.prev == null || at2.next == null ==> at.parent != null
    modifies nodes
    ensures Fields(it) == at.(prev := nxt, next := at2.next) && Fields(nxt) == at2.(prev := at.prev, next := it)
    ensures forall m :: m in nodes && m != it && m != nxt ==>
      Fields(m) == Turned(old(Fields(m)), m, at, it, nxt, at2.next)
    ensures forall m :: m in nodes ==> m.data == old(m.data)
  {
    Turn(it, nxt);
  }

  /** Both sets of assignments give every node the links after the exchange. */
  lemma ReconnectedLinks(f: Forest<Node>, c: Pair, m: Node)
    requires c.In(f) && c.one in Elems(f) && c.two in Elems(f) && m in Elems(f)
    requires Link(f, c.one).next != c.two && Link(f, c.two).next != c.one
    ensures m in Elems(Exchanged(f, c))
    ensures var at1, at2, o := Link(f, c.one), Link(f, c.two), Link(f, m);
      Link(Exchanged(f, c), m) ==
      if m == c.one then at2.(first := at1.first, last := at1.last)
      else if m == c.two then at1.(first := at2.first, last := at2.last)
      else Settled(Settled(o, m, at2, c.one), m, at1, c.two)
  {
    ExchangedLinks(f, c, m);
    hide Exchanged, Elems, NoDup, From, Link;
    LinkTriple(f, c.one, m);
    LinkTriple(f, c.two, m);
    LinkTriple(f, c.one, c.two);
    Neighbours(f, c.one);
    Neighbours(f, c.two);
  }

  lemma TurnedLinks(f: Forest<Node>, c: Pair, m: Node)
    requires c.In(f) && c.one in Elems(f) && c.two in Elems(f) && m in Elems(f) && Link(f, c.one).next == c.two
    ensures m in Elems(Exchanged(f, c))
    ensures var at1, at2, o := Link(f, c.one), Link(f, c.two), Link(f, m);
      Link(Exchanged(f, c), m) ==
      if m == c.one then at1.(prev := c.two, next := at2.next)
      else if m == c.two then at2.(prev := at1.prev, next := c.one)
      else Turned(o, m, at1, c.one, c.two, at2.next)
  {
    ExchangedLinks(f, c, m);
    NextParent(f, null, null, c.one);
    hide Exchanged, Elems, NoDup, From, Link;
    LinkTriple(f, c.one, m);
    LinkTriple(f, c.two, m);
    LinkTriple(f, c.one, c.two);
    LinkTriple(f, c.two, c.one);
    Neighbours(f, c.one);
    Neighbours(f, c.two);
  }

  lemma {:induction false} NextParent(f: Forest<Node>, par: Node?, prev: Node?, n: Node)
    requires NoDup(f) && n in Elems(f)
    ensures var o := LinkOf(f, par, prev, n);
      o.next != null ==> o.next in Elems(f) && LinkOf(f, par, prev, o.next).parent == o.parent
  {
    if n in Elems(f.kids) {
      NextParent(f.kids, f.id, null, n);
    } else if n in Elems(f.right) {
      NextParent(f.right, par, f.id, n);
    }
  }

  // ---- The operations ----

  ghost predicate Swappable(t: Tree, one: Node, two: Node)
    reads t
  {
    NoDup(t.all) && Apart(t.all, one, two) && {one, two} !! {t.head, t.feet}
  }

  /** What the operations need to know of the two and what the result is. */
  lemma SwapReady(t: Tree, one: Node, two: Node)
    requires t.Valid() && Swappable(t, one, two)
    ensures {one, two} <= t.nodes && one != two && PairOf(t.all, one, two).In(t.all)
    ensures t.nodes == Elems(t.all) && (forall m :: m in t.nodes ==> Fields(m) == Link(t.all, m))
    ensures Around(Fields(one)) + Around(Fields(two)) <= t.nodes
    ensures one !in Around(Fields(one)) && two !in Around(Fields(two))
    ensures one.parent != two && two.parent != one
    ensures one.next_sibling == null || one.prev_sibling == null ==> one.parent != null
    ensures two.next_sibling == null || two.prev_sibling == null ==> two.parent != null
    ensures one.next_sibling == two <==> two.prev_sibling == one
    ensures two.next_sibling == one <==> one.prev_sibling == two
    ensures one.next_sibling == two ==> two.next_sibling != one
    ensures var h := Exchanged(t.all, PairOf(t.all, one, two));
      NoDup(h) && Elems(h) == t.nodes && Framed(h, t.head, t.feet)
  {
    var f, c := t.all, PairOf(t.all, one, two);
    PairIn(f, one, two);
    ExchangedNodes(f, c);
    ExchangedFramed(f, c, t.head, t.feet);
    Neighbours(f, one);
    Neighbours(f, two);
    InnerNode(f, t.head, t.feet, one);
    InnerNode(f, t.head, t.feet, two);
    LinkTriple(f, one, two);
    NotParent(f, one, two);
    NotParent(f, two, one);
  }

  lemma NotParent(f: Forest<Node>, one: Node, two: Node)
    requires NoDup(f) && one in Elems(f) && two in Elems(f) && one !in Sub(f, two)
    ensures Link(f, one).parent != two
  {
    ParentAbove(f, null, null, one);
  }

  lemma {:induction false} ParentAbove(f: Forest<Node>, par: Node?, prev: Node?, n: Node)
    requires NoDup(f) && n in Elems(f)
    ensures var p := LinkOf(f, par, prev, n).parent;
      p != par ==> p in Elems(f) && n in Elems(From(f, p).kids)
  {
    if n in Elems(f.kids) {
      ParentAbove(f.kids, f.id, null, n);
    } else if n in Elems(f.right) {
      ParentAbove(f.right, par, f.id, n);
    }
  }

  /** swap(it): a node and its next sibling change places. */
  method SwapSiblings(t: Tree, it: Node)
    requires t.Valid() && it in t.nodes && it != t.head
    requires it.next_sibling != null ==> it.next_sibling in Elems(t.all) && Swappable(t, it, it.next_sibling)
    modifies t, t.nodes
    ensures t.Valid() && t.nodes == old(t.nodes) && t.head == old(t.head) && t.feet == old(t.feet)
    ensures var nxt := old(it.next_sibling);
      if nxt == null then t.all == old(t.all)
      else
        it in Elems(old(t.all)) && nxt in Elems(old(t.all)) &&
        t.all == Exchanged(old(t.all), PairOf(old(t.all), it, nxt))
    ensures forall m :: m in t.nodes ==> m.data == old(m.data)
  {
    hide *;
    var nxt := it.next_sibling;
    if nxt != null {
      ghost var was := t.all;
      SwapReady(t, it, nxt);
      TurnReady(t, it, nxt);
      ghost var c := PairOf(was, it, nxt);
      TurnAround(it, nxt, Link(was, it), Link(was, nxt), t.nodes);
      forall m | m in t.nodes
        ensures Fields(m) == Link(Exchanged(was, c), m)
      {
        TurnedLinks(was, c, m);
      }
      Install(t, Exchanged(was, c), t.nodes);
    }
  }

  lemma TurnReady(t: Tree, it: Node, nxt: Node)
    requires t.Valid() && Swappable(t, it, nxt) && it.next_sibling == nxt
    ensures it in Elems(t.all) && nxt in Elems(t.all)
    ensures var at, at2 := Link(t.all, it), Link(t.all, nxt);
      && at == Fields(it) && at2 == Fields(nxt) && {it, nxt} + Around(at) + Around(at2) <= t.nodes
      && nxt == at.next && it !in {nxt} + Opt(at.parent) + Opt(at.prev) + Opt(at2.next)
      && nxt !in Opt(at.parent) + Opt(at.prev) + Opt(at2.next)
      && (at.prev == null || at2.next == null ==> at.parent != null)
    ensures PairOf(t.all, it, nxt).one == it && PairOf(t.all, it, nxt).two == nxt
  {
    SwapReady(t, it, nxt);
    NextParent(t.all, null, null, it);
  }

  /** swap(one, two) */
  method Swap(t: Tree, one: Node, two: Node)
    requires t.Valid() && Swappable(t, one, two)
    modifies t, t.nodes
    ensures t.Valid() && t.nodes == old(t.nodes) && t.head == old(t.head) && t.feet == old(t.feet)
    ensures one in Elems(old(t.all)) && two in Elems(old(t.all))
    ensures t.all == Exchanged(old(t.all), PairOf(old(t.all), one, two))
    ensures forall m :: m in t.nodes ==> m.data == old(m.data)
  {
    hide *;
    SwapReady(t, one, two);
    PairParts(t, one, two);
    if one.next_sibling == two {
      SwapSiblings(t, one);
    } else if two.next_sibling == one {
      SwapSiblings(t, two);
    } else {
      ghost var was := t.all;
      ghost var c := PairOf(was, one, two);
      Reconnect(one, two, t.nodes);
      forall m | m in t.nodes
        ensures Fields(m) == Link(Exchanged(was, c), m)
      {
        ReconnectedLinks(was, c, m);
      }
      Install(t, Exchanged(was, c), t.nodes);
    }
  }

  lemma PairParts(t: Tree, one: Node, two: Node)
    requires t.Valid() && Swappable(t, one, two)
    ensures Swappable(t, two, one) && {one, two} <= t.nodes && one in Elems(t.all) && two in Elems(t.all)
    ensures one != t.head && two != t.head
    ensures var c := PairOf(t.all, one, two);
      && c.one == one && c.two == two && c.In(t.all)
      && Exchanged(t.all, PairOf(t.all, two, one)) == Exchanged(t.all, c)
    ensures Fields(one) == Link(t.all, one) && Fields(two) == Link(t.all, two)
    ensures one.next_sibling == Link(t.all, one).next && two.next_sibling == Link(t.all, two).next
    ensures one.first_child == Link(t.all, one).first && two.first_child == Link(t.all, two).first
    ensures one.last_child == Link(t.all, one).last && two.last_child == Link(t.all, two).last
    ensures one.next_sibling != two && two.next_sibling != one ==>
      Around(Fields(one)) + Around(Fields(two)) <= t.nodes - {one, two}
  {
    hide Elems, NoDup, From, Link, LinkOf, Exchanged, Tree.Valid, Sub;
    SwapReady(t, one, two);
    FlipIn(t.all, PairOf(t.all, one, two));
  }
}
