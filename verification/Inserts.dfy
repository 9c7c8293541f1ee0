/** The other ways to put a node or a subtree next to, or below, a given node. */
module TreeInserts {
  import opened Forests
  import opened TreeLinks
  import opened TreeEdits
  import opened TreeSurgery
  import opened TreeCompare
  import opened Trees
  import opened TreeCopy
  import opened TreeReplace

  // ---- insert_after ----

  /** The pointer surgery of `insert_after`. */
  method LinkLeafAfter(pos: Node, tmp: Node)
    requires tmp !in {pos} + Opt(pos.next_sibling) + Opt(pos.parent)
    requires pos !in Opt(pos.next_sibling) + Opt(pos.parent)
    requires pos.parent != null ==> pos.parent != pos.next_sibling
    modifies pos, tmp, Opt(pos.next_sibling), Opt(pos.parent)
    ensures Fields(tmp) == old(Links(pos.parent, null, null, pos, pos.next_sibling))
    ensures forall m :: m in {pos} + Opt(old(pos.next_sibling)) + Opt(old(pos.parent)) ==>
      Fields(m) == InsertedAfterLink(old(Fields(m)), m, pos, old(Fields(pos)), tmp)
    ensures forall m :: m in {pos, tmp} + Opt(old(pos.next_sibling)) + Opt(old(pos.parent)) ==> m.data == old(m.data)
  {
    tmp.first_child := null;
    tmp.last_child := null;
    tmp.parent := pos.parent;
    tmp.prev_sibling := pos;
    tmp.next_sibling := pos.next_sibling;
    pos.next_sibling := tmp;
    if tmp.next_sibling == null {
      if tmp.parent != null {
        tmp.parent.last_child := tmp;
      }
    } else {
      tmp.next_sibling.prev_sibling := tmp;
    }
  }

  lemma LeafInsertedAfter(f: Forest<Node>, pos: Node, x: Node, head: Node, feet: Node)
    requires Framed(f, head, feet) && pos in Elems(f) && pos != feet && x !in Elems(f)
    ensures var at, h := Link(f, pos), InsertedAfter(f, pos, x, Nil);
      && NoDup(h) && Elems(h) == Elems(f) + {x} && Framed(h, head, feet)
      && Link(h, x) == Links(at.parent, null, null, pos, at.next)
      && (forall m :: m in Elems(f) ==> Link(h, m) == InsertedAfterLink(Link(f, m), m, pos, at, x))
      && pos !in Opt(at.next) + Opt(at.parent) && Opt(at.next) + Opt(at.parent) <= Elems(f)
      && (at.parent != null ==> at.parent != at.next)
  {
    Neighbours(f, pos);
    InsertedAfterElems(f, pos, x, Nil);
    InsertedAfterFramed(f, pos, x, Nil, head, feet);
    forall m | m in Elems(f) + {x}
      ensures Link(InsertedAfter(f, pos, x, Nil), m) ==
        if m == x then Links(Link(f, pos).parent, null, null, pos, Link(f, pos).next)
        else InsertedAfterLink(Link(f, m), m, pos, Link(f, pos), x)
    {
      InsertedAfterLinks(f, pos, x, Nil, m);
    }
  }

  /** insert_after(position, x) */
  method InsertAfter(t: Tree, position: Node, x: Value) returns (tmp: Node)
    requires t.Valid() && position in t.nodes && position != t.feet
    modifies t, t.nodes
    ensures t.Valid() && fresh(tmp) && tmp.data == x && t.head == old(t.head) && t.feet == old(t.feet)
    ensures t.nodes == old(t.nodes) + {tmp} && t.all == InsertedAfter(old(t.all), position, tmp, Nil)
    ensures position.next_sibling == tmp && tmp.prev_sibling == position && tmp.first_child == null
    ensures forall m :: m in old(t.nodes) ==> m.data == old(m.data)
  {
    ghost var was, nodes := t.all, t.nodes;
    Unfold(t);
    hide *;
    tmp := new Node(x);
    LeafInsertedAfter(was, position, tmp, t.head, t.feet);
    PutLeafAfter(position, tmp, nodes);
    Install(t, InsertedAfter(was, position, tmp, Nil), nodes + {tmp});
  }

  /** The same, seen from all nodes. */
  method PutLeafAfter(pos: Node, tmp: Node, ghost nodes: set<Node>)
    requires pos in nodes && tmp !in nodes && Opt(pos.next_sibling) + Opt(pos.parent) <= nodes - {pos}
    requires pos.parent != null ==> pos.parent != pos.next_sibling
    modifies nodes, tmp
    ensures pos.next_sibling == tmp && tmp.prev_sibling == pos && tmp.first_child == null
    ensures Fields(tmp) == old(Links(pos.parent, null, null, pos, pos.next_sibling)) && tmp.data == old(tmp.data)
    ensures forall m :: m in nodes ==>
      m.data == old(m.data) && Fields(m) == InsertedAfterLink(old(Fields(m)), m, pos, old(Fields(pos)), tmp)
  {
    LinkLeafAfter(pos, tmp);
  }

  // ---- prepend_child ----

  /** A childless `x` as the first child of `p`. */
  ghost function Prepended<A>(f: Forest<A>, p: A, x: A): Forest<A>
    requires p in Elems(f)
  {
    var g := From(f, p);
    Replace(f, p, Cons(p, Cons(x, Nil, g.kids), g.right))
  }

  function PrependedLink(o: Links, m: Node, p: Node, first: Node?, x: Node): Links {
    Links(o.parent,
          if m == p then x else o.first,
          if m == p && o.first == null then x else o.last,
          if m == first then x else o.prev,
          o.next)
  }

  /** Replacing the list below a node, from its first child on. */
  lemma ReplaceKids(f: Forest<Node>, p: Node, h: Forest<Node>)
    requires NoDup(f) && p in Elems(f) && From(f, p).kids.Cons?
    ensures var g := From(f, p);
      g.kids.id in Elems(f) && From(f, g.kids.id) == g.kids &&
        Replace(f, g.kids.id, h) == Replace(f, p, Cons(p, h, g.right))
  {
    var g := From(f, p);
    LinkShape(f, null, null, p);
    ReplaceSame(f, p);
    ReplaceReplace(f, p, g, g.kids.id, h);
  }

  lemma LeafPrepended(f: Forest<Node>, p: Node, x: Node, head: Node, feet: Node)
    requires Framed(f, head, feet) && p in Elems(f) && p != head && p != feet && x !in Elems(f)
    ensures var at, h := Link(f, p), Prepended(f, p, x);
      && NoDup(h) && Elems(h) == Elems(f) + {x} && Framed(h, head, feet)
      && Link(h, x) == Links(p, null, null, null, at.first)
      && (forall m :: m in Elems(f) ==> Link(h, m) == PrependedLink(Link(f, m), m, p, at.first, x))
      && (at.first == null <==> at.last == null) && p !in Opt(at.first) && Opt(at.first) <= Elems(f)
  {
    var k := From(f, p).kids;
    LinkShape(f, null, null, p);
    Neighbours(f, p);
    LastIn(k);
    if k.Cons? {
      PrependedFirst(f, p, x, head, feet);
    } else {
      LeafAppended(f, p, x, head, feet);
      assert Prepended(f, p, x) == Appended(f, p, Cons(x, Nil, Nil));
      forall m | m in Elems(f)
        ensures Link(Prepended(f, p, x), m) == PrependedLink(Link(f, m), m, p, null, x)
      {
        assert Link(Appended(f, p, Cons(x, Nil, Nil)), m) == AppendedLink(Link(f, m), m, p, null, Cons(x, Nil, Nil));
      }
    }
  }

  lemma PrependedFirst(f: Forest<Node>, p: Node, x: Node, head: Node, feet: Node)
    requires Framed(f, head, feet) && p in Elems(f) && x !in Elems(f) && From(f, p).kids.Cons?
    ensures var at, h := Link(f, p), Prepended(f, p, x);
      && NoDup(h) && Elems(h) == Elems(f) + {x} && Framed(h, head, feet)
      && Link(h, x) == Links(p, null, null, null, at.first)
      && (forall m :: m in Elems(f) ==> Link(h, m) == PrependedLink(Link(f, m), m, p, at.first, x))
  {
    var c := From(f, p).kids.id;
    ReplaceKids(f, p, Cons(x, Nil, From(f, p).kids));
    LinkShape(f, null, null, p);
    BelowHasParent(f, head, feet, p);
    assert Prepended(f, p, x) == Inserted(f, c, x, Nil);
    LeafInserted(f, c, x, head, feet);
    LinkTriple(f, c, p);
    forall m | m in Elems(f)
      ensures Link(Prepended(f, p, x), m) == PrependedLink(Link(f, m), m, p, c, x)
    {
      assert Link(Inserted(f, c, x, Nil), m) == Patched(Link(f, m), m, Link(f, c), c, x);
    }
  }

  /** The pointer surgery of `prepend_child`. */
  method LinkFirst(pos: Node, tmp: Node)
    requires tmp != pos && tmp !in Opt(pos.first_child) && pos !in Opt(pos.first_child)
    modifies pos, tmp, Opt(pos.first_child)
    ensures Fields(tmp) == old(Links(pos, null, null, null, pos.first_child))
    ensures forall m :: m in {pos} + Opt(old(pos.first_child)) ==>
      Fields(m) == PrependedLink(old(Fields(m)), m, pos, old(pos.first_child), tmp)
    ensures forall m :: m in {pos, tmp} + Opt(old(pos.first_child)) ==> m.data == old(m.data)
  {
    tmp.first_child := null;
    tmp.last_child := null;
    tmp.parent := pos;
    if pos.first_child != null {
      pos.first_child.prev_sibling := tmp;
    } else {
      pos.last_child := tmp;
    }
    tmp.next_sibling := pos.first_child;
    pos.first_child := tmp;
    tmp.prev_sibling := null;
  }

  method PutFirst(pos: Node, tmp: Node, ghost nodes: set<Node>)
    requires pos in nodes && tmp !in nodes && Opt(pos.first_child) <= nodes - {pos}
    modifies nodes, tmp
    ensures pos.first_child == tmp && tmp.parent == pos && tmp.prev_sibling == tmp.first_child == null
    ensures Fields(tmp) == old(Links(pos, null, null, null, pos.first_child)) && tmp.data == old(tmp.data)
    ensures forall m :: m in nodes ==>
      m.data == old(m.data) && Fields(m) == PrependedLink(old(Fields(m)), m, pos, old(pos.first_child), tmp)
  {
    LinkFirst(pos, tmp);
  }

  /** prepend_child(position, x) */
  method PrependChild(t: Tree, position: Node, x: Value) returns (tmp: Node)
    requires t.Valid() && position in t.nodes && position != t.head && position != t.feet
    modifies t, t.nodes
    ensures t.Valid() && fresh(tmp) && tmp.data == x && t.head == old(t.head) && t.feet == old(t.feet)
    ensures t.nodes == old(t.nodes) + {tmp} && t.all == Prepended(old(t.all), position, tmp)
    ensures position.first_child == tmp && tmp.parent == position && tmp.prev_sibling == tmp.first_child == null
    ensures forall m :: m in old(t.nodes) ==> m.data == old(m.data)
  {
    ghost var was, nodes := t.all, t.nodes;
    Unfold(t);
    hide *;
    tmp := new Node(x);
    LeafPrepended(was, position, tmp, t.head, t.feet);
    PutFirst(position, tmp, nodes);
    Install(t, Prepended(was, position, tmp), nodes + {tmp});
  }

  // ---- move_before ----

  ghost function MovedBefore(f: Forest<Node>, dst: Node, src: Node): Forest<Node>
    requires NoDup(f) && dst in Elems(f) && src in Elems(f) && dst !in Sub(f, src)
  {
    RemovedElems(f, src);
    Inserted(Removed(f, src), dst, src, From(f, src).kids)
  }

  /** Moving a node to where it already is changes nothing. */
  lemma {:induction false} StandsBefore(f: Forest<Node>, par: Node?, prev: Node?, dst: Node, src: Node)
    requires NoDup(f) && dst in Elems(f) && src in Elems(f) && prev !in Elems(f)
    requires LinkOf(f, par, prev, dst).prev == src
    ensures dst !in Sub(f, src)
    ensures MovedBefore(f, dst, src) == f
  {
    RemovedElems(f, src);
    if f.id == src {
      assert f.right.Cons? && f.right.id == dst by {
        if dst in Elems(f.kids) {
          LinkRange(f.kids, f.id, null, dst);
        } else {
          NextRoot(f.right, par, f.id, dst);
        }
      }
      assert Removed(f, src) == f.right;
    } else if dst in Elems(f.kids) {
      LinkRange(f.kids, f.id, null, dst);
      RemovedElems(f.kids, src);
      StandsBefore(f.kids, f.id, null, dst, src);
    } else {
      LinkRange(f.right, par, f.id, dst);
      RemovedElems(f.right, src);
      StandsBefore(f.right, par, f.id, dst, src);
    }
  }

  lemma {:induction false} NextRoot(f: Forest<Node>, par: Node?, prev: Node?, n: Node)
    requires NoDup(f) && n in Elems(f) && prev != null && prev !in Elems(f) && LinkOf(f, par, prev, n).prev == prev
    ensures f.id == n
  {
    if n in Elems(f.kids) {
      LinkRange(f.kids, f.id, null, n);
    } else if n in Elems(f.right) {
      LinkRange(f.right, par, f.id, n);
    }
  }

  function MovedBeforeLink(o: Links, m: Node, dst: Node, src: Node, at: Links, to: Links): Links {
    Patched(RemovedLink(o, src, at), m, to, dst, src)
  }

  lemma MovedBeforeAt(f: Forest<Node>, dst: Node, src: Node, m: Node)
    requires NoDup(f) && dst in Elems(f) && src in Elems(f) && dst !in Sub(f, src) && m in Elems(f)
    ensures m in Elems(MovedBefore(f, dst, src))
    ensures var at := Link(f, src);
      var to := RemovedLink(Link(f, dst), src, at);
      Link(MovedBefore(f, dst, src), m) ==
        if m == src then Links(to.parent, at.first, at.last, to.prev, dst)
        else MovedBeforeLink(Link(f, m), m, dst, src, at, to)
  {
    var f1, k := Removed(f, src), From(f, src).kids;
    RemovedElems(f, src);
    RemovedLinks(f, src, dst);
    LinkShape(f, null, null, src);
    RemovedLinks(f, src, m);
    InsertedLinks(f1, dst, src, k, m);
    if m in Elems(k) {
      LinkRange(k, src, null, m);
      LastIn(k);
      LinkIn(f1, dst);
    }
  }

  lemma MovedBeforeTree(f: Forest<Node>, dst: Node, src: Node, head: Node, feet: Node)
    requires Framed(f, head, feet)
    requires dst in Elems(f) && dst != head && src in Elems(f) && src != head && src != feet && dst !in Sub(f, src)
    ensures var at, h := Link(f, src), MovedBefore(f, dst, src);
      var to := RemovedLink(Link(f, dst), src, at);
      && Framed(h, head, feet) && NoDup(h) && Elems(h) == Elems(f)
      && (to.prev == null ==> to.parent != null) && Opt(to.prev) + Opt(to.parent) <= Elems(f) - {src, dst}
      && (to.parent != null ==> to.parent != to.prev)
  {
    var f1, k := Removed(f, src), From(f, src).kids;
    RemovedElems(f, src);
    RemovedLinks(f, src, dst);
    RemovedFramed(f, src, head, feet);
    InnerNode(f1, head, feet, dst);
    InsertedElems(f1, dst, src, k);
    InsertedFramed(f1, dst, src, k, head, feet);
    Neighbours(f1, dst);
  }

  /** Connect `src` with its subtree as the previous sibling of `dst`. */
  method PutBefore(dst: Node, src: Node, ghost nodes: set<Node>)
    requires dst.prev_sibling == null ==> dst.parent != null
    requires src != dst && {src, dst} <= nodes && Opt(dst.prev_sibling) + Opt(dst.parent) <= nodes - {src, dst}
    requires dst.parent != null ==> dst.parent != dst.prev_sibling
    modifies nodes
    ensures dst.prev_sibling == src
    ensures Fields(src) == old(Links(dst.parent, src.first_child, src.last_child, dst.prev_sibling, dst))
    ensures forall m :: m in nodes && m != src ==> Fields(m) == Patched(old(Fields(m)), m, old(Fields(dst)), dst, src)
    ensures forall m :: m in nodes ==> m.data == old(m.data)
  {
    if dst.prev_sibling != null {
      dst.prev_sibling.next_sibling := src;
    } else {
      dst.parent.first_child := src;
    }
    src.prev_sibling := dst.prev_sibling;
    dst.prev_sibling := src;
    src.next_sibling := dst;
    src.parent := dst.parent;
  }

  /** move_before(target, source), for a target outside the moved subtree. */
  method MoveBefore(t: Tree, target: Node, source: Node) returns (r: Node)
    requires t.Valid() && target in t.nodes && target != t.head
    requires source in t.nodes && source != t.head && source != t.feet
    requires target == source || target !in Sub(t.all, source)
    modifies t, t.nodes
    ensures t.Valid() && r == source && t.nodes == old(t.nodes) && t.head == old(t.head) && t.feet == old(t.feet)
    ensures t.all == if target == source then old(t.all) else MovedBefore(old(t.all), target, source)
    ensures target != source ==> target.prev_sibling == source
    ensures forall m :: m in t.nodes ==> m.data == old(m.data)
  {
    r := source;
    if target == source {
      return;
    }
    if target.prev_sibling != null {
      if target.prev_sibling == source {
        StandsBefore(t.all, null, null, target, source);
        return;
      }
    }
    RelocateBefore(t, target, source);
  }

  /** The pointer part of move_before. */
  method RelocateBefore(t: Tree, target: Node, source: Node)
    requires t.Valid() && target in t.nodes && target != t.head
    requires source in t.nodes && source != t.head && source != t.feet && target !in Sub(t.all, source)
    modifies t, t.nodes
    ensures t.Valid() && t.nodes == old(t.nodes) && t.head == old(t.head) && t.feet == old(t.feet)
    ensures t.all == MovedBefore(old(t.all), target, source) && target.prev_sibling == source
    ensures forall m :: m in t.nodes ==> m.data == old(m.data)
  {
    ghost var was, nodes := t.all, t.nodes;
    Unfold(t);
    SubIn(was, source);
    hide *;
    MovedBeforeTree(was, target, source, t.head, t.feet);
    ghost var at := Link(was, source);
    ghost var to := RemovedLink(Link(was, target), source, at);
    TakeOut(source, was, nodes, t.head, t.feet);
    assert Fields(source) == at && Fields(target) == to;
    PutBefore(target, source, nodes);
    forall m | m in nodes
      ensures Fields(m) == Link(MovedBefore(was, target, source), m)
    {
      MovedBeforeAt(was, target, source, m);
    }
    Install(t, MovedBefore(was, target, source), nodes);
  }

  // ---- insert_subtree ----

  /** Where the dummy was there is then the copy. */
  lemma InsertedReplaced(f: Forest<Node>, pos: Node, it: Node, r: Node, k: Forest<Node>)
    requires NoDup(f) && pos in Elems(f) && it !in Elems(f)
    ensures it in Elems(Inserted(f, pos, it, Nil))
    ensures Replaced(Inserted(f, pos, it, Nil), it, r, k) == Inserted(f, pos, r, k)
    ensures Sub(Inserted(f, pos, it, Nil), it) == {it}
  {
    var g := Cons(it, Nil, From(f, pos));
    FromReplace(f, pos, g, it);
    ReplaceReplace(f, pos, g, it, Cons(r, k, From(f, pos)));
  }

  /** A node in front of `pos` is not below `n` unless `pos` is. */
  lemma InsertedElsewhere(f: Forest<Node>, pos: Node, it: Node, n: Node)
    requires NoDup(f) && pos in Elems(f) && it !in Elems(f) && n in Elems(f) && pos !in Elems(From(f, n).kids)
    ensures n in Elems(Inserted(f, pos, it, Nil)) && From(Inserted(f, pos, it, Nil), n).kids == From(f, n).kids
  {
    FromReplace(f, pos, Cons(it, Nil, From(f, pos)), n);
    if n in Elems(From(f, pos)) {
      FromFrom(f, pos, n);
    }
  }

  /** What replace asks for, with the dummy in place. */
  lemma DummyInPlace(t: Tree, was: Forest<Node>, pos: Node, it: Node, u: Tree, from: Node, source: Forest<Node>)
    requires NoDup(was) && pos in Elems(was) && it !in Elems(was) && t.all == Inserted(was, pos, it, Nil)
    requires t.Valid() && t.head in Elems(was) && t.feet in Elems(was) && u.Valid() && it in t.nodes
    requires if u == t then from in Elems(was) && pos !in Elems(From(was, from).kids) && source == From(was, from).kids
      else u.nodes !! t.nodes && from in u.nodes && source == From(u.all, from).kids
    ensures it != t.head && it != t.feet && from in u.nodes && From(u.all, from).kids == source
    ensures u == t ==> it !in Sub(t.all, from) && from !in Sub(t.all, it)
    ensures Sub(t.all, it) == {it}
  {
    InsertedReplaced(was, pos, it, it, Nil);
    if u == t {
      InsertedElsewhere(was, pos, it, from);
    }
  }

  /** insert_subtree(position, from), also from the tree itself when `position` is not below `from`. */
  method InsertSubtree(t: Tree, position: Node?, u: Tree, from: Node, dummy: Value)
    returns (r: Node, ghost k: Forest<Node>)
    requires t.Valid() && u.Valid() && (u == t || u.nodes !! t.nodes)
    requires position != null ==> position in t.nodes && position != t.head
    requires from in u.nodes && (u == t ==> position !in Elems(From(t.all, from).kids))
    modifies t, t.nodes
    ensures t.Valid() && u.Valid() && t.head == old(t.head) && t.feet == old(t.feet)
    ensures var pos := if position == null then t.feet else position;
      pos in Elems(old(t.all)) && t.all == Inserted(old(t.all), pos, r, k)
    ensures r.data == old(from.data) && Labels(k) == old(Labels(From(u.all, from).kids))
    ensures fresh(r) && fresh(Elems(k))
    ensures forall m :: m in old(t.nodes) ==> m.data == old(m.data)
  {
    ghost var was, nodes, sources, source := t.all, t.nodes, u.nodes, From(u.all, from).kids;
    ghost var pos := if position == null then t.feet else position;
    BeforeDummy(t, u, from, pos);
    hide *;
    var it := t.Insert(position, dummy);
    LabelsKept(Within(source, sources));
    StillSource(t, u, was, pos, it, sources);
    DummyInPlace(t, was, pos, it, u, from, source);
    r, k := ReplaceSubtree(t, it, u, from);
    InsertedReplaced(was, pos, it, r, k);
  }

  lemma BeforeDummy(t: Tree, u: Tree, from: Node, pos: Node)
    requires t.Valid() && u.Valid() && from in u.nodes && pos in t.nodes
    requires u == t ==> pos == t.feet || pos !in Elems(From(t.all, from).kids)
    ensures NoDup(t.all) && t.nodes == Elems(t.all) && {t.head, t.feet} <= t.nodes && pos in Elems(t.all)
    ensures from in Elems(u.all) && Elems(From(u.all, from).kids) <= u.nodes && u.nodes == Elems(u.all)
    ensures u == t ==> pos !in Elems(From(t.all, from).kids)
  {
    KidsIn(u.all, from);
    BelowHasParent(u.all, u.head, u.feet, from);
  }

  /** Another tree does not notice the dummy. */
  lemma StillSource(t: Tree, u: Tree, was: Forest<Node>, pos: Node, it: Node, sources: set<Node>)
    requires t.Valid() && NoDup(was) && pos in Elems(was) && it !in Elems(was) && t.all == Inserted(was, pos, it, Nil)
    requires u != t ==> u.nodes == sources && Elems(was) !! sources && it !in sources
    ensures u != t ==> u.nodes !! t.nodes
    ensures it in t.nodes
  {
    InsertedElems(was, pos, it, Nil);
  }
}
