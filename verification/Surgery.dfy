/** The pointer assignments of the structural edits, each on the few nodes that
    it touches. */
module TreeSurgery {
  import opened TreeLinks

  ghost function Opt(n: Node?): set<Node> {
    if n == null then {} else {n}
  }

  /** The pointer surgery of `insert`: hook the childless `tmp` in before `pos`. */
  method LinkBefore(pos: Node, tmp: Node)
    requires tmp != pos && tmp != pos.parent && tmp != pos.prev_sibling
    requires pos.parent != pos && pos.prev_sibling != pos
    requires pos.parent != null ==> pos.parent != pos.prev_sibling
    modifies pos, tmp, Opt(pos.prev_sibling), Opt(pos.parent)
    ensures Fields(tmp) == old(Links(pos.parent, null, null, pos.prev_sibling, pos))
    ensures Fields(pos) == old(Fields(pos)).(prev := tmp)
    ensures var p := old(pos.prev_sibling); p != null ==> Fields(p) == old(Fields(p)).(next := tmp)
    ensures var p := old(pos.parent); p != null ==>
      Fields(p) == old(Fields(p)).(first := if old(pos.prev_sibling) == null then tmp else old(p.first_child))
    ensures forall m :: m in {pos, tmp} + Opt(old(pos.prev_sibling)) + Opt(old(pos.parent)) ==> m.data == old(m.data)
  {
    tmp.first_child := null;
    tmp.last_child := null;
    tmp.parent := pos.parent;
    tmp.next_sibling := pos;
    tmp.prev_sibling := pos.prev_sibling;
    pos.prev_sibling := tmp;
    if tmp.prev_sibling == null {
      if tmp.parent != null {
        tmp.parent.first_child := tmp;
      }
    } else {
      tmp.prev_sibling.next_sibling := tmp;
    }
  }

  /** The pointer surgery of `append_child`: `tmp` becomes the last child of `pos`. */
  method LinkLast(pos: Node, tmp: Node)
    requires tmp != pos && tmp != pos.last_child && pos != pos.last_child
    requires pos.last_child == null <==> pos.first_child == null
    modifies pos, tmp, Opt(pos.last_child)
    ensures Fields(tmp) == old(Links(pos, null, null, pos.last_child, null))
    ensures Fields(pos) ==
      old(Fields(pos)).(first := if old(pos.first_child) == null then tmp else old(pos.first_child), last := tmp)
    ensures var l := old(pos.last_child); l != null ==> Fields(l) == old(Fields(l)).(next := tmp)
    ensures forall m :: m in {pos, tmp} + Opt(old(pos.last_child)) ==> m.data == old(m.data)
  {
    tmp.first_child := null;
    tmp.last_child := null;
    tmp.parent := pos;
    if pos.last_child != null {
      pos.last_child.next_sibling := tmp;
    } else {
      pos.first_child := tmp;
    }
    tmp.prev_sibling := pos.last_child;
    pos.last_child := tmp;
    tmp.next_sibling := null;
  }

  /** Take `src` with its subtree out of its sibling list; its own links stay. */
  method Unlink(src: Node)
    requires src.prev_sibling == null ==> src.parent != null
    requires src.next_sibling == null ==> src.parent != null
    requires src !in Opt(src.prev_sibling) + Opt(src.next_sibling) + Opt(src.parent)
    requires src.parent != null ==> src.parent != src.prev_sibling && src.parent != src.next_sibling
    requires src.prev_sibling != null ==> src.prev_sibling != src.next_sibling
    modifies Opt(src.prev_sibling), Opt(src.next_sibling), Opt(src.parent)
    ensures var p := src.prev_sibling; p != null ==> Fields(p) == old(Fields(p)).(next := src.next_sibling)
    ensures var p := src.next_sibling; p != null ==> Fields(p) == old(Fields(p)).(prev := src.prev_sibling)
    ensures var p := src.parent; p != null ==> Fields(p) == old(Fields(p)).(
      first := if src.prev_sibling == null then src.next_sibling else old(p.first_child),
      last := if src.next_sibling == null then src.prev_sibling else old(p.last_child))
    ensures forall m :: m in Opt(src.prev_sibling) + Opt(src.next_sibling) + Opt(src.parent) ==> m.data == old(m.data)
  {
    if src.prev_sibling != null {
      src.prev_sibling.next_sibling := src.next_sibling;
    } else {
      src.parent.first_child := src.next_sibling;
    }
    if src.next_sibling != null {
      src.next_sibling.prev_sibling := src.prev_sibling;
    } else {
      src.parent.last_child := src.prev_sibling;
    }
  }

  /** Connect `src` with its subtree as the next sibling of `dst`. */
  method LinkAfter(dst: Node, src: Node)
    requires dst.next_sibling == null ==> dst.parent != null
    requires src != dst && src !in Opt(dst.next_sibling) + Opt(dst.parent)
    requires dst !in Opt(dst.next_sibling) + Opt(dst.parent)
    requires dst.parent != null ==> dst.parent != dst.next_sibling
    modifies dst, src, Opt(dst.next_sibling), Opt(dst.parent)
    ensures Fields(src) == old(Links(dst.parent, src.first_child, src.last_child, dst, dst.next_sibling))
    ensures Fields(dst) == old(Fields(dst)).(next := src)
    ensures var p := old(dst.next_sibling); p != null ==> Fields(p) == old(Fields(p)).(prev := src)
    ensures var p := old(dst.parent); p != null ==>
      Fields(p) == old(Fields(p)).(last := if old(dst.next_sibling) == null then src else old(p.last_child))
    ensures forall m :: m in {dst, src} + Opt(old(dst.next_sibling)) + Opt(old(dst.parent)) ==> m.data == old(m.data)
  {
    if dst.next_sibling != null {
      dst.next_sibling.prev_sibling := src;
    } else {
      dst.parent.last_child := src;
    }
    src.next_sibling := dst.next_sibling;
    dst.next_sibling := src;
    src.prev_sibling := dst;
    src.parent := dst.parent;
  }

  /** The pointer surgery of `replace`: the childless `tmp` takes the place of `pos`. */
  method PutInPlace(pos: Node, tmp: Node)
    requires tmp !in {pos} + Opt(pos.prev_sibling) + Opt(pos.next_sibling) + Opt(pos.parent)
    requires pos !in Opt(pos.prev_sibling) + Opt(pos.next_sibling) + Opt(pos.parent)
    requires pos.parent != null ==> pos.parent != pos.prev_sibling && pos.parent != pos.next_sibling
    requires pos.prev_sibling != null ==> pos.prev_sibling != pos.next_sibling
    modifies tmp, Opt(pos.prev_sibling), Opt(pos.next_sibling), Opt(pos.parent)
    ensures Fields(tmp) == Links(pos.parent, null, null, pos.prev_sibling, pos.next_sibling)
    ensures var p := pos.prev_sibling; p != null ==> Fields(p) == old(Fields(p)).(next := tmp)
    ensures var p := pos.next_sibling; p != null ==> Fields(p) == old(Fields(p)).(prev := tmp)
    ensures var p := pos.parent; p != null ==> Fields(p) == old(Fields(p)).(
      first := if pos.prev_sibling == null then tmp else old(p.first_child),
      last := if pos.next_sibling == null then tmp else old(p.last_child))
    ensures forall m :: m in {tmp} + Opt(pos.prev_sibling) + Opt(pos.next_sibling) + Opt(pos.parent) ==>
      m.data == old(m.data)
  {
    tmp.first_child := null;
    tmp.last_child := null;
    if pos.prev_sibling == null {
      if pos.parent != null {
        pos.parent.first_child := tmp;
      }
    } else {
      pos.prev_sibling.next_sibling := tmp;
    }
    tmp.prev_sibling := pos.prev_sibling;
    if pos.next_sibling == null {
      if pos.parent != null {
        pos.parent.last_child := tmp;
      }
    } else {
      pos.next_sibling.prev_sibling := tmp;
    }
    tmp.next_sibling := pos.next_sibling;
    tmp.parent := pos.parent;
  }
}
