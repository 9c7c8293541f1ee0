/** The pointer n-ary tree: a top-level sibling list between the dummy nodes
    `head` and `feet`.  The ghost field `all` is that whole list, both dummies
    included. */
module Trees {
  import opened Forests
  import opened TreeLinks
  import opened TreeEdits
  import opened TreeSurgery

  class Tree {
    var head: Node
    var feet: Node
    ghost var all: Forest<Node>
    ghost var nodes: set<Node>

    ghost predicate Valid()
      reads this, nodes
    {
      && nodes == Elems(all)
      && Framed(all, head, feet) && NoDup(all) && {head, feet} <= nodes && head != feet
      && forall n :: n in nodes ==> Fields(n) == Link(all, n)
    }

    constructor (x: Value)
      ensures Valid() && all == Cons(head, Nil, Cons(feet, Nil, Nil))
      ensures fresh(head) && fresh(feet)
    {
      head := new Node(x);
      feet := new Node(x);
      new;
      head.next_sibling := feet;
      feet.prev_sibling := head;
      all := Cons(head, Nil, Cons(feet, Nil, Nil));
      nodes := {head, feet};
      EmptyFramed(head, feet);
    }

    method Insert(position: Node?, x: Value) returns (tmp: Node)
      requires Valid()
      requires position != null ==> position in nodes && position != head
      modifies this, nodes
      ensures Valid() && fresh(tmp) && tmp.data == x && head == old(head) && feet == old(feet)
      ensures nodes == old(nodes) + {tmp}
      ensures all == Inserted(old(all), if position == null then feet else position, tmp, Nil)
      ensures var pos := if position == null then feet else position;
        tmp.next_sibling == pos && pos.prev_sibling == tmp && tmp.parent == pos.parent && tmp.first_child == null
      ensures forall m :: m in old(nodes) ==> m.data == old(m.data)
    {
      hide Elems, NoDup, From, Replace, LinkOf, Link, Inserted;
      var pos := if position == null then feet else position;
      tmp := new Node(x);
      Neighbours(all, pos);
      ghost var at := Link(all, pos);
      LinkBefore(pos, tmp);
      ghost var was := all;
      LeafInserted(was, pos, tmp, head, feet);
      all, nodes := Inserted(was, pos, tmp, Nil), nodes + {tmp};
      forall m | m in nodes
        ensures Fields(m) == Link(all, m)
      {
        if m != tmp {
          assert Fields(m) == Patched(Link(was, m), m, at, pos, tmp);
        }
      }
      hide Patched, Fields, Framed;
    }

    /** append_child(position, x) */
    method AppendChild(position: Node, x: Value) returns (tmp: Node)
      requires Valid()
      requires position in nodes && position != head && position != feet
      modifies this, nodes
      ensures Valid() && fresh(tmp) && tmp.data == x && head == old(head) && feet == old(feet)
      ensures nodes == old(nodes) + {tmp}
      ensures all == Appended(old(all), position, Cons(tmp, Nil, Nil))
      ensures tmp.parent == position && position.last_child == tmp && tmp.next_sibling == tmp.first_child == null
      ensures forall m :: m in old(nodes) ==> m.data == old(m.data)
    {
      hide Elems, NoDup, From, Replace, LinkOf, Link, Appended;
      tmp := new Node(x);
      Neighbours(all, position);
      ghost var last := Link(all, position).last;
      ghost var leaf: Forest<Node> := Cons(tmp, Nil, Nil);
      ghost var was := all;
      LeafAppended(was, position, tmp, head, feet);
      LinkLast(position, tmp);
      all, nodes := Appended(was, position, leaf), nodes + {tmp};
      forall m | m in nodes
        ensures Fields(m) == Link(all, m)
      {
        if m != tmp {
          assert Fields(m) == AppendedLink(Link(was, m), m, position, last, leaf);
        }
      }
      hide Fields, Framed;
    }

    /** move_after(target, source), for a target outside the moved subtree. */
    method MoveAfter(target: Node, source: Node) returns (r: Node)
      requires Valid()
      requires target in nodes && target != feet
      requires source in nodes && source != head && source != feet
      requires target == source || target !in Sub(all, source)
      modifies this, nodes
      ensures Valid() && r == source && nodes == old(nodes) && head == old(head) && feet == old(feet)
      ensures all == if target == source then old(all) else MovedAfter(old(all), target, source)
      ensures target != source ==> target.next_sibling == source
      ensures forall m :: m in nodes ==> m.data == old(m.data)
    {
      r := source;
      if target == source {
        return;
      }
      ghost var was := all;
      if target.next_sibling != null {
        if target.next_sibling == source {
          MoveInPlace(was, null, null, target, source);
          return;
        }
      }
      Relocate(target, source);
    }

    /** The pointer part of move_after. */
    method Relocate(target: Node, source: Node)
      requires Valid()
      requires target in nodes && target != feet
      requires source in nodes && source != head && source != feet
      requires target !in Sub(all, source)
      modifies this, nodes
      ensures Valid() && nodes == old(nodes) && head == old(head) && feet == old(feet)
      ensures all == MovedAfter(old(all), target, source) && target.next_sibling == source
      ensures forall m :: m in nodes ==> m.data == old(m.data)
    {
      ghost var was := all;
      Unfold(this);
      hide *;
      MovedAfterTree(was, target, source, head, feet);
      ghost var at := Link(was, source);
      ghost var to := RemovedLink(Link(was, target), source, at);
      TakeOut(source, was, nodes, head, feet);
      assert Fields(source) == at && Fields(target) == to;
      PutAfter(target, source, nodes);
      forall m | m in nodes
        ensures Fields(m) == Link(MovedAfter(was, target, source), m)
      {
        MovedAfterAt(was, target, source, m);
      }
      Install(this, MovedAfter(was, target, source), nodes);
    }
  }

  /** What a tree's list and links say when the tree is well formed. */
  lemma Unfold(t: Tree)
    requires t.Valid()
    ensures t.nodes == Elems(t.all) && Framed(t.all, t.head, t.feet) && NoDup(t.all)
    ensures forall m :: m in t.nodes ==> Fields(m) == Link(t.all, m)
  {}

  lemma Fold(t: Tree)
    requires t.nodes == Elems(t.all) && Framed(t.all, t.head, t.feet) && NoDup(t.all)
    requires forall m :: m in t.nodes ==> Fields(m) == Link(t.all, m)
    ensures t.Valid()
  {
    FramedEnds(t.all, t.head, t.feet);
  }

  /** The links having been set, `h` is the list of the tree from now on. */
  ghost method Install(t: Tree, h: Forest<Node>, nodes: set<Node>)
    requires nodes == Elems(h) && Framed(h, t.head, t.feet) && NoDup(h)
    requires forall m :: m in nodes ==> Fields(m) == Link(h, m)
    modifies t`all, t`nodes
    ensures t.Valid() && t.all == h && t.nodes == nodes
  {
    FramedEnds(h, t.head, t.feet);
    t.all, t.nodes := h, nodes;
  }
}
