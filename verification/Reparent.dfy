/** reparent and wrap: a range of siblings moves below another node. */
module TreeReparent {
  import opened Forests
  import opened TreeLinks
  import opened TreeEdits
  import opened TreeSurgery
  import opened Traversals
  import opened Trees
  import opened TreeFlatten
  import opened TreeCopy

  /** The siblings `s` that start at `first` are followed by `r`. */
  ghost predicate Range(f: Forest<Node>, first: Node, last: Node, s: Forest<Node>, r: Forest<Node>) {
    && NoDup(f) && first in Elems(f) && From(f, first) == Append(s, r)
    && s.Cons? && s.id == first && Last(s) == last
  }

  /** The list without that range. */
  ghost function CutOff<A>(f: Forest<A>, first: A, r: Forest<A>): Forest<A>
    requires first in Elems(f)
  {
    Replace(f, first, r)
  }

  function CutLink(o: Links, first: Node, last: Node, before: Node?, after: Node?): Links {
    Links(o.parent,
          if o.first == first then after else o.first,
          if o.last == last then before else o.last,
          if o.prev == last then before else o.prev,
          if o.next == first then after else o.next)
  }

  lemma RangeParts(f: Forest<Node>, first: Node, last: Node, s: Forest<Node>, r: Forest<Node>)
    requires Range(f, first, last, s, r)
    ensures NoDup(s) && NoDup(r) && Elems(s) !! Elems(r) && first in Elems(s) && last in Elems(s)
    ensures Elems(s) + Elems(r) == Elems(From(f, first)) && Elems(s) + Elems(r) <= Elems(f)
  {
    AppendedApart(s, r);
    LastIn(s);
  }

  lemma RangeBefore(f: Forest<Node>, first: Node, last: Node, s: Forest<Node>, r: Forest<Node>)
    requires Range(f, first, last, s, r)
    ensures var a := Link(f, first);
      && a.prev !in Elems(s) + Elems(r) && a.parent !in Elems(s) + Elems(r)
      && (a.prev != null ==> a.prev in Elems(f)) && (a.parent != null ==> a.parent in Elems(f) && a.parent != a.prev)
  {
    RangeParts(f, first, last, s, r);
    ParentOutside(f, null, null, first);
    Neighbours(f, first);
  }

  lemma RangeLast(f: Forest<Node>, first: Node, last: Node, s: Forest<Node>, r: Forest<Node>)
    requires Range(f, first, last, s, r)
    ensures last in Elems(f)
    ensures var a, z := Link(f, first), Link(f, last);
      && z.parent == a.parent && z.next == First(r) && (first != last ==> z.prev != null)
  {
    var a := Link(f, first);
    RangeParts(f, first, last, s, r);
    RangeBefore(f, first, last, s, r);
    FromLinks(f, null, null, first, last);
    AppendLinks(s, r, a.parent, a.prev, last);
    FirstLast(s, a.parent, a.prev, last);
    if first != last {
      LastPrev(s, a.parent, a.prev);
    }
  }

  /** The borders of a range. */
  lemma RangeEnds(f: Forest<Node>, first: Node, last: Node, s: Forest<Node>, r: Forest<Node>)
    requires Range(f, first, last, s, r)
    ensures NoDup(s) && NoDup(r) && Elems(s) !! Elems(r) && first in Elems(s) && last in Elems(s)
    ensures Elems(s) + Elems(r) <= Elems(f)
    ensures var a, z := Link(f, first), Link(f, last);
      && z.parent == a.parent && z.next == First(r) && (r.Cons? ==> z.next in Elems(r))
      && a.prev !in Elems(s) + Elems(r) && a.parent !in Elems(s) + Elems(r)
      && (a.prev != null ==> a.prev in Elems(f)) && (a.parent != null ==> a.parent in Elems(f) && a.parent != a.prev)
  {
    RangeParts(f, first, last, s, r);
    RangeBefore(f, first, last, s, r);
    RangeLast(f, first, last, s, r);
    LastIn(r);
  }

  lemma {:induction false} LastPrev(s: Forest<Node>, par: Node?, prev: Node?)
    requires NoDup(s) && s.Cons? && s.right.Cons?
    ensures Last(s) in Elems(s) && LinkOf(s, par, prev, Last(s)).prev != null
  {
    LastIn(s.right);
    if s.right.right.Cons? {
      LastPrev(s.right, par, s.id);
    }
  }

  lemma CutElems(f: Forest<Node>, first: Node, last: Node, s: Forest<Node>, r: Forest<Node>)
    requires Range(f, first, last, s, r)
    ensures NoDup(CutOff(f, first, r)) && Elems(CutOff(f, first, r)) == Elems(f) - Elems(s)
  {
    AppendedApart(s, r);
    ReplaceElems(f, first, r);
  }

  lemma CutLinks(f: Forest<Node>, first: Node, last: Node, s: Forest<Node>, r: Forest<Node>, m: Node)
    requires Range(f, first, last, s, r) && m in Elems(f) - Elems(s)
    ensures m in Elems(CutOff(f, first, r))
    ensures Link(CutOff(f, first, r), m) == CutLink(Link(f, m), first, last, Link(f, first).prev, First(r))
  {
    CutElems(f, first, last, s, r);
    RangeEnds(f, first, last, s, r);
    ReplaceLinks(f, first, r, m);
    LinkTriple(f, first, m);
    LinkTriple(f, last, m);
    if m in Elems(r) {
      CutRight(f, first, last, s, r, m);
    } else {
      CutLeft(f, first, last, s, r, m);
    }
  }

  lemma CutRight(f: Forest<Node>, first: Node, last: Node, s: Forest<Node>, r: Forest<Node>, m: Node)
    requires Range(f, first, last, s, r) && m in Elems(r)
    ensures LinkOf(r, Link(f, first).parent, Link(f, first).prev, m) ==
            CutLink(Link(f, m), first, last, Link(f, first).prev, First(r))
  {
    var a := Link(f, first);
    RangeEnds(f, first, last, s, r);
    FromLinks(f, null, null, first, m);
    AppendLinks(s, r, a.parent, a.prev, m);
    PrevShift(r, a.parent, last, a.prev, m);
    LinkRange(r, a.parent, last, m);
    FirstLast(r, a.parent, last, m);
  }

  lemma CutLeft(f: Forest<Node>, first: Node, last: Node, s: Forest<Node>, r: Forest<Node>, m: Node)
    requires Range(f, first, last, s, r) && m in Elems(f) && m !in Elems(s) + Elems(r)
    ensures Adjusted(Link(f, m), Link(f, first), first, r, m) ==
      CutLink(Link(f, m), first, last, Link(f, first).prev, First(r))
  {
    RangeEnds(f, first, last, s, r);
    LinkTriple(f, first, m);
    LinkTriple(f, last, m);
    if m == Link(f, first).parent {
      ParentLast(f, first);
      LastAppend(s, r);
      LastIn(r);
    }
  }

  /** That range as the last children of `p`. */
  ghost function Reparented(f: Forest<Node>, p: Node, first: Node, s: Forest<Node>, r: Forest<Node>): Forest<Node>
    requires first in Elems(f) && p in Elems(CutOff(f, first, r))
  {
    Appended(CutOff(f, first, r), p, s)
  }

  /** The links of the nodes that move, and of those below them. */
  function MovedLink(o: Links, m: Node, p: Node, first: Node, last: Node, a: Links, lastp: Node?): Links {
    o.(parent := if o.parent == a.parent then p else o.parent,
       prev := if m == first then lastp else o.prev,
       next := if m == last then null else o.next)
  }

  lemma ReparentedInside(f: Forest<Node>, p: Node, first: Node, last: Node, s: Forest<Node>, r: Forest<Node>, m: Node)
    requires Range(f, first, last, s, r) && m in Elems(s)
    requires p in Elems(f) && p !in Elems(s)
    ensures p in Elems(CutOff(f, first, r)) && m in Elems(Reparented(f, p, first, s, r))
    ensures Link(Reparented(f, p, first, s, r), m) ==
            MovedLink(Link(f, m), m, p, first, last, Link(f, first), Link(CutOff(f, first, r), p).last)
  {
    var a, f1 := Link(f, first), CutOff(f, first, r);
    CutElems(f, first, last, s, r);
    RangeEnds(f, first, last, s, r);
    AppendedLinks(f1, p, s, m);
    FromLinks(f, null, null, first, m);
    AppendLinks(s, r, a.parent, a.prev, m);
    Rebordered(s, a.parent, a.prev, p, Link(f1, p).last, m);
    FirstLast(s, a.parent, a.prev, m);
  }

  lemma ReparentedOutside(f: Forest<Node>, p: Node, first: Node, last: Node, s: Forest<Node>, r: Forest<Node>, m: Node)
    requires Range(f, first, last, s, r) && m in Elems(f) - Elems(s)
    requires p in Elems(f) && p !in Elems(s)
    ensures p in Elems(CutOff(f, first, r)) && m in Elems(Reparented(f, p, first, s, r))
    ensures var before, after := Link(f, first).prev, First(r);
      Link(Reparented(f, p, first, s, r), m) ==
      AppendedLink(CutLink(Link(f, m), first, last, before, after), m, p, Link(CutOff(f, first, r), p).last, s)
  {
    CutElems(f, first, last, s, r);
    RangeEnds(f, first, last, s, r);
    AppendedLinks(CutOff(f, first, r), p, s, m);
    CutLinks(f, first, last, s, r, m);
  }

  lemma CutFramed(f: Forest<Node>, first: Node, last: Node, s: Forest<Node>, r: Forest<Node>, head: Node, feet: Node)
    requires Range(f, first, last, s, r) && Framed(f, head, feet) && first != head && feet !in Elems(s)
    ensures Framed(CutOff(f, first, r), head, feet)
  {
    RangeEnds(f, first, last, s, r);
    if feet in Elems(From(f, first)) {
      FromFrom(f, first, feet);
      FromAppendRight(s, r, feet);
      CutRight(f, first, last, s, r, feet);
    }
    ReplaceFramed(f, first, r, head, feet);
  }

  lemma ReparentedFramed(f: Forest<Node>, p: Node, first: Node, last: Node, s: Forest<Node>, r: Forest<Node>,
                         head: Node, feet: Node)
    requires Range(f, first, last, s, r) && Framed(f, head, feet) && first != head && feet !in Elems(s)
    requires p in Elems(f) && p !in Elems(s) && p != head && p != feet
    ensures p in Elems(CutOff(f, first, r))
    ensures var h := Reparented(f, p, first, s, r);
      Framed(h, head, feet) && NoDup(h) && Elems(h) == Elems(f)
  {
    CutElems(f, first, last, s, r);
    RangeParts(f, first, last, s, r);
    CutFramed(f, first, last, s, r, head, feet);
    AppendedFramed(CutOff(f, first, r), p, s, head, feet);
    AppendedElems(CutOff(f, first, r), p, s);
  }

  // ---- The pointer part ----

  /** Both sides of the range close up. */
  method CloseGap(first: Node, last: Node)
    requires last.parent == first.parent
    requires first.prev_sibling == null || last.next_sibling == null ==> first.parent != null
    requires {first, last} !! Opt(first.prev_sibling) + Opt(last.next_sibling) + Opt(first.parent)
    requires first.parent != null ==> first.parent != first.prev_sibling && first.parent != last.next_sibling
    requires first.prev_sibling != null ==> first.prev_sibling != last.next_sibling
    modifies Opt(first.prev_sibling), Opt(last.next_sibling), Opt(first.parent)
    ensures forall m :: m in Opt(first.prev_sibling) + Opt(last.next_sibling) + Opt(first.parent) ==>
      && m.data == old(m.data)
      && Fields(m) == old(Fields(m)).(
           first := if m == first.parent && first.prev_sibling == null then last.next_sibling else old(m.first_child),
           last := if m == first.parent && last.next_sibling == null then first.prev_sibling else old(m.last_child),
           prev := if m == last.next_sibling then first.prev_sibling else old(m.prev_sibling),
           next := if m == first.prev_sibling then last.next_sibling else old(m.next_sibling))
  {
    if first.prev_sibling == null {
      first.parent.first_child := last.next_sibling;
    } else {
      first.prev_sibling.next_sibling := last.next_sibling;
    }
    if last.next_sibling == null {
      last.parent.last_child := first.prev_sibling;
    } else {
      last.next_sibling.prev_sibling := first.prev_sibling;
    }
  }

  function AttachedLink(o: Links, m: Node, p: Node, first: Node, last: Node, lastp: Node?): Links {
    Links(o.parent,
          if m == p && o.first == null then first else o.first,
          if m == p then last else o.last,
          if m == first then lastp else o.prev,
          if m == last then null else if m == lastp then first else o.next)
  }

  /** The range becomes the last children of `p`. */
  method Attach(p: Node, first: Node, last: Node)
    requires p.first_child == null <==> p.last_child == null
    requires {first, last} !! {p} + Opt(p.last_child) && p != p.last_child
    modifies p, first, last, Opt(p.last_child)
    ensures forall m :: m in {p, first, last} + Opt(old(p.last_child)) ==>
      Fields(m) == AttachedLink(old(Fields(m)), m, p, first, last, old(p.last_child)) && m.data == old(m.data)
  {
    if p.first_child == null {
      p.first_child := first;
      p.last_child := last;
      first.prev_sibling := null;
    } else {
      p.last_child.next_sibling := first;
      first.prev_sibling := p.last_child;
      p.last_child := last;
    }
    last.next_sibling := null;
  }

  /** The roots of `s` follow one another and then comes `end`. */
  ghost predicate ChainedTo(s: Forest<Node>, end: Node?, nodes: set<Node>)
    reads nodes`next_sibling
  {
    s.Cons? ==>
      s.id in nodes && s.id.next_sibling == (if s.right.Nil? then end else s.right.id) && ChainedTo(s.right, end, nodes)
  }

  /** The loop that looks for the last node of the range. */
  method FindLast(first: Node, end: Node?, ghost s: Forest<Node>, ghost nodes: set<Node>) returns (last: Node)
    requires s.Cons? && s.id == first && ChainedTo(s, end, nodes) && end !in Elems(s) && NoDup(s)
    ensures last == Last(s)
  {
    last := first;
    var begin := first.next_sibling;
    ghost var rest := s;
    while begin != end
      invariant rest.Cons? && last == rest.id && begin == last.next_sibling && ChainedTo(rest, end, nodes)
      invariant Last(rest) == Last(s) && end !in Elems(rest)
      decreases rest
    {
      last := last.next_sibling;
      begin := begin.next_sibling;
      rest := rest.right;
    }
  }

  /** The loop that gives the range its new parent. */
  method AdoptRange(first: Node, last: Node, p: Node, ghost s: Forest<Node>, ghost end: Node?, ghost nodes: set<Node>)
    requires s.Cons? && s.id == first && Last(s) == last && ChainedTo(s, end, nodes) && NoDup(s)
    modifies nodes`parent
    ensures forall m :: m in nodes ==> m.parent == if m in Roots(s) then p else old(m.parent)
  {
    var pos := first;
    ghost var rest := s;
    RootsDiffer(s);
    pos.parent := p;
    while pos != last
      invariant rest.Cons? && pos == rest.id && NoDup(rest) && ChainedTo(rest, end, nodes) && Last(rest) == last
      invariant forall m :: m in Roots(rest) ==> m in Roots(s)
      invariant forall m :: m in nodes ==>
        m.parent == if m in Roots(s) && m !in Roots(rest.right) then p else old(m.parent)
      decreases rest
    {
      LastIn(rest.right);
      pos := pos.next_sibling;
      rest := rest.right;
      RootsDiffer(rest);
      pos.parent := p;
    }
    LastOnly(rest);
  }

  lemma LastOnly(s: Forest<Node>)
    requires NoDup(s) && s.Cons? && Last(s) == s.id
    ensures s.right.Nil?
  {
    LastIn(s.right);
  }

  // ---- The same, seen from all nodes of a tree ----

  /** What CloseGap asks for. */
  lemma GapEnds(f: Forest<Node>, first: Node, last: Node, s: Forest<Node>, r: Forest<Node>, head: Node, feet: Node)
    requires Range(f, first, last, s, r) && Framed(f, head, feet) && first != head && feet !in Elems(s)
    ensures first in Elems(f) && last in Elems(f) && first in Elems(s) && last in Elems(s) && Elems(s) <= Elems(f)
    ensures var a, z := Link(f, first), Link(f, last);
      && z.parent == a.parent && (a.prev == null || z.next == null ==> a.parent != null)
      && Opt(a.prev) + Opt(z.next) + Opt(a.parent) <= Elems(f) - Elems(s)
      && (a.parent != null ==> a.parent != a.prev && a.parent != z.next) && (a.prev != null ==> a.prev != z.next)
  {
    RangeEnds(f, first, last, s, r);
    InnerNode(f, head, feet, first);
    InnerNode(f, head, feet, last);
    Neighbours(f, last);
  }

  /** The links of a node outside the range, as CloseGap sets them. */
  lemma GapLinks(f: Forest<Node>, first: Node, last: Node, s: Forest<Node>, r: Forest<Node>, m: Node)
    requires Range(f, first, last, s, r) && m in Elems(f) - Elems(s)
    ensures first in Elems(f) && last in Elems(f) && m in Elems(CutOff(f, first, r))
    ensures var a, z, o := Link(f, first), Link(f, last), Link(f, m);
      Link(CutOff(f, first, r), m) == o.(
        first := if m == a.parent && a.prev == null then z.next else o.first,
        last := if m == a.parent && z.next == null then a.prev else o.last,
        prev := if m == z.next then a.prev else o.prev,
        next := if m == a.prev then z.next else o.next)
  {
    RangeEnds(f, first, last, s, r);
    CutLinks(f, first, last, s, r, m);
    hide Elems, NoDup, Range, Link, From, CutOff;
    LinkTriple(f, first, m);
    LinkTriple(f, last, m);
  }

  method CloseGapAround(first: Node, last: Node, ghost f: Forest<Node>, ghost s: Forest<Node>, ghost r: Forest<Node>,
                        ghost nodes: set<Node>, ghost head: Node, ghost feet: Node)
    requires Range(f, first, last, s, r) && Framed(f, head, feet) && first != head && feet !in Elems(s)
    requires nodes == Elems(f) && forall m :: m in nodes ==> Fields(m) == Link(f, m)
    modifies nodes
    ensures forall m :: m in nodes ==> m.data == old(m.data)
    ensures forall m :: m in Elems(s) ==> Fields(m) == Link(f, m)
    ensures forall m :: m in nodes && m !in Elems(s) ==>
      m in Elems(CutOff(f, first, r)) && Fields(m) == Link(CutOff(f, first, r), m)
  {
    hide Elems, NoDup, Framed, Range, Link, LinkOf, From, CutOff, CutLink, First, Last, Append, Replace;
    GapEnds(f, first, last, s, r, head, feet);
    CloseGap(first, last);
    forall m | m in nodes && m !in Elems(s)
      ensures m in Elems(CutOff(f, first, r)) && Fields(m) == Link(CutOff(f, first, r), m)
    {
      GapLinks(f, first, last, s, r, m);
    }
  }

  method AttachTo(p: Node, first: Node, last: Node, ghost f1: Forest<Node>, ghost s: Forest<Node>,
                  ghost nodes: set<Node>)
    requires NoDup(f1) && p in Elems(f1) && Elems(f1) !! Elems(s) && first in Elems(s) && last in Elems(s)
    requires nodes == Elems(f1) + Elems(s) && forall m :: m in Elems(f1) ==> Fields(m) == Link(f1, m)
    modifies nodes
    ensures forall m :: m in nodes ==> m.data == old(m.data)
    ensures forall m :: m in nodes ==> Fields(m) == AttachedLink(old(Fields(m)), m, p, first, last, Link(f1, p).last)
  {
    Neighbours(f1, p);
    LinkNoKids(f1, null, null, p);
    hide Elems, NoDup, Link;
    Attach(p, first, last);
  }

  /** The siblings of a range follow one another. */
  lemma {:induction false} RangeChained(f: Forest<Node>, s: Forest<Node>, r: Forest<Node>, nodes: set<Node>)
    requires NoDup(f) && nodes == Elems(f) && s.Cons? && s.id in Elems(f) && From(f, s.id) == Append(s, r)
    requires forall m :: m in nodes ==> Fields(m) == Link(f, m)
    ensures ChainedTo(s, First(r), nodes)
  {
    LinkShape(f, null, null, s.id);
    if s.right.Cons? {
      RangeChained(f, s.right, r, nodes);
    }
  }

  /** They still do when the last of them has got another next sibling. */
  lemma {:induction false} ChainedStill(f: Forest<Node>, s: Forest<Node>, r: Forest<Node>, end: Node?, nodes: set<Node>)
    requires NoDup(f) && Elems(s) <= nodes && s.Cons? && s.id in Elems(f) && From(f, s.id) == Append(s, r)
    requires forall m :: m in Elems(s) ==>
      m in Elems(f) && m.next_sibling == if m == Last(s) then end else Link(f, m).next
    ensures ChainedTo(s, end, nodes)
  {
    LinkShape(f, null, null, s.id);
    AppendedApart(s, r);
    if s.right.Cons? {
      LastIn(s.right);
      ChainedStill(f, s.right, r, end, nodes);
    }
  }

  lemma RangeRoots(f: Forest<Node>, first: Node, last: Node, s: Forest<Node>, r: Forest<Node>, m: Node)
    requires Range(f, first, last, s, r) && m in Elems(s)
    ensures m in Elems(f) && (m in Roots(s) <==> Link(f, m).parent == Link(f, first).parent)
  {
    var a := Link(f, first);
    RangeEnds(f, first, last, s, r);
    FromLinks(f, null, null, first, m);
    AppendLinks(s, r, a.parent, a.prev, m);
    Rebordered(s, a.parent, a.prev, a.parent, a.prev, m);
  }

  /** The first two steps, after which only the parents are wrong. */
  method RelinkRange(p: Node, first: Node, end: Node?, ghost f: Forest<Node>, ghost s: Forest<Node>,
                     ghost r: Forest<Node>,
                     ghost z: Node, ghost nodes: set<Node>, ghost head: Node, ghost feet: Node) returns (last: Node)
    requires Range(f, first, z, s, r) && end == First(r) && Framed(f, head, feet) && first != head && feet !in Elems(s)
    requires nodes == Elems(f) && forall m :: m in nodes ==> Fields(m) == Link(f, m)
    requires p in nodes && p !in Elems(s) && p in Elems(CutOff(f, first, r))
    modifies nodes
    ensures last == z && ChainedTo(s, null, nodes)
    ensures forall m :: m in nodes ==> m.data == old(m.data)
    ensures forall m :: m in Elems(s) ==>
      Fields(m) == AttachedLink(Link(f, m), m, p, first, z, Link(CutOff(f, first, r), p).last)
    ensures forall m :: m in nodes && m !in Elems(s) ==> m in Elems(CutOff(f, first, r))
    ensures forall m :: m in nodes && m !in Elems(s) ==>
      Fields(m) == AttachedLink(Link(CutOff(f, first, r), m), m, p, first, z, Link(CutOff(f, first, r), p).last)
  {
    hide Elems, NoDup, Range, Framed, CutOff, Link, LinkOf, First, Last, From, Append, Replace, ChainedTo;
    RelinkStart(p, first, f, s, r, z, nodes);
    ghost var f1 := CutOff(f, first, r);
    last := FindLast(first, end, s, nodes);
    CloseGapAround(first, last, f, s, r, nodes, head, feet);
    AttachTo(p, first, last, f1, s, nodes);
    NextAttached(f, p, first, last, s, r, nodes);
  }

  lemma RelinkStart(p: Node, first: Node, f: Forest<Node>, s: Forest<Node>, r: Forest<Node>, z: Node, nodes: set<Node>)
    requires Range(f, first, z, s, r) && p in nodes && p !in Elems(s) && p in Elems(CutOff(f, first, r))
    requires nodes == Elems(f) && forall m :: m in nodes ==> Fields(m) == Link(f, m)
    ensures var f1 := CutOff(f, first, r);
      && NoDup(f1) && NoDup(s) && Elems(f1) !! Elems(s) && Elems(f1) + Elems(s) == nodes
      && first in Elems(s) && z in Elems(s) && s.Cons? && s.id == first && Last(s) == z
      && (Link(f1, p).last == null || Link(f1, p).last in Elems(f1))
    ensures first in Elems(f) && ChainedTo(s, First(r), nodes) && First(r) !in Elems(s)
  {
    RangeEnds(f, first, z, s, r);
    RangeChained(f, s, r, nodes);
    CutElems(f, first, z, s, r);
    LinkRange(CutOff(f, first, r), null, null, p);
  }

  lemma NextAttached(f: Forest<Node>, p: Node, first: Node, last: Node, s: Forest<Node>, r: Forest<Node>,
                     nodes: set<Node>)
    requires Range(f, first, last, s, r) && nodes == Elems(f) && p in Elems(CutOff(f, first, r))
    requires Elems(s) <= nodes && forall m :: m in Elems(s) ==>
      Fields(m) == AttachedLink(Link(f, m), m, p, first, last, Link(CutOff(f, first, r), p).last)
    ensures ChainedTo(s, null, nodes)
  {
    CutElems(f, first, last, s, r);
    LinkRange(CutOff(f, first, r), null, null, p);
    ChainedStill(f, s, r, null, nodes);
  }

  lemma RangeStart(f: Forest<Node>, first: Node, last: Node, s: Forest<Node>, r: Forest<Node>)
    requires Range(f, first, last, s, r)
    ensures NoDup(s) && s.Cons? && s.id == first && Last(s) == last && Elems(s) <= Elems(f) && first in Elems(f)
  {
    RangeParts(f, first, last, s, r);
  }

  /** The pointer part of reparent. */
  method MoveRange(p: Node, first: Node, end: Node?, ghost f: Forest<Node>, ghost s: Forest<Node>,
                   ghost r: Forest<Node>, ghost z: Node, ghost nodes: set<Node>, ghost head: Node, ghost feet: Node)
    requires Range(f, first, z, s, r) && end == First(r) && Framed(f, head, feet) && first != head && feet !in Elems(s)
    requires nodes == Elems(f) && forall m :: m in nodes ==> Fields(m) == Link(f, m)
    requires p in nodes && p !in Elems(s) && p in Elems(CutOff(f, first, r))
    modifies nodes
    ensures forall m :: m in nodes ==> m.data == old(m.data)
    ensures forall m :: m in nodes ==>
      m in Elems(Reparented(f, p, first, s, r)) && Fields(m) == Link(Reparented(f, p, first, s, r), m)
  {
    hide Elems, NoDup, Range, Framed, CutOff, Reparented, Link, LinkOf, Roots, First, Last, From, Replace, ChainedTo;
    RangeStart(f, first, z, s, r);
    var last := RelinkRange(p, first, end, f, s, r, z, nodes, head, feet);
    AdoptRange(first, last, p, s, null, nodes);
    forall m | m in nodes
      ensures m in Elems(Reparented(f, p, first, s, r)) && Fields(m) == Link(Reparented(f, p, first, s, r), m)
    {
      LinksMoved(f, p, first, z, s, r, m);
    }
  }

  lemma LinksMoved(f: Forest<Node>, p: Node, first: Node, last: Node, s: Forest<Node>, r: Forest<Node>, m: Node)
    requires Range(f, first, last, s, r) && m in Elems(f) && p in Elems(f) && p !in Elems(s)
    ensures p in Elems(CutOff(f, first, r)) && m in Elems(Reparented(f, p, first, s, r))
    ensures var f1, h := CutOff(f, first, r), Reparented(f, p, first, s, r);
      var o := if m in Elems(s) then Link(f, m) else if m in Elems(f1) then Link(f1, m) else Link(f, m);
      Link(h, m) ==
        AttachedLink(o, m, p, first, last, Link(f1, p).last).(parent := if m in Roots(s) then p else o.parent)
  {
    CutElems(f, first, last, s, r);
    RangeEnds(f, first, last, s, r);
    RootsIn(s);
    LinkRange(CutOff(f, first, r), null, null, p);
    if m in Elems(s) {
      ReparentedInside(f, p, first, last, s, r, m);
      RangeRoots(f, first, last, s, r, m);
    } else {
      ReparentedOutside(f, p, first, last, s, r, m);
      CutLinks(f, first, last, s, r, m);
    }
  }

  /** reparent(position, begin, end), for a range that is not empty; `s` are the
      siblings in it and `r` those behind it. */
  method Reparent(t: Tree, position: Node, begin: Node, end: Node?, ghost s: Forest<Node>, ghost r: Forest<Node>,
                  ghost z: Node)
    returns (first: Node)
    requires t.Valid() && position in t.nodes && position != t.head && position != t.feet
    requires Range(t.all, begin, z, s, r) && end == First(r) && begin != t.head && t.feet !in Elems(s)
    requires position !in Elems(s)
    modifies t, t.nodes
    ensures t.Valid() && first == begin && t.nodes == old(t.nodes) && t.head == old(t.head) && t.feet == old(t.feet)
    ensures position in Elems(CutOff(old(t.all), begin, r)) && t.all == Reparented(old(t.all), position, begin, s, r)
    ensures forall m :: m in t.nodes ==> m.data == old(m.data)
  {
    first := begin;
    ghost var was := t.all;
    Unfold(t);
    CutElems(was, begin, z, s, r);
    ReparentedFramed(was, position, begin, z, s, r, t.head, t.feet);
    hide *;
    MoveRange(position, begin, end, was, s, r, z, t.nodes, t.head, t.feet);
    t.all := Reparented(was, position, begin, s, r);
    Fold(t);
  }

  /** `x` in the place of `n`, with `n` and all below it as its only child. */
  ghost function Wrapped<A>(f: Forest<A>, n: A, x: A): Forest<A>
    requires n in Elems(f)
  {
    var g := From(f, n);
    Replace(f, n, Cons(x, Cons(n, g.kids, Nil), g.right))
  }

  /** Inserting in front of a node and then moving the node below. */
  lemma WrappedSteps(f: Forest<Node>, n: Node, x: Node)
    requires NoDup(f) && n in Elems(f) && x !in Elems(f)
    ensures var g, f1, s := From(f, n), Inserted(f, n, x, Nil), Cons(n, From(f, n).kids, Nil);
      && Range(f1, n, n, s, g.right) && x in Elems(CutOff(f1, n, g.right)) && x !in Elems(s)
      && Reparented(f1, x, n, s, g.right) == Wrapped(f, n, x)
  {
    var g := From(f, n);
    var s := Cons(n, g.kids, Nil);
    var g1 := Cons(x, Nil, g);
    InsertedElems(f, n, x, Nil);
    FromReplace(f, n, g1, n);
    assert From(g1, n) == g == Append(s, g.right);
    ReplaceReplace(f, n, g1, n, g.right);
    assert Replace(g1, n, g.right) == Cons(x, Nil, g.right);
    ReplaceElems(f, n, Cons(x, Nil, g.right));
    AppendedInside(f, n, Cons(x, Nil, g.right), x, s);
  }

  /** The listing before node `n`, and behind the siblings from `n` on. */
  ghost function Before<A>(f: Forest<A>, n: A): seq<A>
    requires n in Elems(f)
  {
    if f.id == n then []
    else if n in Elems(f.kids) then [f.id] + Before(f.kids, n)
    else [f.id] + PreOrder(f.kids) + Before(f.right, n)
  }

  ghost function Behind<A>(f: Forest<A>, n: A): seq<A>
    requires n in Elems(f)
  {
    if f.id == n then []
    else if n in Elems(f.kids) then Behind(f.kids, n) + PreOrder(f.right)
    else Behind(f.right, n)
  }

  lemma {:induction false} ListingAround<A>(f: Forest<A>, n: A, g: Forest<A>)
    requires n in Elems(f)
    ensures PreOrder(f) == Before(f, n) + PreOrder(From(f, n)) + Behind(f, n)
    ensures PreOrder(Replace(f, n, g)) == Before(f, n) + PreOrder(g) + Behind(f, n)
  {
    if f.id == n {
      assert PreOrder(f) == [] + PreOrder(f) + [] && PreOrder(g) == [] + PreOrder(g) + [];
    } else if n in Elems(f.kids) {
      ListingAround(f.kids, n, g);
      var b, e := Before(f.kids, n), Behind(f.kids, n);
      Regroup([f.id], b, PreOrder(From(f.kids, n)), e, PreOrder(f.right));
      Regroup([f.id], b, PreOrder(g), e, PreOrder(f.right));
    } else {
      ListingAround(f.right, n, g);
      var a, b, e := [f.id] + PreOrder(f.kids), Before(f.right, n), Behind(f.right, n);
      Regroup(a, b, PreOrder(From(f.right, n)), e, []);
      Regroup(a, b, PreOrder(g), e, []);
      assert forall x: seq<A> :: x + [] == x;
    }
  }

  lemma Regroup<A>(a: seq<A>, b: seq<A>, p: seq<A>, e: seq<A>, r: seq<A>)
    ensures a + (b + p + e) + r == (a + b) + p + (e + r)
  {}

  /** Wrapping puts the new node right in front of the wrapped one. */
  lemma WrappedListing<A>(f: Forest<A>, n: A, x: A)
    requires n in Elems(f)
    ensures var i := |Before(f, n)|;
      && i < |PreOrder(f)| && PreOrder(f)[i] == n
      && PreOrder(Wrapped(f, n, x)) == PreOrder(f)[..i] + [x] + PreOrder(f)[i..]
  {
    var g := From(f, n);
    var h := Cons(x, Cons(n, g.kids, Nil), g.right);
    ListingAround(f, n, h);
    ListingHead(g, x);
    SplicedListing(Before(f, n), x, PreOrder(g), Behind(f, n));
  }

  lemma ListingHead<A>(g: Forest<A>, x: A)
    requires g.Cons?
    ensures |PreOrder(g)| > 0 && PreOrder(g)[0] == g.id
    ensures PreOrder(Cons(x, Cons(g.id, g.kids, Nil), g.right)) == [x] + PreOrder(g)
  {
    assert PreOrder(Cons(g.id, g.kids, Nil)) == [g.id] + PreOrder(g.kids);
    assert [x] + ([g.id] + PreOrder(g.kids)) + PreOrder(g.right) == [x] + PreOrder(g);
  }

  lemma SplicedListing<A>(b: seq<A>, x: A, p: seq<A>, e: seq<A>)
    ensures b + ([x] + p) + e == (b + p + e)[..|b|] + [x] + (b + p + e)[|b|..]
    ensures |p| > 0 ==> (b + p + e)[|b|] == p[0]
  {}

  /** wrap(position, x) */
  method Wrap(t: Tree, position: Node, x: Value) returns (ret: Node)
    requires t.Valid() && position in t.nodes && position != t.head && position != t.feet
    modifies t, t.nodes
    ensures t.Valid() && fresh(ret) && ret.data == x && t.head == old(t.head) && t.feet == old(t.feet)
    ensures t.nodes == old(t.nodes) + {ret} && t.all == Wrapped(old(t.all), position, ret)
    ensures forall m :: m in old(t.nodes) ==> m.data == old(m.data)
  {
    ghost var was, g := t.all, From(t.all, position);
    LinkShape(was, null, null, position);
    BelowHasParent(was, t.head, t.feet, position);
    FramedEnds(was, t.head, t.feet);
    Unfold(t);
    var to := position.next_sibling;
    assert position in Elems(was) && From(was, position) == g && to == First(g.right) && t.feet !in Elems(g.kids);
    hide *;
    ret := t.Insert(position, x);
    WrappedSteps(was, position, ret);
    WrapRange(g, t.feet, ret, position);
    var _ := Reparent(t, ret, position, to, Cons(position, g.kids, Nil), g.right, position);
  }

  lemma WrapRange(g: Forest<Node>, feet: Node, x: Node, n: Node)
    requires g.Cons? && feet !in Elems(g.kids) && n == g.id && n != feet
    ensures feet !in Elems(Cons(n, g.kids, Nil))
  {}
}
