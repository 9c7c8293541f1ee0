/** Copying a whole tree: first a childless node for every top-level tree, laid
    down in reverse, then each of them replaced by a copy of its subtree. */
module TreeCopyAll {
  import opened Forests
  import opened TreeLinks
  import opened TreeEdits
  import opened TreeCompare
  import opened Traversals
  import opened Trees
  import opened TreeQueries
  import opened TreeErase
  import opened TreePrefix
  import opened TreeReplace

  /** A framed list cut in two behind some of its top-level trees. */
  ghost predicate Row(f: Forest<Node>, head: Node, feet: Node, done: Forest<Node>, rest: Forest<Node>) {
    && f == Cons(head, Nil, Append(done, rest)) && rest.Cons?
    && NoDup(f) && Framed(f, head, feet)
  }

  lemma {:induction false} AppendAssoc<A>(f: Forest<A>, g: Forest<A>, h: Forest<A>)
    ensures Append(Append(f, g), h) == Append(f, Append(g, h))
  {
    if f.Cons? {
      AppendAssoc(f.right, g, h);
    }
  }

  lemma {:induction false} FromInRow(done: Forest<Node>, rest: Forest<Node>)
    requires rest.Cons? && NoDup(Append(done, rest))
    ensures rest.id in Elems(Append(done, rest)) && From(Append(done, rest), rest.id) == rest
  {
    if done.Cons? {
      FromInRow(done.right, rest);
    }
  }

  lemma {:induction false} ReplaceInRow(done: Forest<Node>, rest: Forest<Node>, g: Forest<Node>)
    requires rest.Cons? && NoDup(Append(done, rest))
    ensures rest.id in Elems(Append(done, rest)) && Replace(Append(done, rest), rest.id, g) == Append(done, g)
  {
    if done.Cons? {
      ReplaceInRow(done.right, rest, g);
    }
  }

  /** Replacing what is behind the cut. */
  lemma RowReplace(f: Forest<Node>, head: Node, feet: Node, done: Forest<Node>, rest: Forest<Node>, g: Forest<Node>)
    requires Row(f, head, feet, done, rest)
    ensures rest.id in Elems(f) && From(f, rest.id) == rest
    ensures Replace(f, rest.id, g) == Cons(head, Nil, Append(done, g))
  {
    FromInRow(done, rest);
    ReplaceInRow(done, rest, g);
  }

  lemma {:induction false} LinkInRow(done: Forest<Node>, rest: Forest<Node>, prev: Node?)
    requires rest.Cons? && NoDup(Append(done, rest))
    ensures rest.id in Elems(Append(done, rest))
    ensures LinkOf(Append(done, rest), null, prev, rest.id).next == First(rest.right)
    ensures LinkOf(Append(done, rest), null, prev, rest.id).parent == null
  {
    if done.Cons? {
      LinkInRow(done.right, rest, done.id);
    }
  }

  /** The first node behind the cut. */
  lemma RowAt(f: Forest<Node>, head: Node, feet: Node, done: Forest<Node>, rest: Forest<Node>)
    requires Row(f, head, feet, done, rest)
    ensures rest.id in Elems(f) && rest.id != head && From(f, rest.id) == rest
    ensures Link(f, rest.id).next == First(rest.right)
    ensures rest.id == feet <==> rest.right.Nil?
    ensures rest.right.Cons? ==> Row(f, head, feet, Append(done, Cons(rest.id, rest.kids, Nil)), rest.right)
    ensures rest.right.Nil? ==> rest == Cons(feet, Nil, Nil) && done == Body(f)
  {
    FromInRow(done, rest);
    LinkInRow(done, rest, head);
    AppendAssoc(done, Cons(rest.id, rest.kids, Nil), rest.right);
    FramedEnds(f, head, feet);
    FirstLast(f, null, null, rest.id);
    FirstLast(f, null, null, feet);
    FramedShape(f, head, feet);
    if rest.right.Nil? {
      LastAppend(done, rest);
      LastAppend(Body(f), Cons(feet, Nil, Nil));
      DropLastAppend(done, rest);
    }
  }

  lemma {:induction false} DropLastAppend(f: Forest<Node>, g: Forest<Node>)
    requires g.Cons? && g.right.Nil?
    ensures DropLast(Append(f, g)) == f
  {
    if f.Cons? {
      DropLastAppend(f.right, g);
    }
  }

  /** On to the next top-level tree. */
  method NextTop(t: Tree, n: Node, ghost done: Forest<Node>, ghost rest: Forest<Node>) returns (next: Node)
    requires t.Valid() && Row(t.all, t.head, t.feet, done, rest) && n == rest.id && n != t.feet
    ensures rest.right.Cons? && next == rest.right.id
    ensures Row(t.all, t.head, t.feet, Append(done, Cons(rest.id, rest.kids, Nil)), rest.right)
  {
    RowAt(t.all, t.head, t.feet, done, rest);
    PreLinks(t.all, null, null, [], n);
    var m := NextSkippingChildren(t, n);
    RestInjective(t.all, m, rest.right.id);
    next := m;
  }

  /** Every framed list is cut in front of its first tree. */
  lemma RowStart(f: Forest<Node>, head: Node, feet: Node)
    requires Framed(f, head, feet) && NoDup(f)
    ensures Row(f, head, feet, Nil, f.right) && Link(f, head).next == f.right.id && head in Elems(f)
    ensures |Roots(f.right)| == |Roots(Body(f))| + 1
  {
    FramedEnds(f, head, feet);
    FramedShape(f, head, feet);
    RootsAppend(Body(f), Cons(feet, Nil, Nil));
  }

  /** clear */
  method Clear(t: Tree) returns (freed: seq<Node>)
    requires t.Valid()
    modifies t, t.nodes
    ensures t.Valid() && t.head == old(t.head) && t.feet == old(t.feet)
    ensures Body(t.all) == Nil && freed == old(PostOrder(Body(t.all))) && t.nodes <= old(t.nodes)
    ensures forall m :: m in t.nodes ==> m.data == old(m.data)
  {
    freed := [];
    ghost var head, feet := t.head, t.feet;
    RowStart(t.all, head, feet);
    ghost var rest := t.all.right;
    RowRest(t.all, head, feet, rest);
    while t.head.next_sibling != t.feet
      invariant t.Valid() && t.head == head && t.feet == feet && t.nodes <= old(t.nodes)
      invariant Row(t.all, head, feet, Nil, rest)
      invariant freed + PostOrder(rest) == old(PostOrder(Body(t.all))) + [feet]
      invariant forall m :: m in t.nodes ==> m.data == old(m.data)
      decreases rest
    {
      RowRest(t.all, head, feet, rest);
      var _, below := Erase(t, t.head.next_sibling);
      freed := freed + below;
      rest := rest.right;
    }
    RowRest(t.all, head, feet, rest);
    assert freed == (freed + [feet])[..|freed|];
  }

  lemma RowRest(f: Forest<Node>, head: Node, feet: Node, rest: Forest<Node>)
    requires Row(f, head, feet, Nil, rest)
    ensures head in Elems(f) && Link(f, head).next == rest.id && rest.id in Elems(f) && rest.id != head
    ensures if rest.id == feet then rest == Cons(feet, Nil, Nil) && Body(f) == Nil && PostOrder(rest) == [feet]
      else From(f, rest.id) == rest && Removed(f, rest.id) == Cons(head, Nil, rest.right) && rest.right.Cons?
    ensures PostOrder(rest) == PostOrder(Body(f)) + [feet]
    ensures rest.id != feet ==>
      forall freed :: freed + PostOrder(rest) == freed + (PostOrder(rest.kids) + [rest.id]) + PostOrder(rest.right)
  {
    RowAt(f, head, feet, Nil, rest);
    RowReplace(f, head, feet, Nil, rest, rest.right);
    RowStart(f, head, feet);
    FramedShape(f, head, feet);
    ListingsAppend(Body(f), Cons(feet, Nil, Nil));
    forall freed: seq<Node>
      ensures rest.id != feet ==>
        freed + PostOrder(rest) == freed + (PostOrder(rest.kids) + [rest.id]) + PostOrder(rest.right)
    {
      assert rest.id != feet ==> PostOrder(rest) == PostOrder(rest.kids) + [rest.id] + PostOrder(rest.right);
      assert freed + (PostOrder(rest.kids) + [rest.id] + PostOrder(rest.right)) ==
             freed + (PostOrder(rest.kids) + [rest.id]) + PostOrder(rest.right);
    }
  }

  /** A fresh node in front of all top-level trees. */
  method InsertFirst(t: Tree, to: Node, x: Value, ghost rest: Forest<Node>) returns (tmp: Node)
    requires t.Valid() && Row(t.all, t.head, t.feet, Nil, rest) && to == rest.id
    modifies t, t.nodes
    ensures t.Valid() && t.head == old(t.head) && t.feet == old(t.feet) && tmp.data == x
    ensures Row(t.all, t.head, t.feet, Nil, Cons(tmp, Nil, rest)) && fresh(tmp) && t.nodes == old(t.nodes) + {tmp}
    ensures forall m :: m in old(t.nodes) ==> m.data == old(m.data)
  {
    ghost var was := t.all;
    RowAt(was, t.head, t.feet, Nil, rest);
    tmp := t.Insert(to, x);
    RowReplace(was, t.head, t.feet, Nil, rest, Cons(tmp, Nil, rest));
  }

  lemma {:induction false} LabelsAppend(f: Forest<Node>, g: Forest<Node>)
    ensures Labels(Append(f, g)) == Append(Labels(f), Labels(g))
  {
    if f.Cons? {
      LabelsAppend(f.right, g);
    }
  }

  /** The first nodes of the trees in `l` without children, the last one first. */
  function ReversedHeads<A>(l: Forest<A>, acc: Forest<A>): Forest<A> {
    if l.Nil? then acc else ReversedHeads(l.right, Cons(l.id, Nil, acc))
  }

  lemma {:induction false} ReversedSnoc<A>(l: Forest<A>, v: A, k: Forest<A>, acc: Forest<A>)
    ensures ReversedHeads(Append(l, Cons(v, k, Nil)), acc) == Cons(v, Nil, ReversedHeads(l, acc))
  {
    if l.Cons? {
      ReversedSnoc(l.right, v, k, Cons(l.id, Nil, acc));
    }
  }

  lemma {:induction false} ReversedCount<A>(l: Forest<A>, acc: Forest<A>)
    ensures |Roots(ReversedHeads(l, acc))| == |Roots(l)| + |Roots(acc)|
  {
    if l.Cons? {
      ReversedCount(l.right, Cons(l.id, Nil, acc));
    }
  }

  /** The first pass when the trees `done` of `u` have got their `heads`. */
  ghost predicate Laying(t: Tree, u: Tree, heads: Forest<Node>, done: Forest<Node>, left: Forest<Node>)
    reads t, t.nodes, u, u.nodes, Elems(heads), Elems(done)
  {
    && t.Valid() && u.Valid() && u != t && u.nodes !! t.nodes
    && Row(t.all, t.head, t.feet, Nil, Append(heads, Leaf(t.feet))) && Row(u.all, u.head, u.feet, done, left)
    && Elems(heads) <= t.nodes && Elems(done) <= u.nodes
    && Labels(heads) == ReversedHeads(Labels(done), Nil)
  }

  lemma LayBegin(t: Tree, u: Tree)
    requires t.Valid() && u.Valid() && u.nodes !! t.nodes && u != t && Body(t.all) == Nil
    ensures u.all.Cons? && u.all.right.Cons? && Laying(t, u, Nil, Nil, u.all.right)
    ensures u.head.next_sibling == u.all.right.id && t.head.next_sibling == t.feet
  {
    RowStart(t.all, t.head, t.feet);
    RowStart(u.all, u.head, u.feet);
    FramedShape(t.all, t.head, t.feet);
  }

  lemma LayEnd(t: Tree, u: Tree, heads: Forest<Node>, done: Forest<Node>, left: Forest<Node>)
    requires Laying(t, u, heads, done, left)
    ensures t.Valid() && u.Valid() && left.Cons? && (left.id != u.feet ==> left.right.Cons?)
    ensures left.id == u.feet ==> Body(u.all) == done && Body(t.all) == heads
    ensures left.id == u.feet ==> |Roots(Append(heads, Leaf(t.feet)))| == |Roots(u.all.right)|
    ensures Row(t.all, t.head, t.feet, Nil, Append(heads, Leaf(t.feet))) && u.nodes !! t.nodes
    ensures Labels(heads) == ReversedHeads(Labels(done), Nil)
  {
    RowAt(u.all, u.head, u.feet, done, left);
    DropLastAppend(heads, Leaf(t.feet));
    RowStart(u.all, u.head, u.feet);
    ReversedCount(Labels(done), Nil);
    RootsLabels(heads);
    RootsLabels(done);
    RootsAppend(heads, Leaf(t.feet));
  }

  /** One turn of it. */
  method LayOne(t: Tree, to: Node, u: Tree, it: Node, ghost heads: Forest<Node>, ghost done: Forest<Node>,
                ghost left: Forest<Node>)
    returns (tmp: Node, next: Node)
    requires Laying(t, u, heads, done, left) && left.Cons? && it == left.id && it != u.feet
    requires to == Append(heads, Leaf(t.feet)).id
    modifies t, t.nodes
    ensures left.right.Cons? && next == left.right.id && t.head == old(t.head) && t.feet == old(t.feet)
    ensures Laying(t, u, Cons(tmp, Nil, heads), Append(done, Cons(left.id, left.kids, Nil)), left.right)
    ensures t.nodes == old(t.nodes) + {tmp} && fresh(tmp)
    ensures forall m :: m in old(t.nodes) ==> m.data == old(m.data)
  {
    hide *;
    ghost var nodes, sources := t.nodes, u.nodes;
    LayParts(t, u, heads, done, left);
    tmp := InsertFirst(t, to, it.data, Append(heads, Leaf(t.feet)));
    LabelsKept(Within(heads, nodes));
    LabelsKept(Within(done, sources));
    next := NextTop(u, it, done, left);
    LaidOne(t, u, heads, done, left, tmp);
  }

  lemma LayParts(t: Tree, u: Tree, heads: Forest<Node>, done: Forest<Node>, left: Forest<Node>)
    requires Laying(t, u, heads, done, left) && left.Cons?
    ensures t.Valid() && u.Valid() && u != t && u.nodes !! t.nodes && left.id in u.nodes
    ensures Row(t.all, t.head, t.feet, Nil, Append(heads, Leaf(t.feet))) && Row(u.all, u.head, u.feet, done, left)
    ensures Append(heads, Leaf(t.feet)).Cons? && Elems(heads) <= t.nodes && Elems(done) <= u.nodes
    ensures Labels(heads) == ReversedHeads(Labels(done), Nil)
  {
    RowAt(u.all, u.head, u.feet, done, left);
  }

  lemma LaidOne(t: Tree, u: Tree, heads: Forest<Node>, done: Forest<Node>, left: Forest<Node>, tmp: Node)
    requires t.Valid() && u.Valid() && u != t && u.nodes !! t.nodes && tmp in t.nodes && left.Cons?
    requires left.id in u.nodes
    requires Row(t.all, t.head, t.feet, Nil, Cons(tmp, Nil, Append(heads, Leaf(t.feet)))) && left.right.Cons?
    requires Row(u.all, u.head, u.feet, Append(done, Cons(left.id, left.kids, Nil)), left.right)
    requires Elems(heads) <= t.nodes && Elems(done) <= u.nodes && tmp.data == left.id.data
    requires Labels(heads) == ReversedHeads(Labels(done), Nil)
    ensures Laying(t, u, Cons(tmp, Nil, heads), Append(done, Cons(left.id, left.kids, Nil)), left.right)
  {
    var d := Append(done, Cons(left.id, left.kids, Nil));
    LabelsAppend(done, Cons(left.id, left.kids, Nil));
    ReversedSnoc(Labels(done), left.id.data, Labels(left.kids), Nil);
    assert Elems(d) <= Elems(u.all);
  }

  /** The first pass: one childless node per top-level tree of `u`, each before
      those laid down so far. */
  method LayHeads(t: Tree, u: Tree) returns (ghost heads: Forest<Node>)
    requires t.Valid() && u.Valid() && u.nodes !! t.nodes && u != t && Body(t.all) == Nil
    modifies t, t.nodes
    ensures t.Valid() && u.Valid() && u.nodes !! t.nodes && t.head == old(t.head) && t.feet == old(t.feet)
    ensures Body(t.all) == heads && Labels(heads) == ReversedHeads(Labels(Body(u.all)), Nil)
    ensures Row(t.all, t.head, t.feet, Nil, Append(heads, Leaf(t.feet)))
    ensures |Roots(Append(heads, Leaf(t.feet)))| == |Roots(u.all.right)|
    ensures old(t.nodes) <= t.nodes && fresh(t.nodes - old(t.nodes))
  {
    hide *;
    LayBegin(t, u);
    ghost var left, done := u.all.right, Nil;
    heads := Nil;
    var it, to := u.head.next_sibling, t.head.next_sibling;
    AppendNone(t.feet);
    while it != u.feet
      invariant Laying(t, u, heads, done, left) && t.head == old(t.head) && t.feet == old(t.feet)
      invariant left.Cons? && it == left.id && Append(heads, Leaf(t.feet)).Cons? && to == Append(heads, Leaf(t.feet)).id
      invariant old(t.nodes) <= t.nodes && fresh(t.nodes - old(t.nodes))
      decreases left
    {
      LayEnd(t, u, heads, done, left);
      to, it := LayOne(t, to, u, it, heads, done, left);
      AppendFront(to, heads, t.feet);
      heads, done, left := Cons(to, Nil, heads), Append(done, Cons(left.id, left.kids, Nil)), left.right;
    }
    LayEnd(t, u, heads, done, left);
  }

  lemma AppendNone(n: Node)
    ensures Append(Nil, Leaf(n)) == Leaf(n) && Leaf(n).Cons? && Leaf(n).id == n
  {}

  lemma AppendFront(n: Node, f: Forest<Node>, m: Node)
    ensures Append(Cons(n, Nil, f), Leaf(m)) == Cons(n, Nil, Append(f, Leaf(m)))
  {}

  /** One replacement of the second pass: the first node of `rest` becomes a copy
      of the first tree of `left`. */
  method FillOne(t: Tree, to: Node, u: Tree, it: Node, ghost row: Forest<Node>, ghost rest: Forest<Node>,
                 ghost done: Forest<Node>, ghost left: Forest<Node>)
    returns (r: Node, ghost k: Forest<Node>)
    requires t.Valid() && u.Valid() && u != t && u.nodes !! t.nodes
    requires Row(t.all, t.head, t.feet, row, rest) && to == rest.id && rest.right.Cons?
    requires Row(u.all, u.head, u.feet, done, left) && it == left.id
    modifies t, t.nodes
    ensures t.Valid() && u.Valid() && t.head == old(t.head) && t.feet == old(t.feet) && u.nodes !! t.nodes
    ensures Row(t.all, t.head, t.feet, row, Cons(r, k, rest.right)) && fresh(t.nodes - old(t.nodes))
    ensures Labels(row) == old(Labels(row)) && Labels(done) == old(Labels(done))
    ensures r.data == it.data && Labels(k) == Labels(left.kids)
  {
    hide *;
    ghost var was, head, feet, nodes, sources := t.all, t.head, t.feet, t.nodes, u.nodes;
    BeforeFill(t, u, row, rest, done, left);
    r, k := ReplaceSubtree(t, to, u, it);
    AfterFill(was, head, feet, row, rest, r, k);
    RowAgain(t, row, Cons(r, k, rest.right));
    assert t.nodes <= nodes + {r} + Elems(k);
    LabelsKept(Within(row, nodes));
    LabelsKept(Within(done, sources));
    LabelsKept(Within(left.kids, sources));
  }

  lemma BeforeFill(t: Tree, u: Tree, row: Forest<Node>, rest: Forest<Node>, done: Forest<Node>, left: Forest<Node>)
    requires t.Valid() && u.Valid()
    requires Row(t.all, t.head, t.feet, row, rest) && rest.right.Cons?
    requires Row(u.all, u.head, u.feet, done, left)
    ensures rest.Cons? && left.Cons? && rest.id in t.nodes && rest.id != t.head && rest.id != t.feet
    ensures left.id in u.nodes && left.id in Elems(u.all)
    ensures From(u.all, left.id).kids == left.kids && t.nodes == Elems(t.all)
    ensures Elems(row) <= t.nodes && Elems(row) !! Sub(t.all, rest.id) && Elems(done) + Elems(left.kids) <= u.nodes
  {
    RowAt(t.all, t.head, t.feet, row, rest);
    RowAt(u.all, u.head, u.feet, done, left);
    AppendedApart(row, rest);
  }

  lemma AfterFill(f: Forest<Node>, head: Node, feet: Node, row: Forest<Node>, rest: Forest<Node>, r: Node,
                  k: Forest<Node>)
    requires Row(f, head, feet, row, rest)
    ensures rest.id in Elems(f)
    ensures Replaced(f, rest.id, r, k) == Cons(head, Nil, Append(row, Cons(r, k, rest.right)))
    ensures Elems(Replaced(f, rest.id, r, k)) <= Elems(f) + {r} + Elems(k)
  {
    RowReplace(f, head, feet, row, rest, Cons(r, k, rest.right));
  }

  lemma RowAgain(t: Tree, row: Forest<Node>, rest: Forest<Node>)
    requires t.Valid() && rest.Cons? && t.all == Cons(t.head, Nil, Append(row, rest))
    ensures Row(t.all, t.head, t.feet, row, rest) && t.nodes == Elems(t.all)
  {}

  lemma LabelsSnoc(f: Forest<Node>, n: Node, k: Forest<Node>)
    ensures Labels(Append(f, Cons(n, k, Nil))) == Append(Labels(f), Cons(n.data, Labels(k), Nil))
  {
    LabelsAppend(f, Cons(n, k, Nil));
  }

  /** The same, and on to the next tree in both. */
  method FillTurn(t: Tree, to: Node, u: Tree, it: Node, ghost row: Forest<Node>, ghost rest: Forest<Node>,
                  ghost done: Forest<Node>, ghost left: Forest<Node>)
    returns (to': Node, it': Node, ghost row': Forest<Node>, ghost done': Forest<Node>)
    requires t.Valid() && u.Valid() && u != t && u.nodes !! t.nodes
    requires Row(t.all, t.head, t.feet, row, rest) && rest.Cons? && to == rest.id && |Roots(rest)| == |Roots(left)|
    requires Row(u.all, u.head, u.feet, done, left) && left.Cons? && it == left.id && it != u.feet
    requires Labels(row) == Labels(done)
    modifies t, t.nodes
    ensures t.Valid() && u.Valid() && t.head == old(t.head) && t.feet == old(t.feet) && u.nodes !! t.nodes
    ensures fresh(t.nodes - old(t.nodes))
    ensures rest.right.Cons? && left.right.Cons? && |Roots(rest.right)| == |Roots(left.right)|
    ensures Row(t.all, t.head, t.feet, row', rest.right) && to' == rest.right.id
    ensures Row(u.all, u.head, u.feet, done', left.right) && it' == left.right.id
    ensures Labels(row') == Labels(done')
  {
    RowAt(u.all, u.head, u.feet, done, left);
    RootsStep(rest);
    RootsStep(left);
    hide *;
    var r;
    ghost var k;
    r, k := FillOne(t, to, u, it, row, rest, done, left);
    LabelsSnoc(row, r, k);
    LabelsSnoc(done, it, left.kids);
    to', it' := NextBoth(t, r, u, it, row, Cons(r, k, rest.right), done, left);
    row', done' := Append(row, Cons(r, k, Nil)), Append(done, Cons(it, left.kids, Nil));
  }

  method NextBoth(t: Tree, to: Node, u: Tree, it: Node, ghost row: Forest<Node>, ghost rest: Forest<Node>,
                  ghost done: Forest<Node>, ghost left: Forest<Node>) returns (to': Node, it': Node)
    requires t.Valid() && u.Valid()
    requires Row(t.all, t.head, t.feet, row, rest) && rest.Cons? && to == rest.id && rest.right.Cons?
    requires Row(u.all, u.head, u.feet, done, left) && left.Cons? && it == left.id && left.right.Cons?
    ensures t.Valid() && u.Valid()
    ensures Row(t.all, t.head, t.feet, Append(row, Cons(to, rest.kids, Nil)), rest.right) && to' == rest.right.id
    ensures Row(u.all, u.head, u.feet, Append(done, Cons(it, left.kids, Nil)), left.right) && it' == left.right.id
  {
    RowAt(t.all, t.head, t.feet, row, rest);
    RowAt(u.all, u.head, u.feet, done, left);
    hide *;
    to' := NextTop(t, to, row, rest);
    it' := NextTop(u, it, done, left);
  }

  lemma RootsStep<A>(f: Forest<A>)
    requires f.Cons?
    ensures |Roots(f)| == 1 + |Roots(f.right)| && (f.right.Nil? <==> |Roots(f.right)| == 0)
  {}

  /** The second pass: each node in turn is replaced by a copy of its tree. */
  method FillHeads(t: Tree, u: Tree, ghost first: Forest<Node>)
    requires t.Valid() && u.Valid() && u != t && u.nodes !! t.nodes
    requires Row(t.all, t.head, t.feet, Nil, first) && |Roots(first)| == |Roots(u.all.right)|
    modifies t, t.nodes
    ensures t.Valid() && u.Valid() && t.head == old(t.head) && t.feet == old(t.feet) && u.nodes !! t.nodes
    ensures Labels(Body(t.all)) == Labels(Body(u.all)) && fresh(t.nodes - old(t.nodes))
  {
    hide *;
    ghost var head, feet := t.head, t.feet;
    FillBegin(t, u, first);
    ghost var row, rest, done, left := Nil, first, Nil, u.all.right;
    var to, it := t.head.next_sibling, u.head.next_sibling;
    while it != u.feet
      invariant t.Valid() && u.Valid() && t.head == head && t.feet == feet && u.nodes !! t.nodes
      invariant fresh(t.nodes - old(t.nodes))
      invariant rest.Cons? && left.Cons? && to == rest.id && it == left.id && |Roots(rest)| == |Roots(left)|
      invariant Row(t.all, head, feet, row, rest) && Row(u.all, u.head, u.feet, done, left)
      invariant Labels(row) == Labels(done)
      decreases left
    {
      to, it, row, done := FillTurn(t, to, u, it, row, rest, done, left);
      rest, left := rest.right, left.right;
    }
    RowAt(u.all, u.head, u.feet, done, left);
    RootsStep(left);
    RootsStep(rest);
    RowAt(t.all, head, feet, row, rest);
  }

  lemma FillBegin(t: Tree, u: Tree, first: Forest<Node>)
    requires t.Valid() && u.Valid() && Row(t.all, t.head, t.feet, Nil, first)
    ensures first.Cons? && t.head.next_sibling == first.id && u.all.Cons? && u.all.right.Cons?
    ensures u.head.next_sibling == u.all.right.id && Row(u.all, u.head, u.feet, Nil, u.all.right)
    ensures Labels(Nil) == Nil
  {
    RowStart(t.all, t.head, t.feet);
    RowStart(u.all, u.head, u.feet);
    SameStart(t.all, t.head, t.feet, first);
  }

  lemma SameStart(f: Forest<Node>, head: Node, feet: Node, first: Forest<Node>)
    requires Row(f, head, feet, Nil, first)
    ensures f.Cons? && f.right == first
  {}

  /** Both passes, into a tree that is empty. */
  method CopyInto(t: Tree, u: Tree)
    requires t.Valid() && u.Valid() && u != t && u.nodes !! t.nodes && Body(t.all) == Nil
    modifies t, t.nodes
    ensures t.Valid() && u.Valid() && t.head == old(t.head) && t.feet == old(t.feet)
    ensures Labels(Body(t.all)) == old(Labels(Body(u.all)))
    ensures t.nodes !! u.nodes && fresh(t.nodes - old(t.nodes))
  {
    hide *;
    ghost var sources := u.nodes;
    BodyIn(u);
    ghost var heads := LayHeads(t, u);
    FillHeads(t, u, Append(heads, Leaf(t.feet)));
    LabelsKept(Within(Body(u.all), sources));
  }

  /** copy_: afterwards the tree has the shape and the labels of the other. */
  method CopyFrom(t: Tree, u: Tree)
    requires t.Valid() && u.Valid() && u != t && u.nodes !! t.nodes
    modifies t, t.nodes
    ensures t.Valid() && u.Valid() && t.head == old(t.head) && t.feet == old(t.feet)
    ensures Labels(Body(t.all)) == old(Labels(Body(u.all)))
    ensures t.nodes !! u.nodes && fresh(t.nodes - old(t.nodes))
  {
    ghost var sources := u.nodes;
    BodyIn(u);
    hide *;
    var _ := Clear(t);
    LabelsKept(Within(Body(u.all), sources));
    CopyInto(t, u);
  }

  lemma BodyIn(t: Tree)
    requires t.Valid()
    ensures t.all.Cons? && t.all.right.Cons? && Elems(Body(t.all)) <= t.nodes
  {
    FramedShape(t.all, t.head, t.feet);
  }
}
