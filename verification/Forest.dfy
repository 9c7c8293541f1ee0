/** Ordered forests in first-child / next-sibling form, the shape that the
    pointers of the n-ary tree trace out.  `Cons(n, kids, right)` is a node, the
    forest of its children and the forest of the siblings that follow it. */
module Forests {

  datatype Forest<A> = Nil | Cons(id: A, kids: Forest<A>, right: Forest<A>)

  ghost function Elems<A>(f: Forest<A>): set<A> {
    match f
    case Nil => {}
    case Cons(n, k, r) => {n} + Elems(k) + Elems(r)
  }

  ghost predicate NoDup<A>(f: Forest<A>) {
    match f
    case Nil => true
    case Cons(n, k, r) =>
      && n !in Elems(k) && n !in Elems(r) && Elems(k) !! Elems(r)
      && NoDup(k) && NoDup(r)
  }

  /** Sibling lists: concatenation and the plain list of roots. */
  function Append<A>(f: Forest<A>, g: Forest<A>): (h: Forest<A>)
    ensures Elems(h) == Elems(f) + Elems(g)
  {
    match f
    case Nil => g
    case Cons(n, k, r) => Cons(n, k, Append(r, g))
  }

  function Roots<A>(f: Forest<A>): seq<A> {
    match f
    case Nil => []
    case Cons(n, k, r) => [n] + Roots(r)
  }

  /** The children below the first root `v`. */
  function Below<A(==)>(f: Forest<A>, v: A): Forest<A>
    requires v in Roots(f)
  {
    if f.id == v then f.kids else Below(f.right, v)
  }

  /** The recursive listings that the iterators are measured against. */
  function PreOrder<A>(f: Forest<A>): seq<A> {
    match f
    case Nil => []
    case Cons(n, k, r) => [n] + PreOrder(k) + PreOrder(r)
  }

  function PostOrder<A>(f: Forest<A>): seq<A> {
    match f
    case Nil => []
    case Cons(n, k, r) => PostOrder(k) + [n] + PostOrder(r)
  }

  function AtDepth<A>(f: Forest<A>, d: nat): seq<A> {
    match f
    case Nil => []
    case Cons(n, k, r) => (if d == 0 then [n] else AtDepth(k, d - 1)) + AtDepth(r, d)
  }
}
