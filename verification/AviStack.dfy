/** The growable stack of the AVI parser.  Pointers into it are addresses: item
    `k` of the buffer that starts at `base` has address `base + k`, null is 0. */
module AviStack {
  import opened AviTables

  const YYINITDEPTH := 25000
  const YYMAXDEPTH := 200000
  const YYHEADROOM := 2

  type Uint32 = x: int | 0 <= x < 0x1_0000_0000

  datatype ChunkMeta = ChunkMeta(identifier: Uint32, size: Uint32, riffListIdentifier: Uint32, offset: nat)

  /** AVI_STYPE; both parts are present at the same time. */
  datatype Value = Value(meta: ChunkMeta, size: Uint32)

  const VAL_DEFAULT := Value(ChunkMeta(0, 0, 0, 0), 0)

  /** What a stack item says, apart from the pointer to the item before it. */
  datatype Entry = Entry(state: int, posn: int, val: Value)

  datatype Item = Item(entry: Entry, resolved: bool, pred: int)

  /** The address of the item below item `k`. */
  function Pred(base: int, k: int): int {
    if k == 0 then 0 else base + k - 1
  }

  /** YYRELOC: the place in the new buffer that corresponds to `x`. */
  function Reloc(from: int, to: int, x: int): int {
    to - (from - x)
  }

  class GLRStack {
    var items: array<Item>
    var base: int
    var nextFree: int
    var spaceLeft: int
    var top: int
    var splitPoint: int
    ghost var entries: seq<Entry>

    ghost predicate Valid()
      reads this, items
    {
      && base > 0 && nextFree == base + |entries|
      && |entries| + spaceLeft == items.Length && 0 <= spaceLeft
      && YYINITDEPTH <= items.Length <= YYMAXDEPTH
      && top == Pred(base, |entries|)
      && splitPoint == 0
      && (forall k :: 0 <= k < |entries| ==> items[k] == Item(entries[k], true, Pred(base, k)))
      && (forall k :: 0 <= k < |entries| ==> 0 <= entries[k].state < YYNSTATES)
    }

    /** yyinitGLRStack, for a buffer at `address` */
    constructor (address: int)
      requires address > 0
      ensures Valid() && fresh(items) && entries == [] && items.Length == YYINITDEPTH
    {
      items := new Item[YYINITDEPTH];
      base, nextFree, spaceLeft := address, address, YYINITDEPTH;
      top, splitPoint := 0, 0;
      entries := [];
    }

    /** yyexpandGLRStack; false stands for the jump out of memory. */
    method Expand() returns (ok: bool)
      requires Valid() && spaceLeft < YYHEADROOM
      modifies this
      ensures ok <==> |old(entries)| <= YYMAXDEPTH - YYHEADROOM
      ensures entries == old(entries) && Valid()
      ensures ok ==> fresh(items) && spaceLeft >= YYHEADROOM
      ensures ok ==> items.Length == if 2 * |entries| <= YYMAXDEPTH then 2 * |entries| else YYMAXDEPTH
      ensures !ok ==> items == old(items)
    {
      var size := nextFree - base;
      if YYMAXDEPTH - YYHEADROOM < size {
        return false;
      }
      var newSize := 2 * size;
      if YYMAXDEPTH < newSize {
        newSize := YYMAXDEPTH;
      }
      var newItems := new Item[newSize];
      var newBase: int :| newBase > 0;
      var p0, p1, n := base, newBase, size;
      while 0 < n
        invariant 0 <= n <= size && p0 == base + (size - n) && p1 == newBase + (size - n)
        invariant Valid() && unchanged(this)
        invariant forall k :: 0 <= k < size - n ==> newItems[k] == Item(entries[k], true, Pred(newBase, k))
      {
        var item := items[p0 - base];
        newItems[p1 - newBase] := if item.pred != 0 then item.(pred := Reloc(p0, p1, item.pred)) else item;
        n, p0, p1 := n - 1, p0 + 1, p1 + 1;
      }
      splitPoint := if splitPoint != 0 then Reloc(base, newBase, splitPoint) else splitPoint;
      top := if top != 0 then Reloc(base, newBase, top) else top;
      items, base, nextFree, spaceLeft := newItems, newBase, newBase + size, newSize - size;
      return true;
    }

    /** yyglrShift: false if the buffer can not grow any further. */
    method Shift(state: int, posn: int, val: Value) returns (ok: bool)
      requires Valid() && spaceLeft >= YYHEADROOM && 0 <= state < YYNSTATES
      modifies this, items
      ensures Valid() && entries == old(entries) + [Entry(state, posn, val)]
      ensures items == old(items) || fresh(items)
      ensures ok <==> |entries| < YYMAXDEPTH - 1
      ensures ok ==> spaceLeft >= YYHEADROOM
    {
      var newItem := nextFree;
      spaceLeft := spaceLeft - 1;
      nextFree := nextFree + 1;
      items[newItem - base] := Item(Entry(state, posn, val), true, top);
      top := newItem;
      entries := entries + [Entry(state, posn, val)];
      ok := true;
      if spaceLeft < YYHEADROOM {
        ok := Expand();
      }
    }

    /** The value at `offset` from the item at address `rhs`. */
    function ValueAt(rhs: int, offset: int): Value
      requires 0 <= rhs + offset - base < items.Length
      reads this, items
    {
      items[rhs + offset - base].entry.val
    }

    /** The stack part of yydoAction: `n` items are given back but stay where
        they are for the semantic action. */
    method Drop(n: nat) returns (rhs: int)
      requires Valid() && n < |entries| && spaceLeft >= YYHEADROOM
      modifies this
      ensures Valid() && items == old(items) && base == old(base) && spaceLeft >= YYHEADROOM
      ensures entries == old(entries)[..|old(entries)| - n]
      ensures rhs == base + |old(entries)| - 1
      ensures forall k :: 0 <= k < |old(entries)| ==> items[k].entry == old(entries)[k]
    {
      rhs := top;
      nextFree := nextFree - n;
      spaceLeft := spaceLeft + n;
      top := nextFree - 1;
      entries := entries[..|entries| - n];
    }

    /** One step of the loops that pop the stack by its pointers. */
    method Pop()
      requires Valid() && top != 0
      modifies this
      ensures Valid() && items == old(items)
      ensures |old(entries)| > 0 && entries == old(entries)[..|old(entries)| - 1]
    {
      top := items[top - base].pred;
      nextFree := nextFree - 1;
      spaceLeft := spaceLeft + 1;
      entries := entries[..|entries| - 1];
    }

    /** The loop of yyrecoverSyntaxError: no state shifts the error token, so
        everything is popped and the parse fails. */
    method Recover() returns (recovered: bool)
      requires Valid()
      modifies this
      ensures Valid() && !recovered && entries == [] && items == old(items)
    {
      while top != 0
        invariant Valid() && items == old(items)
        decreases |entries|
      {
        var state := items[top - base].entry.state;
        NoRecovery(state);
        if ShiftsError(state) {
          assert false;
        }
        Pop();
      }
      recovered := top != 0;
    }

    /** Popping what is left at the end, item by item. */
    method Cleanup()
      requires Valid()
      modifies this
      ensures Valid() && entries == [] && nextFree == base && spaceLeft == items.Length
    {
      while top != 0
        invariant Valid()
        decreases |entries|
      {
        Pop();
      }
    }
  }
}
