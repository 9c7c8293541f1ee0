/** The deterministic loop of the table-driven AVI parser. */
module AviParser {
  import opened AviTables
  import opened AviStack
  import opened AviDriver

  const AVI_EMPTY := -2
  const END := 0

  /** The first count of chunks and lists that the stack can not hold. */
  const LIMIT := 99997

  datatype Tag = YyOk | YyAccept | YyAbort | YyExhausted

  function Mod32(n: int): Uint32 {
    n % 0x1_0000_0000
  }

  // ---- What the parser is to compute ----

  /** The symbol at position `i`; the scanner reports the end for ever. */
  function Kind(ts: seq<Lexeme>, i: nat): int {
    if i < |ts| then Token(ts[i].code) else YYEOF
  }

  predicate IsBody(ts: seq<Lexeme>, i: nat) {
    Kind(ts, i) == CHUNK || Kind(ts, i) == LIST
  }

  predicate HeaderOk(ts: seq<Lexeme>) {
    Kind(ts, 0) == RIFF && Kind(ts, 1) == LIST
  }

  function Pushed(d: DriverState, m: ChunkMeta): DriverState {
    d.(chunks := d.chunks + [m])
  }

  /** The driver after the header tokens and `n` tokens of the body. */
  function After(ts: seq<Lexeme>, mode: Mode, d: DriverState, n: nat): DriverState
    requires n + 2 <= |ts|
  {
    if n == 0 then Pushed(Pushed(d, ts[0].meta), ts[1].meta)
    else Taken(mode, After(ts, mode, d, n - 1), ts[n + 1]).0
  }

  /** The rest of the parse, once `n` tokens of the body are consumed. */
  function BodyVerdict(ts: seq<Lexeme>, mode: Mode, d: DriverState, n: nat): (int, DriverState)
    requires n + 2 <= |ts|
    decreases |ts| - n
  {
    if IsBody(ts, n + 2) then
      var (d2, flag) := Taken(mode, d, ts[n + 2]);
      if flag == Accept then (0, d2)
      else if flag == Abort then (1, d2)
      else if n + 1 >= LIMIT then (2, d2)
      else BodyVerdict(ts, mode, d2, n + 1)
    else (if Kind(ts, n + 2) == YYEOF then 0 else 1, d)
  }

  function Verdict(ts: seq<Lexeme>, mode: Mode, d: DriverState): (int, DriverState) {
    if Kind(ts, 0) != RIFF then (1, d)
    else if Kind(ts, 1) != LIST then (1, Pushed(d, ts[0].meta))
    else BodyVerdict(ts, mode, After(ts, mode, d, 0), 0)
  }

  /** The first `n` tokens of the body are there and none ends the parse. */
  ghost predicate Running(ts: seq<Lexeme>, mode: Mode, n: nat) {
    && HeaderOk(ts) && n + 2 <= |ts|
    && forall i :: 2 <= i < n + 2 ==> IsBody(ts, i) && !Stops(mode, ts[i])
  }

  lemma {:induction false} VerdictAt(ts: seq<Lexeme>, mode: Mode, d: DriverState, n: nat)
    requires Running(ts, mode, n) && n < LIMIT
    ensures Verdict(ts, mode, d) == BodyVerdict(ts, mode, After(ts, mode, d, n), n)
  {
    if n > 0 {
      VerdictAt(ts, mode, d, n - 1);
      var before := After(ts, mode, d, n - 1);
      TakenStops(mode, before, ts[n + 1]);
      assert IsBody(ts, n + 1);
    }
  }

  lemma KindCodes(ts: seq<Lexeme>, i: nat)
    ensures Kind(ts, i) == YYEOF <==> i >= |ts| || ts[i].code <= 0
    ensures Kind(ts, i) == RIFF <==> i < |ts| && ts[i].code == 258
    ensures Kind(ts, i) == LIST <==> i < |ts| && ts[i].code == 259
    ensures Kind(ts, i) == CHUNK <==> i < |ts| && ts[i].code == 260
    ensures IsBody(ts, i) <==> i < |ts| && (ts[i].code == 259 || ts[i].code == 260)
    ensures i == 0 ==> (HeaderOk(ts) <==> |ts| >= 2 && ts[0].code == 258 && ts[1].code == 259)
  {
    if i < |ts| {
      TokenCodes(ts[i].code);
    }
    if |ts| >= 2 {
      TokenCodes(ts[0].code);
      TokenCodes(ts[1].code);
    }
  }

  /** The size of the list of chunks behind the first `k` of `n`. */
  function FoldSize(ts: seq<Lexeme>, n: nat, k: nat): Uint32
    requires k <= n && n + 2 <= |ts|
    decreases n - k
  {
    if k == n then 0
    else if Kind(ts, k + 2) == CHUNK then Mod32(4 + 4 + ts[k + 2].meta.size + FoldSize(ts, n, k + 1))
    else Mod32(4 + 4 + 4 + FoldSize(ts, n, k + 1))
  }

  /** The number of chunks and lists in a row from position `i` on. */
  function BodyLength(ts: seq<Lexeme>, i: nat): (n: nat)
    ensures i <= |ts| ==> i + n <= |ts|
    ensures forall j :: i <= j < i + n ==> IsBody(ts, j)
    ensures !IsBody(ts, i + n)
    decreases |ts| - i
  {
    if IsBody(ts, i) then 1 + BodyLength(ts, i + 1) else 0
  }

  /** The whole input is consumed: header, body and end, with nothing that ends
      the parse before. */
  ghost predicate Complete(ts: seq<Lexeme>, mode: Mode) {
    var n := BodyLength(ts, 2);
    HeaderOk(ts) && Running(ts, mode, n) && n < LIMIT && Kind(ts, n + 2) == YYEOF
  }

  /** BodyLength is determined by where the body ends. */
  lemma {:induction false} BodyLengthIs(ts: seq<Lexeme>, i: nat, n: nat)
    requires forall j :: i <= j < i + n ==> IsBody(ts, j)
    ensures BodyLength(ts, i) >= n
    ensures !IsBody(ts, i + n) ==> BodyLength(ts, i) == n
    decreases n
  {
    if n > 0 {
      assert IsBody(ts, i);
      BodyLengthIs(ts, i + 1, n - 1);
    }
  }

  // ---- What the stack looks like on the way ----

  datatype Phase =
    | Start | Opened | Named | Listed
    | Gather(n: nat) | Taking(n: nat)
    | Fold(n: nat, k: nat) | Whole(n: nat) | Final(n: nat)

  function TokenValue(x: Lexeme): Value {
    Value(x.meta, 0)
  }

  /** The states pushed for a token of the body and for its mid-rule action. */
  function TokenEntries(ts: seq<Lexeme>, i: nat): seq<Entry>
    requires i < |ts|
  {
    var chunk := Kind(ts, i) == CHUNK;
    [Entry(if chunk then 8 else 7, i + 1, TokenValue(ts[i])), Entry(if chunk then 11 else 10, i + 1, VAL_DEFAULT)]
  }

  function Prefix(ts: seq<Lexeme>, n: nat): (s: seq<Entry>)
    requires n + 2 <= |ts|
    ensures |s| == 5 + 2 * n
  {
    if n == 0 then
      [Entry(0, 0, VAL_DEFAULT), Entry(1, 1, TokenValue(ts[0])), Entry(3, 1, VAL_DEFAULT),
       Entry(5, 2, TokenValue(ts[1])), Entry(6, 2, VAL_DEFAULT)]
    else Prefix(ts, n - 1) + TokenEntries(ts, n + 1)
  }

  function FoldEntry(ts: seq<Lexeme>, n: nat, k: nat): Entry
    requires k <= n && n + 2 <= |ts|
  {
    Entry(if k == 0 then 9 else if Kind(ts, k + 1) == CHUNK then 13 else 12,
          n + 2,
          if k == n then VAL_DEFAULT else Value(ts[k + 2].meta, FoldSize(ts, n, k)))
  }

  /** The value of a file that is consumed as a whole. */
  function WholeValue(ts: seq<Lexeme>): Value
    requires |ts| >= 2
  {
    Value(ts[0].meta, Mod32(20 + FoldSize(ts, BodyLength(ts, 2), 0)))
  }

  // ---- The size of the file ----

  /** What a token of the body adds to the size of the file. */
  function Weight(x: Lexeme): nat {
    if x.code == 260 then 8 + x.meta.size else 12
  }

  function Total(xs: seq<Lexeme>): nat {
    if xs == [] then 0 else Weight(xs[0]) + Total(xs[1..])
  }

  lemma ModAdd(a: int, b: int)
    ensures (a + b % 0x1_0000_0000) % 0x1_0000_0000 == (a + b) % 0x1_0000_0000
  {
    var m := 0x1_0000_0000;
    assert b == b / m * m + b % m;
    assert (a + b % m) + b / m * m == a + b;
    ModShift(a + b % m, b / m);
  }

  lemma ModShift(a: int, k: int)
    ensures (a + k * 0x1_0000_0000) % 0x1_0000_0000 == a % 0x1_0000_0000
  {}

  /** The sizes, added up from right to left in 32 bits, come to the total modulo 2^32. */
  lemma {:induction false} FoldTotal(ts: seq<Lexeme>, n: nat, k: nat)
    requires k <= n && n + 2 <= |ts| && forall i :: k + 2 <= i < n + 2 ==> IsBody(ts, i)
    ensures FoldSize(ts, n, k) == Total(ts[k + 2..n + 2]) % 0x1_0000_0000
    decreases n - k
  {
    if k < n {
      FoldTotal(ts, n, k + 1);
      assert ts[k + 2..n + 2][1..] == ts[k + 3..n + 2];
      assert IsBody(ts, k + 2);
      ModAdd(Weight(ts[k + 2]), Total(ts[k + 3..n + 2]));
    }
  }

  /** The size of a whole file is 20 plus 8 and its payload for each chunk and
      12 for each list, modulo 2^32. */
  lemma WholeSize(ts: seq<Lexeme>)
    requires HeaderOk(ts)
    ensures BodyLength(ts, 2) + 2 <= |ts|
    ensures var size := 20 + Total(ts[2..BodyLength(ts, 2) + 2]);
      WholeValue(ts).size == size % 0x1_0000_0000 && (size < 0x1_0000_0000 ==> WholeValue(ts).size == size)
  {
    hide *;
    var n := BodyLength(ts, 2);
    WholeFold(ts);
    FoldTotal(ts, n, 0);
    ModAdd(20, Total(ts[2..n + 2]));
    ModSmall(20 + Total(ts[2..n + 2]));
  }

  lemma ModSmall(a: nat)
    ensures a < 0x1_0000_0000 ==> a % 0x1_0000_0000 == a
  {}

  lemma WholeFold(ts: seq<Lexeme>)
    requires HeaderOk(ts)
    ensures BodyLength(ts, 2) + 2 <= |ts| && forall i :: 2 <= i < BodyLength(ts, 2) + 2 ==> IsBody(ts, i)
    ensures WholeValue(ts).size == (20 + FoldSize(ts, BodyLength(ts, 2), 0)) % 0x1_0000_0000
  {
    hide FoldSize, BodyLength;
  }

  function WholeStack(ts: seq<Lexeme>, n: nat): seq<Entry>
    requires n + 2 <= |ts|
  {
    [Entry(0, 0, VAL_DEFAULT), Entry(2, n + 2, Value(ts[0].meta, Mod32(20 + FoldSize(ts, n, 0))))]
  }

  function Needs(ph: Phase): nat {
    match ph
    case Start => 0
    case Opened => 1
    case Named => 1
    case Listed => 2
    case Taking(n) => n + 3
    case Gather(n) => n + 2
    case Fold(n, _) => n + 2
    case Whole(n) => n + 2
    case Final(n) => n + 2
  }

  function StackOf(ts: seq<Lexeme>, ph: Phase): seq<Entry>
    requires Needs(ph) <= |ts| && (ph.Fold? ==> ph.k <= ph.n)
  {
    match ph
    case Start => [Entry(0, 0, VAL_DEFAULT)]
    case Opened => [Entry(0, 0, VAL_DEFAULT), Entry(1, 1, TokenValue(ts[0]))]
    case Named => [Entry(0, 0, VAL_DEFAULT), Entry(1, 1, TokenValue(ts[0])), Entry(3, 1, VAL_DEFAULT)]
    case Listed => [Entry(0, 0, VAL_DEFAULT), Entry(1, 1, TokenValue(ts[0])), Entry(3, 1, VAL_DEFAULT),
                    Entry(5, 2, TokenValue(ts[1]))]
    case Gather(n) => Prefix(ts, n)
    case Taking(n) => Prefix(ts, n) + [TokenEntries(ts, n + 2)[0]]
    case Fold(n, k) => Prefix(ts, k) + [FoldEntry(ts, n, k)]
    case Whole(n) => WholeStack(ts, n)
    case Final(n) => WholeStack(ts, n) + [Entry(4, n + 3, EndValue(ts, n + 2))]
  }

  function EndValue(ts: seq<Lexeme>, i: nat): Value {
    if i < |ts| then TokenValue(ts[i]) else VAL_DEFAULT
  }

  /** What is known about the input in each phase. */
  ghost predicate Inv(ts: seq<Lexeme>, mode: Mode, ph: Phase) {
    && Needs(ph) <= |ts| && (ph.Fold? ==> ph.k <= ph.n)
    && match ph
       case Start => true
       case Opened => Kind(ts, 0) == RIFF
       case Named => Kind(ts, 0) == RIFF
       case Listed => HeaderOk(ts)
       case Gather(n) => Running(ts, mode, n) && n < LIMIT
       case Taking(n) => Running(ts, mode, n) && n < LIMIT && IsBody(ts, n + 2)
       case Fold(n, k) => Ended(ts, mode, n)
       case Whole(n) => Ended(ts, mode, n)
       case Final(n) => Ended(ts, mode, n) && Kind(ts, n + 2) == YYEOF
  }

  ghost predicate Ended(ts: seq<Lexeme>, mode: Mode, n: nat) {
    Running(ts, mode, n) && n < LIMIT && !IsBody(ts, n + 2) && Kind(ts, n + 2) != YYERROR
  }

  function DriverAt(ts: seq<Lexeme>, mode: Mode, d: DriverState, ph: Phase): DriverState
    requires Needs(ph) <= |ts|
  {
    match ph
    case Start => d
    case Opened => d
    case Named => Pushed(d, ts[0].meta)
    case Listed => Pushed(d, ts[0].meta)
    case Gather(n) => After(ts, mode, d, n)
    case Taking(n) => After(ts, mode, d, n)
    case Fold(n, _) => After(ts, mode, d, n)
    case Whole(n) => After(ts, mode, d, n)
    case Final(n) => After(ts, mode, d, n)
  }

  /** Tokens that have been shifted. */
  function Shifted(ph: Phase): nat {
    if ph.Final? then ph.n + 3 else Needs(ph)
  }

  /** The reduction of a phase, if it does not need to look at a token. */
  function RuleOf(ts: seq<Lexeme>, ph: Phase): int
    requires Needs(ph) <= |ts| && (ph.Fold? ==> ph.k <= ph.n)
  {
    match ph
    case Opened => 2
    case Listed => 3
    case Taking(n) => if Kind(ts, n + 2) == CHUNK then 5 else 7
    case Fold(_, k) => if k == 0 then 4 else if Kind(ts, k + 1) == CHUNK then 6 else 8
    case _ => 9
  }

  function NextPhase(ph: Phase): Phase {
    match ph
    case Opened => Named
    case Listed => Gather(0)
    case Taking(n) => Gather(n + 1)
    case Gather(n) => Fold(n, n)
    case Fold(n, k) => if k == 0 then Whole(n) else Fold(n, k - 1)
    case _ => ph
  }

  /** The value that the action of a rule computes from the items it reads. */
  function RuleValue(rule: int, e: seq<Entry>): Value
    requires 2 <= rule <= YYNRULES && YYR2[rule] < |e|
  {
    var top := e[|e| - 1].val;
    match rule
    case 4 => e[|e| - 5].val.(size := Mod32((4 + 4) + (4 + 4 + 4) + top.size))
    case 6 => e[|e| - 3].val.(size := Mod32(4 + 4 + e[|e| - 3].val.meta.size + top.size))
    case 8 => e[|e| - 3].val.(size := Mod32(4 + 4 + 4 + top.size))
    case _ => VAL_DEFAULT
  }

  function Reduced(rule: int, e: seq<Entry>): seq<Entry>
    requires 2 <= rule <= YYNRULES && YYR2[rule] < |e|
    requires 0 <= e[|e| - YYR2[rule] - 1].state < YYNSTATES
  {
    var rest := e[..|e| - YYR2[rule]];
    rest + [Entry(GotoState(rest[|rest| - 1].state, YYR1[rule]), e[|e| - 1].posn, RuleValue(rule, e))]
  }

  /** The state on top of a prefix. */
  lemma PrefixTop(ts: seq<Lexeme>, n: nat)
    requires n + 2 <= |ts|
    ensures Prefix(ts, n)[4 + 2 * n] ==
      Entry(if n == 0 then 6 else if Kind(ts, n + 1) == CHUNK then 11 else 10, n + 2, VAL_DEFAULT)
  {
  }

  /** A reduction of `rule` over the stack `e` yields `r`. */
  ghost predicate Yields(rule: int, e: seq<Entry>, r: seq<Entry>) {
    && 2 <= rule <= YYNRULES && YYR2[rule] < |e| && 0 <= e[|e| - YYR2[rule] - 1].state < YYNSTATES
    && Reduced(rule, e) == r
  }

  lemma ReduceListed(ts: seq<Lexeme>)
    requires |ts| >= 2
    ensures Yields(3, StackOf(ts, Listed), StackOf(ts, Gather(0)))
  {
    GotoTable(5);
  }

  lemma ReduceOpened(ts: seq<Lexeme>)
    requires |ts| >= 1
    ensures Yields(2, StackOf(ts, Opened), StackOf(ts, Named))
  {
    GotoTable(1);
  }

  lemma ReduceEmpty(ts: seq<Lexeme>, n: nat)
    requires n + 2 <= |ts|
    ensures Yields(9, StackOf(ts, Gather(n)), StackOf(ts, Fold(n, n)))
  {
    PrefixTop(ts, n);
    var e := Prefix(ts, n);
    GotoTable(e[4 + 2 * n].state);
    assert e[..|e| - 0] == e;
  }

  lemma ReduceTaking(ts: seq<Lexeme>, n: nat)
    requires n + 2 < |ts| && IsBody(ts, n + 2)
    ensures Yields(RuleOf(ts, Taking(n)), StackOf(ts, Taking(n)), StackOf(ts, Gather(n + 1)))
  {
    var rule, e := RuleOf(ts, Taking(n)), StackOf(ts, Taking(n));
    GotoTable(e[|e| - 1].state);
    assert e[..|e| - 0] == e;
    assert YYR1[rule] == if rule == 5 then 11 else 12;
    assert StackOf(ts, Gather(n + 1)) == Prefix(ts, n) + TokenEntries(ts, n + 2);
  }

  lemma ReduceWhole(ts: seq<Lexeme>, n: nat)
    requires n + 2 <= |ts|
    ensures Yields(4, StackOf(ts, Fold(n, 0)), StackOf(ts, Whole(n)))
  {
    GotoTable(0);
  }

  lemma ReduceFold(ts: seq<Lexeme>, n: nat, k: nat)
    requires 0 < k <= n && n + 2 <= |ts| && IsBody(ts, k + 1)
    ensures Yields(RuleOf(ts, Fold(n, k)), StackOf(ts, Fold(n, k)), StackOf(ts, Fold(n, k - 1)))
  {
    var p, m, top := Prefix(ts, k - 1), TokenEntries(ts, k + 1), FoldEntry(ts, n, k);
    var rule := RuleOf(ts, Fold(n, k));
    FoldValue(ts, n, k);
    FoldStack(ts, n, k);
    hide Prefix, TokenEntries, FoldEntry, StackOf, IsBody, GotoState, FoldSize, RuleOf, Yields;
    ReduceThree(rule, p, m, top);
  }

  lemma FoldStack(ts: seq<Lexeme>, n: nat, k: nat)
    requires 0 < k <= n && n + 2 <= |ts|
    ensures var p := Prefix(ts, k - 1);
      && StackOf(ts, Fold(n, k)) == p + TokenEntries(ts, k + 1) + [FoldEntry(ts, n, k)]
      && StackOf(ts, Fold(n, k - 1)) == p + [FoldEntry(ts, n, k - 1)]
      && 0 <= p[|p| - 1].state < YYNSTATES && FoldEntry(ts, n, k - 1).state == GotoState(p[|p| - 1].state, CHUNKS)
      && FoldEntry(ts, n, k - 1).posn == FoldEntry(ts, n, k).posn
  {
    FoldStates(ts, n, k);
    hide FoldEntry, TokenEntries, GotoState, FoldSize;
  }

  lemma FoldStates(ts: seq<Lexeme>, n: nat, k: nat)
    requires 0 < k <= n && n + 2 <= |ts|
    ensures var state := Prefix(ts, k - 1)[2 + 2 * k].state;
      0 <= state < YYNSTATES && FoldEntry(ts, n, k - 1).state == GotoState(state, CHUNKS)
    ensures FoldEntry(ts, n, k - 1).posn == FoldEntry(ts, n, k).posn
  {
    PrefixTop(ts, k - 1);
    GotoTable(Prefix(ts, k - 1)[2 + 2 * k].state);
    hide GotoState, FoldSize;
  }

  lemma FoldValue(ts: seq<Lexeme>, n: nat, k: nat)
    requires 0 < k <= n && n + 2 <= |ts| && IsBody(ts, k + 1)
    ensures var rule, v, top := RuleOf(ts, Fold(n, k)), TokenEntries(ts, k + 1)[0].val, FoldEntry(ts, n, k).val;
      && (rule == 6 || rule == 8)
      && FoldEntry(ts, n, k - 1).val ==
         v.(size := Mod32(if rule == 6 then 4 + 4 + v.meta.size + top.size else 4 + 4 + 4 + top.size))
  {}

  /** The reductions by rules 6 and 8, which take three items. */
  lemma ReduceThree(rule: int, p: seq<Entry>, m: seq<Entry>, top: Entry)
    requires (rule == 6 || rule == 8) && |m| == 2 && |p| > 0 && 0 <= p[|p| - 1].state < YYNSTATES
    ensures Yields(rule, p + m + [top],
      p + [Entry(GotoState(p[|p| - 1].state, CHUNKS), top.posn,
                 m[0].val.(size := Mod32(if rule == 6 then 4 + 4 + m[0].val.meta.size + top.val.size
                                         else 4 + 4 + 4 + top.val.size)))])
  {
    hide GotoState;
    var e := p + m + [top];
    assert e[..|e| - 3] == p && e[|e| - 3] == m[0];
  }

  /** Each reduction leads from one phase to the next. */
  lemma ReducePhase(ts: seq<Lexeme>, mode: Mode, ph: Phase)
    requires Inv(ts, mode, ph) && !ph.Start? && !ph.Named? && !ph.Whole? && !ph.Final?
    ensures Needs(NextPhase(ph)) <= |ts|
    ensures Yields(RuleOf(ts, ph), StackOf(ts, ph), StackOf(ts, NextPhase(ph)))
  {
    hide StackOf, Yields;
    match ph {
      case Opened => ReduceOpened(ts);
      case Listed => ReduceListed(ts);
      case Gather(n) => ReduceEmpty(ts, n);
      case Taking(n) => ReduceTaking(ts, n);
      case Fold(n, k) =>
        if k == 0 {
          ReduceWhole(ts, n);
        } else {
          ReduceFold(ts, n, k);
        }
    }
  }

  // ---- The parser itself ----

  /** What the action of a rule does to the driver. */
  function Acted(rule: int, mode: Mode, d: DriverState, m: ChunkMeta, x: Lexeme): (DriverState, Flag) {
    if rule == 2 || rule == 3 then (Pushed(d, m), Ok)
    else if rule == 5 || rule == 7 then Taken(mode, d, x)
    else (d, Ok)
  }

  /** yyuserAction, after the right-hand side has been taken off the stack but
      with its items still in the buffer below `rhs`. */
  method UserAction(rule: int, rhs: int, stack: GLRStack, driver: Driver, ghost e: seq<Entry>, ghost x: Lexeme)
    returns (val: Value, flag: Flag)
    requires stack.Valid() && 2 <= rule <= YYNRULES && YYR2[rule] < |e| <= stack.items.Length
    requires rhs == stack.base + |e| - 1
    requires forall k :: 0 <= k < |e| ==> stack.items[k].entry == e[k]
    requires rule == 5 ==> Token(x.code) == CHUNK && driver.offset == x.offset && driver.frameOk == x.frameOk
    requires rule == 7 ==> Token(x.code) == LIST
    requires rule == 5 || rule == 7 ==> x.meta == e[|e| - 1].val.meta
    modifies driver`chunks, driver`inFrames, driver`finished, driver`calls
    ensures val == RuleValue(rule, e)
    ensures var top := e[|e| - 1].val;
      && (rule == 4 ==> val == Value(e[|e| - 5].val.meta, (20 + top.size) % 0x1_0000_0000))
      && (rule == 6 ==> val.meta == e[|e| - 3].val.meta && val.size == (8 + val.meta.size + top.size) % 0x1_0000_0000)
      && (rule == 8 ==> val == Value(e[|e| - 3].val.meta, (12 + top.size) % 0x1_0000_0000))
      && (rule == 9 ==> val.size == 0)
    ensures rule == 2 || rule == 3 ==> driver.chunks == old(driver.chunks) + [e[|e| - 1].val.meta]
    ensures (driver.State(), flag) == Acted(rule, driver.ModeOf(), old(driver.State()), e[|e| - 1].val.meta, x)
  {
    var rhslen := YYR2[rule];
    val := if rhslen == 0 then VAL_DEFAULT else stack.ValueAt(rhs, 1 - rhslen);
    flag := Ok;
    var top := stack.ValueAt(rhs, 0);
    match rule {
      case 2 => driver.chunks := driver.chunks + [top.meta];
      case 3 => driver.chunks := driver.chunks + [top.meta];
      case 4 => val := val.(size := Mod32((4 + 4) + (4 + 4 + 4) + top.size));
      case 5 => flag := driver.ActionChunk(top.meta, x);
      case 6 => val := val.(size := Mod32(4 + 4 + stack.ValueAt(rhs, -2).meta.size + top.size));
      case 7 => flag := driver.ActionList(top.meta, x);
      case 8 => val := val.(size := Mod32(4 + 4 + 4 + top.size));
      case _ => val := val.(size := 0);
    }
  }

  /** The item on top of the stack. */
  lemma TopItem(stack: GLRStack)
    requires stack.Valid() && stack.entries != []
    ensures 0 <= stack.top - stack.base < stack.items.Length
    ensures stack.items[stack.top - stack.base].entry == stack.entries[|stack.entries| - 1]
    ensures 0 <= stack.entries[|stack.entries| - 1].state < YYNSTATES && |stack.entries| <= stack.items.Length
  {}

  lemma ReducedIs(rule: int, e: seq<Entry>)
    requires 2 <= rule <= YYNRULES && YYR2[rule] < |e|
    ensures 0 <= YYR2[rule]
    ensures var rest := e[..|e| - YYR2[rule]];
      0 <= rest[|rest| - 1].state < YYNSTATES ==>
        Reduced(rule, e) ==
        rest + [Entry(GotoState(rest[|rest| - 1].state, YYR1[rule]), e[|e| - 1].posn, RuleValue(rule, e))]
  {}

  lemma RuleLengths(rule: int)
    requires 2 <= rule <= YYNRULES
    ensures rule < |YYR1| == |YYR2| && 0 <= YYR2[rule] <= 5 && YYNTOKENS <= YYR1[rule] <= 12
    ensures forall state :: 0 <= state < YYNSTATES ==> 0 <= GotoState(state, YYR1[rule]) < YYNSTATES
  {}

  /** yyglrReduce on the only stack. */
  method Reduce(rule: int, stack: GLRStack, driver: Driver, ghost x: Lexeme) returns (tag: Tag)
    requires stack.Valid() && stack.spaceLeft >= YYHEADROOM && 2 <= rule <= YYNRULES && YYR2[rule] < |stack.entries|
    requires rule == 5 ==> Token(x.code) == CHUNK && driver.offset == x.offset && driver.frameOk == x.frameOk
    requires rule == 7 ==> Token(x.code) == LIST
    requires rule == 5 || rule == 7 ==> x.meta == stack.entries[|stack.entries| - 1].val.meta
    modifies stack, stack.items, driver`chunks, driver`inFrames, driver`finished, driver`calls
    ensures stack.Valid() && (stack.items == old(stack.items) || fresh(stack.items))
    ensures var e := old(stack.entries);
      && var (d, flag) := Acted(rule, driver.ModeOf(), old(driver.State()), e[|e| - 1].val.meta, x);
      && driver.State() == d
      && (flag == Accept <==> tag == YyAccept) && (flag == Abort <==> tag == YyAbort)
      && (flag == Ok ==> 0 <= e[|e| - YYR2[rule] - 1].state < YYNSTATES && stack.entries == Reduced(rule, e))
      && (flag == Ok ==> (tag == YyOk <==> |stack.entries| < YYMAXDEPTH - 1))
    ensures tag == YyOk ==> stack.spaceLeft >= YYHEADROOM
  {
    hide *;
    ghost var e := stack.entries;
    RuleLengths(rule);
    TopItem(stack);
    ReducedIs(rule, e);
    var posn := stack.items[stack.top - stack.base].entry.posn;
    var rhs := stack.Drop(YYR2[rule]);
    var val, flag := UserAction(rule, rhs, stack, driver, e, x);
    match flag {
      case Accept => return YyAccept;
      case Abort => return YyAbort;
      case Ok =>
        TopItem(stack);
        var below := stack.items[stack.top - stack.base].entry.state;
        var ok := stack.Shift(GotoState(below, YYR1[rule]), posn, val);
        return if ok then YyOk else YyExhausted;
    }
  }

  /** The state on top of the stack in each phase. */
  function TopOf(ts: seq<Lexeme>, ph: Phase): int
    requires Needs(ph) <= |ts|
  {
    match ph
    case Start => 0
    case Opened => 1
    case Named => 3
    case Listed => 5
    case Gather(n) => if n == 0 then 6 else if Kind(ts, n + 1) == CHUNK then 11 else 10
    case Taking(n) => if Kind(ts, n + 2) == CHUNK then 8 else 7
    case Fold(n, k) => if k == 0 then 9 else if k + 2 <= |ts| && Kind(ts, k + 1) == CHUNK then 13 else 12
    case Whole(_) => 2
    case Final(_) => 4
  }

  predicate AwaitsToken(ph: Phase) {
    ph.Start? || ph.Named? || ph.Gather? || ph.Whole?
  }

  lemma Tops(ts: seq<Lexeme>, ph: Phase)
    requires Needs(ph) <= |ts| && (ph.Fold? ==> ph.k <= ph.n)
    ensures var e, q := StackOf(ts, ph), TopOf(ts, ph);
      && |e| > 0 && e[|e| - 1].state == q && 0 <= q < YYNSTATES
      && (q == YYFINAL <==> ph.Final?)
      && (AwaitsToken(ph) <==> !IsDefaultedState(q))
      && (!AwaitsToken(ph) && !ph.Final? ==> YYDEFACT[q] == RuleOf(ts, ph))
    ensures ph.Taking? ==> var e := StackOf(ts, ph); e[|e| - 1].val == TokenValue(ts[ph.n + 2])
    ensures ph.Opened? || ph.Listed? ==> var e := StackOf(ts, ph); e[|e| - 1].val == TokenValue(ts[Needs(ph) - 1])
  {
    if ph.Gather? {
      PrefixTop(ts, ph.n);
    }
  }

  /** The invariant and the driver after a reduction whose action went well. */
  lemma ReduceDriver(ts: seq<Lexeme>, mode: Mode, d0: DriverState, ph: Phase, m: ChunkMeta)
    requires Inv(ts, mode, ph) && !ph.Start? && !ph.Named? && !ph.Whole? && !ph.Final?
    requires ph.Gather? ==> Ended(ts, mode, ph.n)
    requires ph.Opened? || ph.Listed? ==> m == ts[Needs(ph) - 1].meta
    ensures var x := ts[Needs(ph) - 1];
      var (d, flag) := Acted(RuleOf(ts, ph), mode, DriverAt(ts, mode, d0, ph), m, x);
      && (flag == Ok && NextPhase(ph) != Gather(LIMIT) ==>
            Inv(ts, mode, NextPhase(ph)) && d == DriverAt(ts, mode, d0, NextPhase(ph)))
      && (flag == Accept ==> Verdict(ts, mode, d0) == (0, d))
      && (flag == Abort ==> Verdict(ts, mode, d0) == (1, d))
      && (flag == Ok && NextPhase(ph) == Gather(LIMIT) ==> Verdict(ts, mode, d0) == (2, d))
      && (flag != Ok || NextPhase(ph) == Gather(LIMIT) ==> !Complete(ts, mode))
  {
    if ph.Taking? {
      hide Verdict, Complete, Taken;
      TakingDriver(ts, mode, d0, ph.n);
    }
  }

  lemma TakingDriver(ts: seq<Lexeme>, mode: Mode, d0: DriverState, n: nat)
    requires Inv(ts, mode, Taking(n))
    ensures var (d, flag) := Taken(mode, After(ts, mode, d0, n), ts[n + 2]);
      && d == After(ts, mode, d0, n + 1)
      && (flag == Ok ==> Running(ts, mode, n + 1))
      && (flag == Accept ==> Verdict(ts, mode, d0) == (0, d))
      && (flag == Abort ==> Verdict(ts, mode, d0) == (1, d))
      && (flag == Ok && n + 1 == LIMIT ==> Verdict(ts, mode, d0) == (2, d))
      && (flag != Ok || n + 1 == LIMIT ==> !Complete(ts, mode))
  {
    BodyLengthIs(ts, 2, n + 1);
    VerdictAt(ts, mode, d0, n);
    TakenStops(mode, After(ts, mode, d0, n), ts[n + 2]);
    hide Taken, Stops;
  }

  /** Only a prefix with one token too many fills the stack. */
  lemma Heights(ts: seq<Lexeme>, mode: Mode, ph: Phase)
    requires Inv(ts, mode, ph) || (ph.Gather? && ph.n == LIMIT && LIMIT + 2 <= |ts|)
    ensures |StackOf(ts, ph)| < YYMAXDEPTH - 1 <==> ph != Gather(LIMIT)
    ensures ph.Gather? ==> |StackOf(ts, ph)| == 5 + 2 * ph.n
  {}

  function ResultOf(tag: Tag): int {
    match tag
    case YyOk => 0
    case YyAccept => 0
    case YyAbort => 1
    case YyExhausted => 2
  }

  /** One reduction of the run. */
  method ReduceStep(ts: seq<Lexeme>, rule: int, stack: GLRStack, driver: Driver, ghost d0: DriverState, ghost ph: Phase)
    returns (tag: Tag)
    requires stack.Valid() && stack.spaceLeft >= YYHEADROOM
    requires Inv(ts, driver.ModeOf(), ph) && !ph.Start? && !ph.Named? && !ph.Whole? && !ph.Final?
    requires ph.Gather? ==> Ended(ts, driver.ModeOf(), ph.n)
    requires stack.entries == StackOf(ts, ph) && rule == RuleOf(ts, ph)
    requires driver.State() == DriverAt(ts, driver.ModeOf(), d0, ph)
    requires ph.Taking? ==> driver.offset == ts[ph.n + 2].offset && driver.frameOk == ts[ph.n + 2].frameOk
    modifies stack, stack.items, driver`chunks, driver`inFrames, driver`finished, driver`calls
    ensures stack.Valid() && (stack.items == old(stack.items) || fresh(stack.items))
    ensures tag == YyOk ==> stack.spaceLeft >= YYHEADROOM && Inv(ts, driver.ModeOf(), NextPhase(ph))
    ensures tag == YyOk ==> stack.entries == StackOf(ts, NextPhase(ph))
    ensures tag == YyOk ==> driver.State() == DriverAt(ts, driver.ModeOf(), d0, NextPhase(ph))
    ensures tag != YyOk ==>
      Verdict(ts, driver.ModeOf(), d0) == (ResultOf(tag), driver.State()) && !Complete(ts, driver.ModeOf())
  {
    hide StackOf, RuleOf, DriverAt, Verdict, Acted, Reduced, RuleValue, GLRStack.Valid, Running, IsBody, Inv, Ended;
    ghost var mode, e := driver.ModeOf(), stack.entries;
    ReduceReady(ts, mode, ph);
    ghost var m, x := e[|e| - 1].val.meta, ts[Needs(ph) - 1];
    ReducePhase(ts, mode, ph);
    ReduceDriver(ts, mode, d0, ph, m);
    tag := Reduce(rule, stack, driver, x);
    ghost var flag := Acted(rule, mode, DriverAt(ts, mode, d0, ph), m, x).1;
    if flag == Ok {
      Heights(ts, mode, NextPhase(ph));
    }
  }

  /** What the next reduction needs to know of its phase. */
  lemma ReduceReady(ts: seq<Lexeme>, mode: Mode, ph: Phase)
    requires Inv(ts, mode, ph) && !ph.Start? && !ph.Named? && !ph.Whole? && !ph.Final?
    ensures 0 < Needs(ph) <= |ts| && (ph.Fold? ==> ph.k <= ph.n)
    ensures var rule, e, x := RuleOf(ts, ph), StackOf(ts, ph), ts[Needs(ph) - 1];
      && 2 <= rule <= YYNRULES && YYR2[rule] < |e|
      && (rule == 5 ==> ph.Taking? && Token(x.code) == CHUNK) && (rule == 7 ==> Token(x.code) == LIST)
      && (rule == 5 || rule == 7 || ph.Opened? || ph.Listed? ==> x.meta == e[|e| - 1].val.meta)
  {
    Tops(ts, ph);
    ReducePhase(ts, mode, ph);
  }

  /** The lookahead: the raw token, its value and how far the scanner is. */
  class Lookahead {
    var yychar: int
    var yylval: Value
    var pos: nat

    constructor ()
      ensures yychar == AVI_EMPTY && yylval == VAL_DEFAULT && pos == 0
    {
      yychar, yylval, pos := AVI_EMPTY, VAL_DEFAULT, 0;
    }

    /** `n` tokens are shifted; one more may have been read. */
    ghost predicate At(ts: seq<Lexeme>, n: nat, driver: Driver)
      reads this, driver`offset, driver`frameOk
    {
      if yychar == AVI_EMPTY then pos == n
      else Read(ts, n, driver)
    }

    ghost predicate Read(ts: seq<Lexeme>, n: nat, driver: Driver)
      reads this, driver`offset, driver`frameOk
    {
      && yychar != AVI_EMPTY && pos == n + 1 && Token(yychar) == Kind(ts, n) && yylval == EndValue(ts, n)
      && (n < |ts| ==> driver.offset == ts[n].offset && driver.frameOk == ts[n].frameOk)
    }

    /** yygetToken, with the scanner behind it */
    method GetToken(ts: seq<Lexeme>, driver: Driver, ghost n: nat) returns (token: int)
      requires At(ts, n, driver)
      modifies this, driver`offset, driver`frameOk
      ensures Read(ts, n, driver) && token == Kind(ts, n)
    {
      if yychar == AVI_EMPTY {
        if pos < |ts| {
          yychar, yylval := ts[pos].code, TokenValue(ts[pos]);
          driver.offset, driver.frameOk := ts[pos].offset, ts[pos].frameOk;
        } else {
          yychar, yylval := END, VAL_DEFAULT;
        }
        pos := pos + 1;
      }
      if yychar <= END {
        yychar := END;
        token := YYEOF;
      } else {
        token := Translate(yychar);
      }
    }
  }

  function ShiftPhase(ph: Phase): Phase {
    match ph
    case Start => Opened
    case Named => Listed
    case Gather(n) => Taking(n)
    case Whole(n) => Final(n)
    case _ => ph
  }

  /** What the automaton does with the next token, and what that means. */
  lemma TokenPhase(ts: seq<Lexeme>, mode: Mode, d0: DriverState, ph: Phase)
    requires Inv(ts, mode, ph) && AwaitsToken(ph)
    ensures Shifted(ph) == Needs(ph) <= |ts| && 0 <= TopOf(ts, ph) < YYNSTATES
    ensures var n := Shifted(ph);
      var action := LRActions(TopOf(ts, ph), Kind(ts, n)).0;
      && action < YYNSTATES
      && (action > 0 ==>
        Inv(ts, mode, ShiftPhase(ph)) && DriverAt(ts, mode, d0, ShiftPhase(ph)) == DriverAt(ts, mode, d0, ph))
      && (action > 0 ==> Needs(ShiftPhase(ph)) <= |ts| && Shifted(ShiftPhase(ph)) == n + 1)
      && (action > 0 ==> StackOf(ts, ShiftPhase(ph)) == StackOf(ts, ph) + [Entry(action, n + 1, EndValue(ts, n))])
      && (action == 0 ==> Verdict(ts, mode, d0) == (1, DriverAt(ts, mode, d0, ph)) && !Complete(ts, mode))
      && (action < 0 ==> ph.Gather? && Ended(ts, mode, ph.n) && -action == RuleOf(ts, ph))
  {
    Tops(ts, ph);
    var kind := Kind(ts, Shifted(ph));
    ActionTable(TopOf(ts, ph), kind);
    if Unexpected(ph, kind) {
      Stuck(ts, mode, d0, ph);
    }
    hide Verdict, Complete, LRActions, IsDefaultedState;
  }

  /** A symbol that no sentence has in this phase. */
  predicate Unexpected(ph: Phase, kind: int) {
    match ph
    case Start => kind != RIFF
    case Named => kind != LIST
    case Gather(_) => kind == YYERROR
    case _ => kind != YYEOF
  }

  lemma Stuck(ts: seq<Lexeme>, mode: Mode, d0: DriverState, ph: Phase)
    requires Inv(ts, mode, ph) && AwaitsToken(ph) && Unexpected(ph, Kind(ts, Needs(ph)))
    ensures Verdict(ts, mode, d0) == (1, DriverAt(ts, mode, d0, ph)) && !Complete(ts, mode)
  {
    if ph.Gather? || ph.Whole? {
      VerdictAt(ts, mode, d0, ph.n);
      BodyLengthIs(ts, 2, ph.n);
    }
  }

  lemma FinalVerdict(ts: seq<Lexeme>, mode: Mode, d0: DriverState, ph: Phase)
    requires Inv(ts, mode, ph) && ph.Final?
    ensures Verdict(ts, mode, d0) == (0, DriverAt(ts, mode, d0, ph))
  {
    VerdictAt(ts, mode, d0, ph.n);
  }

  /** Steps still to go. */
  function Rank(ts: seq<Lexeme>, ph: Phase): int {
    match ph
    case Start => 4 * |ts| + 20
    case Opened => 4 * |ts| + 19
    case Named => 4 * |ts| + 18
    case Listed => 4 * |ts| + 17
    case Gather(n) => 4 * |ts| + 10 - 2 * n
    case Taking(n) => 4 * |ts| + 9 - 2 * n
    case Fold(_, k) => k + 2
    case Whole(_) => 1
    case Final(_) => 0
  }

  lemma RankNext(ts: seq<Lexeme>, ph: Phase)
    requires Needs(ph) <= |ts| && (ph.Fold? ==> ph.k <= ph.n)
    ensures Rank(ts, ph) >= 0
    ensures AwaitsToken(ph) ==> Rank(ts, ShiftPhase(ph)) < Rank(ts, ph)
    ensures !ph.Start? && !ph.Named? && !ph.Whole? && !ph.Final? ==> Rank(ts, NextPhase(ph)) < Rank(ts, ph)
  {}

  /** The run is in phase `ph`, after `posn` tokens. */
  ghost predicate InPhase(ts: seq<Lexeme>, d0: DriverState, ph: Phase, posn: int, stack: GLRStack, driver: Driver,
                          look: Lookahead)
    reads stack, stack.items, driver, look
  {
    && stack.Valid() && stack.spaceLeft >= YYHEADROOM
    && Inv(ts, driver.ModeOf(), ph) && stack.entries == StackOf(ts, ph)
    && driver.State() == DriverAt(ts, driver.ModeOf(), d0, ph)
    && posn == Shifted(ph) && look.At(ts, posn, driver)
    && (ph.Taking? ==> driver.offset == ts[ph.n + 2].offset && driver.frameOk == ts[ph.n + 2].frameOk)
  }

  lemma InPhaseTop(ts: seq<Lexeme>, d0: DriverState, ph: Phase, posn: int, stack: GLRStack, driver: Driver,
                   look: Lookahead)
    requires InPhase(ts, d0, ph, posn, stack, driver, look)
    ensures stack.Valid() && 0 <= stack.top - stack.base < stack.items.Length
    ensures Needs(ph) <= |ts| && (ph.Fold? ==> ph.k <= ph.n)
    ensures var q := stack.items[stack.top - stack.base].entry.state;
      && q == TopOf(ts, ph) && 0 <= q < YYNSTATES && (q == YYFINAL <==> ph.Final?)
      && (AwaitsToken(ph) <==> !IsDefaultedState(q))
      && (!AwaitsToken(ph) && !ph.Final? ==> YYDEFACT[q] == RuleOf(ts, ph) > 0)
    ensures ph.Final? ==> Verdict(ts, driver.ModeOf(), d0) == (0, driver.State())
    ensures ph.Final? ==> Complete(ts, driver.ModeOf()) && Needs(ph) <= |ts| && 1 < stack.items.Length
    ensures ph.Final? ==> stack.items[1].entry.val == WholeValue(ts)
  {
    Tops(ts, ph);
    if ph.Final? {
      BodyLengthIs(ts, 2, ph.n);
      FinalVerdict(ts, driver.ModeOf(), d0, ph);
    }
  }

  datatype Move = ShiftMove | ErrorMove | ReduceMove(rule: int)

  /** A state that needs the next token: shift it or find what to do instead. */
  method TokenStep(ts: seq<Lexeme>, state: int, stack: GLRStack, driver: Driver, look: Lookahead, posn: int,
                   ghost d0: DriverState, ghost ph: Phase) returns (move: Move)
    requires InPhase(ts, d0, ph, posn, stack, driver, look) && AwaitsToken(ph) && state == TopOf(ts, ph)
    modifies stack, stack.items, look, driver`offset, driver`frameOk
    ensures stack.items == old(stack.items) || fresh(stack.items)
    ensures driver.ModeOf() == old(driver.ModeOf()) && stack.Valid()
    ensures move.ShiftMove? ==> InPhase(ts, d0, ShiftPhase(ph), posn + 1, stack, driver, look)
    ensures move.ErrorMove? ==>
      Verdict(ts, driver.ModeOf(), d0) == (1, driver.State()) && !Complete(ts, driver.ModeOf())
    ensures move.ReduceMove? ==> InPhase(ts, d0, ph, posn, stack, driver, look)
    ensures move.ReduceMove? ==> ph.Gather? && Ended(ts, driver.ModeOf(), ph.n) && move.rule == RuleOf(ts, ph)
  {
    hide StackOf, RuleOf, DriverAt, Verdict, GLRStack.Valid, Running, IsBody, Inv, Ended, Kind, IsDefaultedState, TopOf;
    ghost var mode := driver.ModeOf();
    TokenPhase(ts, mode, d0, ph);
    var token := look.GetToken(ts, driver, posn);
    var (action, conflict) := LRActions(state, token);
    NoConflicts(state, token);
    if conflict != 0 {
      assert false;
    }
    hide LRActions;
    if action > 0 {
      look.yychar := AVI_EMPTY;
      var _ := stack.Shift(action, posn + 1, look.yylval);
      Heights(ts, mode, ShiftPhase(ph));
      move := ShiftMove;
    } else if action == 0 {
      move := ErrorMove;
    } else {
      move := ReduceMove(-action);
    }
  }

  /** ReduceStep seen from the whole state of the run. */
  method ReduceMoveStep(ts: seq<Lexeme>, rule: int, stack: GLRStack, driver: Driver, look: Lookahead, posn: int,
                        ghost d0: DriverState, ghost ph: Phase) returns (tag: Tag)
    requires InPhase(ts, d0, ph, posn, stack, driver, look)
    requires !ph.Start? && !ph.Named? && !ph.Whole? && !ph.Final?
    requires ph.Gather? ==> Ended(ts, driver.ModeOf(), ph.n)
    requires Needs(ph) <= |ts| && (ph.Fold? ==> ph.k <= ph.n) && rule == RuleOf(ts, ph)
    modifies stack, stack.items, driver`chunks, driver`inFrames, driver`finished, driver`calls
    ensures stack.items == old(stack.items) || fresh(stack.items)
    ensures driver.ModeOf() == old(driver.ModeOf()) && stack.Valid()
    ensures tag == YyOk ==> InPhase(ts, d0, NextPhase(ph), posn, stack, driver, look)
    ensures tag != YyOk ==>
      Verdict(ts, driver.ModeOf(), d0) == (ResultOf(tag), driver.State()) && !Complete(ts, driver.ModeOf())
  {
    hide StackOf, RuleOf, DriverAt, Verdict, GLRStack.Valid, Running, IsBody, Inv, Ended, Kind, IsDefaultedState, TopOf;
    tag := ReduceStep(ts, rule, stack, driver, d0, ph);
  }

  datatype Outcome = Going(posn: int) | Done(result: int, whole: bool, root: Value)

  /** One turn of the deterministic loop. */
  method Turn(ts: seq<Lexeme>, stack: GLRStack, driver: Driver, look: Lookahead, posn: int, ghost d0: DriverState,
              ghost ph: Phase)
    returns (o: Outcome, ghost next: Phase)
    requires InPhase(ts, d0, ph, posn, stack, driver, look)
    modifies stack, stack.items, look, driver`chunks, driver`inFrames, driver`finished, driver`calls, driver`offset
    modifies driver`frameOk
    ensures stack.items == old(stack.items) || fresh(stack.items)
    ensures driver.ModeOf() == old(driver.ModeOf()) && stack.Valid()
    ensures o.Going? ==> InPhase(ts, d0, next, o.posn, stack, driver, look) && 0 <= Rank(ts, next) < Rank(ts, ph)
    ensures o.Done? ==> Verdict(ts, driver.ModeOf(), d0) == (o.result, driver.State())
    ensures o.Done? ==> (o.whole <==> Complete(ts, driver.ModeOf()))
    ensures o.Done? && o.whole ==> o.result == 0 && o.root == WholeValue(ts)
  {
    hide InPhase, StackOf, RuleOf, DriverAt, Verdict, GLRStack.Valid, Inv, Ended, Kind, LRActions, TopOf, Complete;
    InPhaseTop(ts, d0, ph, posn, stack, driver, look);
    RankNext(ts, ph);
    next := ph;
    var state := stack.items[stack.top - stack.base].entry.state;
    if state == YYFINAL {
      return Done(0, true, stack.items[1].entry.val), ph;
    }
    var rule := 0;
    if IsDefaultedState(state) {
      rule := YYDEFACT[state];
    } else {
      var move := TokenStep(ts, state, stack, driver, look, posn, d0, ph);
      if move.ShiftMove? {
        InPhaseTop(ts, d0, ShiftPhase(ph), posn + 1, stack, driver, look);
        RankNext(ts, ShiftPhase(ph));
        return Going(posn + 1), ShiftPhase(ph);
      }
      if move.ErrorMove? {
        var _ := stack.Recover();
        return Done(1, false, VAL_DEFAULT), ph;
      }
      rule := move.rule;
    }
    var tag := ReduceMoveStep(ts, rule, stack, driver, look, posn, d0, ph);
    if tag != YyOk {
      return Done(ResultOf(tag), false, VAL_DEFAULT), ph;
    }
    InPhaseTop(ts, d0, NextPhase(ph), posn, stack, driver, look);
    RankNext(ts, NextPhase(ph));
    return Going(posn), NextPhase(ph);
  }

  /** yyparse: the result and, if the whole input was consumed, its value. */
  method Parse(ts: seq<Lexeme>, driver: Driver, address: int) returns (result: int, whole: bool, root: Value)
    requires address > 0
    modifies driver`chunks, driver`inFrames, driver`finished, driver`calls, driver`offset, driver`frameOk
    ensures (result, driver.State()) == Verdict(ts, driver.ModeOf(), old(driver.State()))
    ensures driver.ModeOf() == old(driver.ModeOf())
    ensures whole <==> Complete(ts, driver.ModeOf())
    ensures whole ==> result == 0 && root == WholeValue(ts) && root.meta == ts[0].meta
    ensures whole ==> |ts| >= 2 && root.size == (20 + Total(ts[2..BodyLength(ts, 2) + 2])) % 0x1_0000_0000
    ensures whole ==>
      var size := 20 + Total(ts[2..BodyLength(ts, 2) + 2]); size < 0x1_0000_0000 ==> root.size == size
  {
    var look := new Lookahead();
    var stack := new GLRStack(address);
    ghost var d0, mode := driver.State(), driver.ModeOf();
    ghost var ph := Start;
    var _ := stack.Shift(0, 0, look.yylval);
    assert stack.entries == StackOf(ts, ph);
    assert InPhase(ts, d0, ph, 0, stack, driver, look);
    hide InPhase, Verdict, GLRStack.Valid, Complete, WholeValue, Rank;
    var o := Going(0);
    while o.Going?
      invariant fresh(stack) && fresh(stack.items) && fresh(look) && driver.ModeOf() == mode && stack.Valid()
      invariant o.Going? ==> InPhase(ts, d0, ph, o.posn, stack, driver, look)
      invariant o.Done? ==> Verdict(ts, mode, d0) == (o.result, driver.State())
      invariant o.Done? ==> (o.whole <==> Complete(ts, mode))
      invariant o.Done? && o.whole ==> o.result == 0 && o.root == WholeValue(ts)
      decreases o.Going?, Rank(ts, ph)
    {
      o, ph := Turn(ts, stack, driver, look, o.posn, d0, ph);
    }
    stack.Cleanup();
    result, whole, root := o.result, o.whole, o.root;
    if whole {
      WholeSize(ts);
    }
  }
}
