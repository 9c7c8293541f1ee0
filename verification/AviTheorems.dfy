/** What a parse means: the language that is accepted, the synthesized size and
    what the client is told. */
module AviTheorems {
  import opened Wrappers
  import opened AviTables
  import opened AviStack
  import opened AviDriver
  import opened AviParser

  // ---- The grammar ----

  /** chunks: CHUNK chunks | LIST chunks | (empty) */
  datatype Chunks = ChunkThen(x: Lexeme, rest: Chunks) | ListThen(x: Lexeme, rest: Chunks) | Empty

  /** riff_header: RIFF LIST chunks */
  datatype File = File(riff: Lexeme, list: Lexeme, chunks: Chunks)

  function Yield(c: Chunks): seq<Lexeme> {
    match c
    case ChunkThen(x, r) => [x] + Yield(r)
    case ListThen(x, r) => [x] + Yield(r)
    case Empty => []
  }

  ghost predicate WellFormed(c: Chunks) {
    match c
    case ChunkThen(x, r) => x.code == 260 && WellFormed(r)
    case ListThen(x, r) => x.code == 259 && WellFormed(r)
    case Empty => true
  }

  /** The scanner reports the end, or there is nothing more. */
  ghost predicate EndAt(ts: seq<Lexeme>, i: nat) {
    i >= |ts| || ts[i].code <= 0
  }

  /** `ts` starts with a sentence derived by the tree `t`, followed by the end. */
  ghost predicate Derives(t: File, ts: seq<Lexeme>) {
    && t.riff.code == 258 && t.list.code == 259 && WellFormed(t.chunks)
    && var s := [t.riff, t.list] + Yield(t.chunks);
      s <= ts && EndAt(ts, |s|)
  }

  /** The tree of a run of body tokens. */
  function Tree(xs: seq<Lexeme>): Chunks {
    if xs == [] then Empty
    else if xs[0].code == 260 then ChunkThen(xs[0], Tree(xs[1..]))
    else ListThen(xs[0], Tree(xs[1..]))
  }

  lemma {:induction false} TreeYield(xs: seq<Lexeme>)
    requires forall i :: 0 <= i < |xs| ==> xs[i].code == 260 || xs[i].code == 259
    ensures WellFormed(Tree(xs)) && Yield(Tree(xs)) == xs
  {
    if xs != [] {
      TreeYield(xs[1..]);
    }
  }

  lemma {:induction false} YieldKinds(c: Chunks, i: nat)
    requires WellFormed(c) && i < |Yield(c)|
    ensures Yield(c)[i].code == 260 || Yield(c)[i].code == 259
  {
    if i > 0 {
      YieldKinds(c.rest, i - 1);
    }
  }

  /** The tokens decide the derivation. */
  lemma {:induction false} Unambiguous(c: Chunks, d: Chunks)
    requires WellFormed(c) && WellFormed(d) && Yield(c) == Yield(d)
    ensures c == d
  {
    if c != Empty && d != Empty {
      assert Yield(c)[0] == Yield(d)[0] && Yield(c.rest) == Yield(c)[1..] == Yield(d)[1..] == Yield(d.rest);
      Unambiguous(c.rest, d.rest);
    } else {
      assert |Yield(c)| == |Yield(d)|;
    }
  }

  // ---- Which result a parse has ----

  /** The first of the next `n` tokens from `i` on whose action ends the parse. */
  function FirstStop(ts: seq<Lexeme>, mode: Mode, i: nat, n: nat): (s: nat)
    requires i + n <= |ts|
    ensures s <= n
    ensures forall j :: i <= j < i + s ==> !Stops(mode, ts[j])
    ensures s < n ==> Stops(mode, ts[i + s])
    decreases n
  {
    if n == 0 || Stops(mode, ts[i]) then 0 else 1 + FirstStop(ts, mode, i + 1, n - 1)
  }

  /** The number of body tokens whose actions are performed. */
  function Reached(ts: seq<Lexeme>, mode: Mode): (m: nat)
    requires HeaderOk(ts)
    ensures m + 2 <= |ts|
  {
    var n := BodyLength(ts, 2);
    var s := FirstStop(ts, mode, 2, n);
    if s < n && s < LIMIT then s + 1 else if n >= LIMIT then LIMIT else n
  }

  function ExpectedResult(ts: seq<Lexeme>, mode: Mode): int {
    if !HeaderOk(ts) then 1
    else
      var n := BodyLength(ts, 2);
      var s := FirstStop(ts, mode, 2, n);
      if s < n && s < LIMIT then
        (if IsFrame(ts[s + 2].meta) && !mode.headerOnly && !ts[s + 2].frameOk then 1 else 0)
      else if n >= LIMIT then 2
      else if Kind(ts, n + 2) == YYEOF then 0
      else 1
  }

  /** The result and the final driver of every parse in closed form. */
  lemma Results(ts: seq<Lexeme>, mode: Mode, d: DriverState)
    ensures Verdict(ts, mode, d).0 == ExpectedResult(ts, mode)
    ensures HeaderOk(ts) ==> Verdict(ts, mode, d).1 == After(ts, mode, d, Reached(ts, mode))
  {
    if HeaderOk(ts) {
      var n := BodyLength(ts, 2);
      var s := FirstStop(ts, mode, 2, n);
      var m := if s < LIMIT then s else LIMIT - 1;
      VerdictAt(ts, mode, d, m);
      hide Verdict, BodyLength, FirstStop, HeaderOk, Stops, Taken, After;
      LastStep(ts, mode, d, m);
    }
  }

  /** The end of a parse that got through `m` tokens of the body. */
  lemma LastStep(ts: seq<Lexeme>, mode: Mode, d: DriverState, m: nat)
    requires Running(ts, mode, m)
    requires IsBody(ts, m + 2) ==> Stops(mode, ts[m + 2]) || m + 1 == LIMIT
    ensures var r := BodyVerdict(ts, mode, After(ts, mode, d, m), m);
      if !IsBody(ts, m + 2) then r == (if Kind(ts, m + 2) == YYEOF then 0 else 1, After(ts, mode, d, m))
      else
        && r.1 == After(ts, mode, d, m + 1)
        && r.0 == if !Stops(mode, ts[m + 2]) then 2
                  else if IsFrame(ts[m + 2].meta) && !mode.headerOnly && !ts[m + 2].frameOk then 1 else 0
  {
    if IsBody(ts, m + 2) {
      TakenStops(mode, After(ts, mode, d, m), ts[m + 2]);
    }
  }

  // ---- The same in token codes, names and offsets ----

  /** A chunk whose name on disk is two digits and two letters. */
  predicate FrameChunk(x: Lexeme) {
    var id := x.meta.identifier;
    var a, b, c, d := id / 0x100_0000, id / 0x1_0000 % 0x100, id / 0x100 % 0x100, id % 0x100;
    && x.code == 260
    && 0x30 <= a <= 0x39 && 0x30 <= b <= 0x39
    && (0x41 <= c <= 0x5A || 0x61 <= c <= 0x7A) && (0x41 <= d <= 0x5A || 0x61 <= d <= 0x7A)
  }

  /** A frame that the client does not take. */
  ghost predicate Refused(mode: Mode, x: Lexeme) {
    FrameChunk(x) && !mode.headerOnly && !x.frameOk
  }

  /** A chunk that reaches the end of the file, if its size is known. */
  ghost predicate AtFileEnd(mode: Mode, x: Lexeme) {
    x.code == 260 && mode.fileSize != 0 && x.offset >= mode.fileSize
  }

  ghost predicate EndsParse(mode: Mode, x: Lexeme) {
    (FrameChunk(x) && mode.headerOnly) || Refused(mode, x) || AtFileEnd(mode, x)
  }

  lemma PlainTokens(mode: Mode, x: Lexeme)
    ensures Token(x.code) == CHUNK && IsFrame(x.meta) <==> FrameChunk(x)
    ensures Stops(mode, x) <==> EndsParse(mode, x)
    ensures Token(x.code) == CHUNK <==> x.code == 260
  {
    hide IsFrame, Token, FrameChunk;
    TokenCodes(x.code);
    PlainFrame(x);
  }

  lemma PlainFrame(x: Lexeme)
    ensures FrameChunk(x) <==> x.code == 260 && IsFrame(x.meta)
  {
    hide IsFrame;
    var a, b, c, d := OnDisk(x.meta.identifier);
    FrameOnDisk(a, b, c, d, x.meta);
  }

  /** The four characters of a name. */
  lemma OnDisk(id: Uint32) returns (a: Byte, b: Byte, c: Byte, d: Byte)
    ensures a == id / 0x100_0000 && b == id / 0x1_0000 % 0x100 && c == id / 0x100 % 0x100 && d == id % 0x100
    ensures id == a * 0x100_0000 + b * 0x1_0000 + c * 0x100 + d
  {
    a, b, c, d := id / 0x100_0000, id / 0x1_0000 % 0x100, id / 0x100 % 0x100, id % 0x100;
    assert id == (id / 0x100) * 0x100 + d && id / 0x100 == (id / 0x1_0000) * 0x100 + c;
    assert id / 0x1_0000 == a * 0x100 + b;
  }

  /** The header and `n` chunks and lists. */
  ghost predicate BodyCodes(ts: seq<Lexeme>, n: nat) {
    && n + 2 <= |ts| && ts[0].code == 258 && ts[1].code == 259
    && forall i :: 2 <= i < n + 2 ==> ts[i].code == 259 || ts[i].code == 260
  }

  /** Neither a chunk nor a list, or no token at all. */
  ghost predicate NoBodyAt(ts: seq<Lexeme>, i: nat) {
    i >= |ts| || (ts[i].code != 259 && ts[i].code != 260)
  }

  lemma BodyCodesLength(ts: seq<Lexeme>, n: nat)
    requires BodyCodes(ts, n)
    ensures HeaderOk(ts) && BodyLength(ts, 2) >= n && (NoBodyAt(ts, n + 2) ==> BodyLength(ts, 2) == n)
  {
    KindCodes(ts, 0);
    forall j | 2 <= j < n + 2
      ensures IsBody(ts, j)
    {
      KindCodes(ts, j);
    }
    KindCodes(ts, n + 2);
    BodyLengthIs(ts, 2, n);
  }

  /** The body as it is: the header, chunks and lists and what comes behind. */
  lemma LengthBodyCodes(ts: seq<Lexeme>)
    requires HeaderOk(ts)
    ensures BodyCodes(ts, BodyLength(ts, 2)) && NoBodyAt(ts, BodyLength(ts, 2) + 2)
  {
    var n := BodyLength(ts, 2);
    KindCodes(ts, 0);
    KindCodes(ts, n + 2);
    forall i | 2 <= i < n + 2
      ensures ts[i].code == 259 || ts[i].code == 260
    {
      assert IsBody(ts, i);
      KindCodes(ts, i);
    }
  }

  /** The first `s` of the next `n` tokens do not end the parse and the one behind
      them, if there is one, does. */
  ghost predicate StopsBehind(ts: seq<Lexeme>, mode: Mode, n: nat, s: nat)
    requires n + 2 <= |ts|
  {
    s <= n && (forall i :: 2 <= i < s + 2 ==> !EndsParse(mode, ts[i])) && (s < n ==> EndsParse(mode, ts[s + 2]))
  }

  lemma FirstStopIs(ts: seq<Lexeme>, mode: Mode, n: nat, s: nat)
    requires n + 2 <= |ts| && StopsBehind(ts, mode, n, s)
    ensures FirstStop(ts, mode, 2, n) == s
  {
    var f := FirstStop(ts, mode, 2, n);
    if s < f {
      PlainTokens(mode, ts[s + 2]);
    }
    if f < s {
      PlainTokens(mode, ts[f + 2]);
    }
  }

  /** The result and how far the parse gets, for `n` chunks and lists of which
      the action of the `s`-th is the first that ends the parse. */
  lemma PlainResult(ts: seq<Lexeme>, mode: Mode, d: DriverState, n: nat, s: nat)
    requires BodyCodes(ts, n) && NoBodyAt(ts, n + 2) && StopsBehind(ts, mode, n, s)
    ensures Verdict(ts, mode, d).0 ==
      if s < n && s < 99997 then (if Refused(mode, ts[s + 2]) then 1 else 0)
      else if n >= 99997 then 2
      else if EndAt(ts, n + 2) then 0
      else 1
    ensures HeaderOk(ts) && Reached(ts, mode) == if s < n && s < 99997 then s + 1 else if n >= 99997 then 99997 else n
    ensures Complete(ts, mode) <==> s == n && n < 99997 && EndAt(ts, n + 2)
  {
    BodyCodesLength(ts, n);
    FirstStopIs(ts, mode, n, s);
    KindCodes(ts, n + 2);
    Results(ts, mode, d);
    if s < n {
      PlainTokens(mode, ts[s + 2]);
    }
    CompleteStop(ts, mode, n, s);
    hide Verdict, BodyLength, HeaderOk, FirstStop, Stops, EndsParse, FrameChunk, IsFrame, BodyCodes, Complete, Kind,
      Token;
  }

  lemma CompleteStop(ts: seq<Lexeme>, mode: Mode, n: nat, s: nat)
    requires BodyCodes(ts, n) && NoBodyAt(ts, n + 2) && StopsBehind(ts, mode, n, s)
    ensures Complete(ts, mode) <==> s == n && n < 99997 && EndAt(ts, n + 2)
  {
    BodyCodesLength(ts, n);
    KindCodes(ts, n + 2);
    forall i | 2 <= i < n + 2
      ensures IsBody(ts, i) && (Stops(mode, ts[i]) <==> EndsParse(mode, ts[i]))
    {
      KindCodes(ts, i);
      PlainTokens(mode, ts[i]);
    }
    hide EndsParse, Stops, IsBody, BodyLength, Kind;
    if s < n {
      assert EndsParse(mode, ts[s + 2]);
    }
  }

  /** A token out of place is an error there: what came before is recorded. */
  lemma PlainError(ts: seq<Lexeme>, mode: Mode, d: DriverState)
    ensures |ts| == 0 || ts[0].code != 258 ==> Verdict(ts, mode, d) == (1, d)
    ensures |ts| > 0 && ts[0].code == 258 && (|ts| == 1 || ts[1].code != 259) ==>
      Verdict(ts, mode, d) == (1, d.(chunks := d.chunks + [ts[0].meta]))
  {
    KindCodes(ts, 0);
    KindCodes(ts, 1);
  }

  /** The parser accepts exactly the sentences of its grammar that fit on its
      stack, unless an action ends the parse before. */
  lemma AcceptsGrammar(ts: seq<Lexeme>, mode: Mode, d: DriverState)
    requires forall i :: 0 <= i < |ts| ==> !EndsParse(mode, ts[i])
    ensures Verdict(ts, mode, d).0 == 0 <==> exists t :: Derives(t, ts) && |Yield(t.chunks)| < 99997
    ensures Verdict(ts, mode, d).0 == 0 <==> exists n: nat :: n < 99997 && BodyCodes(ts, n) && EndAt(ts, n + 2)
    ensures Verdict(ts, mode, d).0 == 2 <==> BodyCodes(ts, 99997)
    ensures Verdict(ts, mode, d).0 in {0, 1, 2}
  {
    hide *;
    forall i | 0 <= i < |ts|
      ensures !Stops(mode, ts[i])
    {
      PlainTokens(mode, ts[i]);
    }
    AcceptsTrees(ts, mode, d);
    AcceptsCodes(ts, mode, d);
  }

  lemma AcceptsCodes(ts: seq<Lexeme>, mode: Mode, d: DriverState)
    requires forall i :: 0 <= i < |ts| ==> !Stops(mode, ts[i])
    ensures Verdict(ts, mode, d).0 == 0 <==> exists n: nat :: n < 99997 && BodyCodes(ts, n) && EndAt(ts, n + 2)
    ensures Verdict(ts, mode, d).0 == 2 <==> BodyCodes(ts, 99997)
  {
    Results(ts, mode, d);
    Unstopped(ts, mode);
    hide Verdict, Stops, ExpectedResult, BodyLength, HeaderOk, Kind, FirstStop, Reached, After, BodyCodes;
    if HeaderOk(ts) {
      LengthBodyCodes(ts);
      KindCodes(ts, BodyLength(ts, 2) + 2);
      if BodyLength(ts, 2) >= 99997 {
        CodesPrefix(ts, BodyLength(ts, 2), 99997);
      }
    }
    if BodyCodes(ts, 99997) {
      BodyCodesLength(ts, 99997);
    }
    if n: nat :| n < 99997 && BodyCodes(ts, n) && EndAt(ts, n + 2) {
      BodyCodesLength(ts, n);
      KindCodes(ts, n + 2);
    }
  }

  lemma CodesPrefix(ts: seq<Lexeme>, n: nat, m: nat)
    requires BodyCodes(ts, n) && m <= n
    ensures BodyCodes(ts, m)
  {}

  lemma AcceptsTrees(ts: seq<Lexeme>, mode: Mode, d: DriverState)
    requires forall i :: 0 <= i < |ts| ==> !Stops(mode, ts[i])
    ensures Verdict(ts, mode, d).0 == 0 <==> exists t :: Derives(t, ts) && |Yield(t.chunks)| < 99997
    ensures Verdict(ts, mode, d).0 in {0, 1, 2}
  {
    hide Verdict, Derives, Stops, ExpectedResult, Yield, BodyLength, HeaderOk, Kind, FirstStop, Reached, After;
    Results(ts, mode, d);
    Unstopped(ts, mode);
    if Verdict(ts, mode, d).0 == 0 {
      assert HeaderOk(ts);
      TreeOf(ts);
    }
    if t :| Derives(t, ts) && |Yield(t.chunks)| < LIMIT {
      DerivedBody(t, ts);
    }
  }

  lemma Unstopped(ts: seq<Lexeme>, mode: Mode)
    requires forall i :: 0 <= i < |ts| ==> !Stops(mode, ts[i])
    ensures ExpectedResult(ts, mode) ==
      if !HeaderOk(ts) then 1
      else if BodyLength(ts, 2) >= LIMIT then 2
      else if Kind(ts, BodyLength(ts, 2) + 2) == YYEOF then 0
      else 1
  {
    if HeaderOk(ts) {
      var s := FirstStop(ts, mode, 2, BodyLength(ts, 2));
    }
  }

  /** The derivation tree that the automaton follows. */
  lemma TreeOf(ts: seq<Lexeme>)
    requires HeaderOk(ts)
    requires Kind(ts, BodyLength(ts, 2) + 2) == YYEOF
    ensures var n := BodyLength(ts, 2);
      var t := File(ts[0], ts[1], Tree(ts[2..n + 2]));
      Derives(t, ts) && |Yield(t.chunks)| == n
  {
    var n := BodyLength(ts, 2);
    var xs := ts[2..n + 2];
    forall i | 0 <= i < |xs|
      ensures xs[i].code == 260 || xs[i].code == 259
    {
      assert IsBody(ts, i + 2);
      KindCodes(ts, i + 2);
    }
    KindCodes(ts, 0);
    KindCodes(ts, n + 2);
    TreeYield(xs);
    assert [ts[0], ts[1]] + xs == ts[..n + 2];
  }

  lemma DerivedBody(t: File, ts: seq<Lexeme>)
    requires Derives(t, ts)
    ensures HeaderOk(ts) && BodyLength(ts, 2) == |Yield(t.chunks)| && Kind(ts, BodyLength(ts, 2) + 2) == YYEOF
  {
    var y := Yield(t.chunks);
    var s := [t.riff, t.list] + y;
    assert ts[0] == s[0] && ts[1] == s[1];
    forall j | 2 <= j < 2 + |y|
      ensures IsBody(ts, j)
    {
      assert ts[j] == s[j] == y[j - 2];
      YieldKinds(t.chunks, j - 2);
      KindCodes(ts, j);
    }
    KindCodes(ts, 0);
    KindCodes(ts, |s|);
    BodyLengthIs(ts, 2, |y|);
  }

  // ---- What the client is told ----

  function Metas(xs: seq<Lexeme>): seq<ChunkMeta> {
    if xs == [] then [] else Metas(xs[..|xs| - 1]) + [xs[|xs| - 1].meta]
  }

  lemma {:induction false} MetasAt(xs: seq<Lexeme>)
    ensures |Metas(xs)| == |xs| && forall i :: 0 <= i < |xs| ==> Metas(xs)[i] == xs[i].meta
  {
    if xs != [] {
      MetasAt(xs[..|xs| - 1]);
    }
  }

  /** The first frame among `xs`, or their number. */
  function FirstFrame(xs: seq<Lexeme>): (f: nat)
    ensures f <= |xs| && (forall i :: 0 <= i < f ==> !FrameChunk(xs[i])) && (f < |xs| ==> FrameChunk(xs[f]))
  {
    if xs == [] || FrameChunk(xs[0]) then 0 else 1 + FirstFrame(xs[1..])
  }

  function CallFor(x: Lexeme): Call {
    if FrameChunk(x) then Frame(x.meta) else Between(x.meta)
  }

  /** The calls for `xs`, from the first frame on one for each token. */
  function History(xs: seq<Lexeme>): seq<Call> {
    if xs == [] then []
    else
      var before, x := xs[..|xs| - 1], xs[|xs| - 1];
      History(before) + if FrameChunk(x) || FirstFrame(before) < |before| then [CallFor(x)] else []
  }

  lemma {:induction false} HistoryAt(xs: seq<Lexeme>)
    ensures |History(xs)| == |xs| - FirstFrame(xs)
    ensures forall i :: 0 <= i < |History(xs)| ==> History(xs)[i] == CallFor(xs[FirstFrame(xs) + i])
  {
    hide *;
    if xs == [] {
      NothingYet();
    } else {
      var before, x := xs[..|xs| - 1], xs[|xs| - 1];
      HistoryAt(before);
      HistoryAtSnoc(before, x);
      assert xs == before + [x];
    }
  }

  lemma HistoryAtSnoc(xs: seq<Lexeme>, x: Lexeme)
    requires |History(xs)| == |xs| - FirstFrame(xs)
    requires forall i :: 0 <= i < |History(xs)| ==> History(xs)[i] == CallFor(xs[FirstFrame(xs) + i])
    ensures var ys := xs + [x];
      && |History(ys)| == |ys| - FirstFrame(ys)
      && forall i :: 0 <= i < |History(ys)| ==> History(ys)[i] == CallFor(ys[FirstFrame(ys) + i])
  {
    hide *;
    var f, ys := FirstFrame(xs), xs + [x];
    FirstFrameSnoc(xs, x);
    HistorySnoc(xs, x);
    if f < |xs| || FrameChunk(x) {
      CallsSnoc(History(xs), xs, x, f);
      assert FirstFrame(ys) == f && History(ys) == History(xs) + [CallFor(x)];
    } else {
      assert FirstFrame(ys) == |ys| && History(ys) == [];
    }
  }

  /** One call more for one token more. */
  lemma CallsSnoc(h: seq<Call>, xs: seq<Lexeme>, x: Lexeme, f: nat)
    requires f <= |xs| && |h| == |xs| - f && forall i :: 0 <= i < |h| ==> h[i] == CallFor(xs[f + i])
    ensures forall i :: 0 <= i < |h| + 1 ==> (h + [CallFor(x)])[i] == CallFor((xs + [x])[f + i])
  {}

  lemma HistorySnoc(xs: seq<Lexeme>, x: Lexeme)
    ensures History(xs + [x]) == History(xs) + if FrameChunk(x) || FirstFrame(xs) < |xs| then [CallFor(x)] else []
  {
    assert (xs + [x])[..|xs|] == xs;
  }

  lemma {:induction false} FirstFrameSnoc(xs: seq<Lexeme>, x: Lexeme)
    ensures FirstFrame(xs + [x]) ==
      if FirstFrame(xs) < |xs| then FirstFrame(xs) else if FrameChunk(x) then |xs| else |xs| + 1
  {
    if xs != [] && !FrameChunk(xs[0]) {
      assert (xs + [x])[1..] == xs[1..] + [x];
      FirstFrameSnoc(xs[1..], x);
    }
  }

  lemma ReportedStep(mode: Mode, a: DriverState, xs: seq<Lexeme>, x: Lexeme)
    requires !mode.headerOnly && (Token(x.code) == CHUNK || Token(x.code) == LIST)
    requires a.inFrames <==> FirstFrame(xs) < |xs|
    ensures var b := Taken(mode, a, x).0;
      && b.chunks == a.chunks + [x.meta]
      && b.calls == a.calls + (if FrameChunk(x) || FirstFrame(xs) < |xs| then [CallFor(x)] else [])
      && (b.inFrames <==> FrameChunk(x) || FirstFrame(xs) < |xs|)
  {
    PlainTokens(mode, x);
    hide FrameChunk, IsFrame;
  }

  /** After any prefix of a run of a fresh driver: all tokens are recorded in
      order and every token from the first frame on was reported, once. */
  lemma {:induction false} ReportedAll(ts: seq<Lexeme>, mode: Mode, d: DriverState, n: nat)
    requires !mode.headerOnly && !d.inFrames && n + 2 <= |ts|
    requires forall i :: 2 <= i < n + 2 ==> IsBody(ts, i)
    ensures var a, xs := After(ts, mode, d, n), ts[2..n + 2];
      && a.chunks == d.chunks + Metas(ts[..n + 2])
      && a.calls == d.calls + History(xs)
      && (a.inFrames <==> FirstFrame(xs) < |xs|)
  {
    hide Metas, History, FirstFrame, FrameChunk;
    if n == 0 {
      HeaderMetas(ts);
      assert ts[2..2] == [];
      NothingYet();
    } else {
      var xs, x := ts[2..n + 1], ts[n + 1];
      ReportedAll(ts, mode, d, n - 1);
      assert IsBody(ts, n + 1);
      hide Taken, IsBody;
      ReportedStep(mode, After(ts, mode, d, n - 1), xs, x);
      Snoc(ts, n);
      FirstFrameSnoc(xs, x);
    }
  }

  lemma NothingYet()
    ensures History([]) == [] && FirstFrame([]) == 0
  {}

  lemma HeaderMetas(ts: seq<Lexeme>)
    requires |ts| >= 2
    ensures Metas(ts[..2]) == [ts[0].meta, ts[1].meta]
  {
    MetasAt(ts[..2]);
  }

  lemma Snoc(ts: seq<Lexeme>, n: nat)
    requires 0 < n && n + 2 <= |ts|
    ensures var xs, x := ts[2..n + 1], ts[n + 1];
      && ts[2..n + 2] == xs + [x]
      && Metas(ts[..n + 2]) == Metas(ts[..n + 1]) + [x.meta]
      && History(xs + [x]) == History(xs) + (if FrameChunk(x) || FirstFrame(xs) < |xs| then [CallFor(x)] else [])
  {
    var xs, x := ts[2..n + 1], ts[n + 1];
    assert ts[..n + 2][..n + 1] == ts[..n + 1];
    assert (xs + [x])[..n - 1] == xs;
  }

  /** In header-only mode nothing is reported before the first frame. */
  lemma {:induction false} SilentHeader(ts: seq<Lexeme>, mode: Mode, d: DriverState, n: nat)
    requires mode.headerOnly && !d.inFrames && Running(ts, mode, n)
    ensures var a := After(ts, mode, d, n);
      a.chunks == d.chunks + Metas(ts[..n + 2]) && a.calls == d.calls && !a.inFrames
  {
    if n == 0 {
      HeaderMetas(ts);
    } else {
      SilentHeader(ts, mode, d, n - 1);
      assert ts[..n + 2][..n + 1] == ts[..n + 1];
      assert IsBody(ts, n + 1) && !Stops(mode, ts[n + 1]);
    }
  }

  /** Header-only parse of a fresh driver: the header callback is called at most
      once, with exactly the tokens before the first frame, and no other is. */
  lemma HeaderOnce(ts: seq<Lexeme>, mode: Mode, d: DriverState)
    requires mode.headerOnly && Fresh(d)
    ensures var r := Verdict(ts, mode, d).1;
      if MeetsFrame(ts, mode) then
        r.calls == d.calls + [Header(r.chunks)] && r.chunks == Metas(ts[..Reached(ts, mode) + 1]) && r.finished &&
          r.inFrames
      else
        r.calls == d.calls && !r.inFrames && (HeaderOk(ts) ==> r.chunks == Metas(ts[..Reached(ts, mode) + 2]))
  {
    hide Verdict, Reached, After, Running, IsBody, HeaderOk, Metas, FrameChunk;
    Results(ts, mode, d);
    if HeaderOk(ts) {
      var m := Reached(ts, mode);
      ReachedBody(ts, mode);
      if m > 0 {
        SilentHeader(ts, mode, d, m - 1);
        HeaderLast(ts, mode, d, m);
      } else {
        SilentHeader(ts, mode, d, 0);
      }
    } else {
      NoHeader(ts, mode, d);
    }
  }

  lemma NoHeader(ts: seq<Lexeme>, mode: Mode, d: DriverState)
    requires !HeaderOk(ts)
    ensures var r := Verdict(ts, mode, d).1;
      r.calls == d.calls && r.inFrames == d.inFrames && r.finished == d.finished
  {}

  /** All but the last of the tokens that are reached do not end the parse. */
  lemma ReachedBody(ts: seq<Lexeme>, mode: Mode)
    requires HeaderOk(ts)
    ensures var m := Reached(ts, mode);
      if m > 0 then Running(ts, mode, m - 1) && IsBody(ts, m + 1) else Running(ts, mode, 0)
  {}

  /** The last token that a header-only parse reaches. */
  lemma HeaderLast(ts: seq<Lexeme>, mode: Mode, d: DriverState, m: nat)
    requires mode.headerOnly && m > 0 && m + 2 <= |ts| && IsBody(ts, m + 1) && !After(ts, mode, d, m - 1).inFrames
    ensures Metas(ts[..m + 2]) == Metas(ts[..m + 1]) + [ts[m + 1].meta]
    ensures var a, r, x := After(ts, mode, d, m - 1), After(ts, mode, d, m), ts[m + 1];
      if FrameChunk(x) then
        r.calls == a.calls + [Header(a.chunks)] && r.chunks == a.chunks && r.finished && r.inFrames
      else r.calls == a.calls && r.chunks == a.chunks + [x.meta] && !r.inFrames
  {
    assert ts[..m + 2][..m + 1] == ts[..m + 1];
    PlainTokens(mode, ts[m + 1]);
    hide FrameChunk, IsFrame;
  }

  /** Before the token that ends the parse the driver is not finished. */
  lemma {:induction false} NotFinished(ts: seq<Lexeme>, mode: Mode, d: DriverState, n: nat)
    requires !d.finished && Running(ts, mode, n)
    ensures !After(ts, mode, d, n).finished
  {
    if n > 0 {
      NotFinished(ts, mode, d, n - 1);
      assert IsBody(ts, n + 1) && !Stops(mode, ts[n + 1]);
    }
  }

  /** When a driver that was just initialized is finished: the last token that
      was reached is a chunk at the end of the file, and no frame that was
      refused, or it is the frame that ends a header-only parse. */
  lemma FinishedAtEnd(ts: seq<Lexeme>, mode: Mode, d: DriverState)
    requires Fresh(d)
    ensures var finished := Verdict(ts, mode, d).1.finished;
      if !HeaderOk(ts) || Reached(ts, mode) == 0 then !finished
      else
        var x := ts[Reached(ts, mode) + 1];
        var atEnd := x.code == 260 && mode.fileSize != 0 && x.offset >= mode.fileSize;
        finished <==>
          if mode.headerOnly then FrameChunk(x) || atEnd else atEnd && (FrameChunk(x) ==> x.frameOk)
  {
    hide FrameChunk, IsFrame, Verdict, Reached, HeaderOk, Running;
    Results(ts, mode, d);
    if HeaderOk(ts) {
      var m := Reached(ts, mode);
      ReachedBody(ts, mode);
      if m > 0 {
        NotFinished(ts, mode, d, m - 1);
        PlainTokens(mode, ts[m + 1]);
      }
    } else {
      NoHeader(ts, mode, d);
    }
  }

  /** A driver as initialize leaves it. */
  predicate Fresh(d: DriverState) {
    d == DriverState([], false, false, d.calls)
  }

  /** The last token that is reached is a frame. */
  predicate MeetsFrame(ts: seq<Lexeme>, mode: Mode) {
    HeaderOk(ts) && Reached(ts, mode) > 0 && FrameChunk(ts[Reached(ts, mode) + 1])
  }

  /** Full parse of a fresh driver: everything that was reached is reported. */
  lemma FullReport(ts: seq<Lexeme>, mode: Mode, d: DriverState)
    requires !mode.headerOnly && Fresh(d) && HeaderOk(ts)
    ensures var r, m := Verdict(ts, mode, d).1, Reached(ts, mode);
      r.chunks == Metas(ts[..m + 2]) && r.calls == d.calls + History(ts[2..m + 2])
  {
    Results(ts, mode, d);
    ReportedAll(ts, mode, d, Reached(ts, mode));
  }

  /** initialize and parse, also for a driver that was used before: the client is
      told about this run and nothing that was left over from another one. */
  method InitializeAndParse(ts: seq<Lexeme>, driver: Driver, headerOnly: bool, address: int) returns (result: int)
    requires address > 0
    requires !driver.initialized ==> driver.chunks == [] && !driver.inFrames && !driver.finished
    modifies driver
    ensures driver.initialized && driver.ModeOf() == Mode(headerOnly, old(driver.fileSize))
    ensures result == ExpectedResult(ts, driver.ModeOf())
    ensures headerOnly ==>
      driver.calls == old(driver.calls) + if MeetsFrame(ts, driver.ModeOf()) then [Header(driver.chunks)] else []
    ensures headerOnly && MeetsFrame(ts, driver.ModeOf()) ==>
      driver.chunks == Metas(ts[..Reached(ts, driver.ModeOf()) + 1]) && driver.finished
    ensures headerOnly && !MeetsFrame(ts, driver.ModeOf()) && HeaderOk(ts) ==>
      driver.chunks == Metas(ts[..Reached(ts, driver.ModeOf()) + 2])
    ensures !headerOnly && HeaderOk(ts) ==>
      var m := Reached(ts, driver.ModeOf());
      driver.chunks == Metas(ts[..m + 2]) && driver.calls == old(driver.calls) + History(ts[2..m + 2])
    ensures
      if !HeaderOk(ts) || Reached(ts, driver.ModeOf()) == 0 then !driver.finished
      else
        var x := ts[Reached(ts, driver.ModeOf()) + 1];
        var atEnd := x.code == 260 && driver.fileSize != 0 && x.offset >= driver.fileSize;
        driver.finished <==>
          if headerOnly then FrameChunk(x) || atEnd else atEnd && (FrameChunk(x) ==> x.frameOk)
  {
    driver.Initialize(headerOnly);
    ghost var d, mode := driver.State(), driver.ModeOf();
    hide Verdict, MeetsFrame, Reached, ExpectedResult, Metas, History, HeaderOk, FrameChunk;
    var whole, root;
    result, whole, root := Parse(ts, driver, address);
    Results(ts, mode, d);
    FinishedAtEnd(ts, mode, d);
    if headerOnly {
      HeaderOnce(ts, mode, d);
    } else if HeaderOk(ts) {
      FullReport(ts, mode, d);
    }
  }
}
