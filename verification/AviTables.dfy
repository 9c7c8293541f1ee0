/** The LR tables of the AVI parser and the functions that read them. */
module AviTables {

  // Symbol kinds
  const YYEOF := 0
  const YYERROR := 1
  const YYUNDEF := 2
  const RIFF := 3
  const LIST := 4
  const CHUNK := 5
  const RIFF_HEADER := 7
  const CHUNKS := 10

  const YYFINAL := 4
  const YYLAST := 6
  const YYNTOKENS := 6
  const YYNSTATES := 14
  const YYNRULES := 9
  const YYPACT_NINF := -9

  const YYPACT: seq<int> := [1, -9, 5, 2, -9, -9, -4, -9, -9, -9, -4, -4, -9, -9]
  const YYDEFACT: seq<int> := [0, 2, 0, 0, 1, 3, 9, 7, 5, 4, 9, 9, 8, 6]
  const YYPGOTO: seq<int> := [-9, -9, -9, -9, -8, -9, -9]
  const YYDEFGOTO: seq<int> := [0, 2, 3, 6, 9, 11, 10]
  const YYTABLE: seq<int> := [7, 8, 12, 13, 1, 4, 5]
  const YYCHECK: seq<int> := [4, 5, 10, 11, 3, 0, 4]
  const YYR1: seq<int> := [0, 6, 8, 9, 7, 11, 10, 12, 10, 10]
  const YYR2: seq<int> := [0, 2, 0, 0, 5, 0, 3, 0, 3, 0]
  const YYCONFLP: seq<int> := [0, 0, 0, 0, 0, 0, 0]
  const YYCONFL: seq<int> := [0]

  /** YYTRANSLATE together with the range check around it. */
  function Translate(code: int): int {
    if code == 0 then YYEOF else if 256 <= code <= 260 then code - 255 else YYUNDEF
  }

  /** The symbol of a token code once yygetToken has seen it. */
  function Token(code: int): (token: int)
    ensures 0 <= token < YYNTOKENS
  {
    if code <= 0 then YYEOF else Translate(code)
  }

  /** The token codes of the scanner. */
  lemma TokenCodes(code: int)
    ensures Token(code) == YYEOF <==> code <= 0
    ensures Token(code) == YYERROR <==> code == 256
    ensures Token(code) == RIFF <==> code == 258
    ensures Token(code) == LIST <==> code == 259
    ensures Token(code) == CHUNK <==> code == 260
  {}

  predicate IsDefaultedState(state: int)
    requires 0 <= state < YYNSTATES
  {
    YYPACT[state] == YYPACT_NINF
  }

  /** yygetLRActions: the action and the first entry of the conflict list. */
  function LRActions(state: int, token: int): (int, int)
    requires 0 <= state < YYNSTATES && 0 <= token < YYNTOKENS
  {
    var index := YYPACT[state] + token;
    if token == YYERROR then (0, YYCONFL[0])
    else if IsDefaultedState(state) || index < 0 || YYLAST < index || YYCHECK[index] != token then
      (-YYDEFACT[state], YYCONFL[0])
    else (YYTABLE[index], YYCONFL[YYCONFLP[index]])
  }

  /** yyLRgotoState */
  function GotoState(state: int, sym: int): int
    requires 0 <= state < YYNSTATES && YYNTOKENS <= sym <= 12
  {
    var r := YYPGOTO[sym - YYNTOKENS] + state;
    if 0 <= r <= YYLAST && YYCHECK[r] == state then YYTABLE[r] else YYDEFGOTO[sym - YYNTOKENS]
  }

  /** The test of yyrecoverSyntaxError for a state that shifts the error token. */
  predicate ShiftsError(state: int)
    requires 0 <= state < YYNSTATES
  {
    && !IsDefaultedState(state)
    && var j := YYPACT[state] + YYERROR;
      0 <= j <= YYLAST && YYCHECK[j] == YYERROR && YYTABLE[j] > 0
  }

  /** The whole automaton in words: the two header tokens in order, then chunks
      and lists, whose end is reduced by rule 9 on any other symbol. */
  lemma ActionTable(state: int, token: int)
    requires 0 <= state < YYNSTATES && 0 <= token < YYNTOKENS && !IsDefaultedState(state)
    ensures state in {0, 2, 3, 6, 10, 11}
    ensures LRActions(state, token).0 ==
      if token == YYERROR then 0
      else if state == 0 then (if token == RIFF then 1 else 0)
      else if state == 2 then (if token == YYEOF then YYFINAL else 0)
      else if state == 3 then (if token == LIST then 5 else 0)
      else if token == LIST then 7
      else if token == CHUNK then 8
      else -9
  {
    assert state in {0, 2, 3, 6, 10, 11};
  }

  /** No conflicts: the parser never has a reason to split its stack. */
  lemma NoConflicts(state: int, token: int)
    requires 0 <= state < YYNSTATES && 0 <= token < YYNTOKENS
    ensures LRActions(state, token).1 == 0
  {
    var index := YYPACT[state] + token;
    if 0 <= index <= YYLAST {
      assert YYCONFLP[index] == 0;
    }
  }

  /** No state shifts the error token, so recovery pops the whole stack. */
  lemma NoRecovery(state: int)
    requires 0 <= state < YYNSTATES
    ensures !ShiftsError(state)
  {
    var j := YYPACT[state] + YYERROR;
    if 0 <= j <= YYLAST {
      assert YYCHECK[j] != YYERROR;
    }
  }

  /** States that reduce without looking at a token. */
  lemma DefaultTable(state: int)
    requires 0 <= state < YYNSTATES && IsDefaultedState(state) && state != YYFINAL
    ensures state in {1, 5, 7, 8, 9, 12, 13}
    ensures YYDEFACT[state] ==
      match state
      case 1 => 2 case 5 => 3 case 7 => 7 case 8 => 5 case 9 => 4 case 12 => 8 case _ => 6
  {
    assert state in {1, 5, 7, 8, 9, 12, 13};
  }

  lemma GotoTable(state: int)
    requires 0 <= state < YYNSTATES
    ensures GotoState(state, CHUNKS) == if state == 10 then 12 else if state == 11 then 13 else 9
    ensures GotoState(state, RIFF_HEADER) == 2
    ensures GotoState(state, 8) == 3 && GotoState(state, 9) == 6
    ensures GotoState(state, 11) == 11 && GotoState(state, 12) == 10
  {
    assert forall r :: 0 <= r <= YYLAST ==> (YYCHECK[r] == 10 <==> r == 2) && (YYCHECK[r] == 11 <==> r == 3);
  }
}
