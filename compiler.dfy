/**
 * The front end of mjs.cc as pure functions of the source text: one token
 * read with its numeric value (`getToken` and `stod`), the expression
 * evaluator driven by the text (`parseExpression`), the two statements that
 * compile to the byte stack (`parseVarStatement`, `parsePrintStatement`) and
 * the driver that compiles and runs one statement at a time (`eval`).
 */
module Compiler {
  import opened Bytes
  import opened Values
  import opened Lexer
  import opened Scopes
  import opened Evaluator
  import opened Machine

  /** How many values `new` can hand out: a reference must fit the eight bytes it is pushed as. */
  const MaxValues: nat := Pow256(PtrSize)

  /** `getToken` together with the `stod` it performs: the lexeme, or the exception `stod` raises on ".". */
  function NextToken(s: seq<char>, i: nat): (r: Result<Lexeme>)
    requires i <= |s|
    ensures r.Ok? ==> r.value == Scan(s, i)
    ensures r.Err? <==> Scan(s, i).token == TokenNum && s[Scan(s, i).start..Scan(s, i).end] == "."
    ensures r.Err? ==> r.error == InvalidNumber(".")
  {
    var lx := Scan(s, i);
    if lx.token == TokenNum && s[lx.start..lx.end] == "." then Err(InvalidNumber(s[lx.start..lx.end])) else Ok(lx)
  }

  /** `tmpNumVal` after a NUM lexeme that `stod` accepts. */
  function NumberValue(s: seq<char>, i: nat): (v: real)
    requires i <= |s| && NextToken(s, i).Ok? && Scan(s, i).token == TokenNum
  {
    var lx := Scan(s, i);
    ScanNumber(s, i);
    DecimalValue(s[lx.start..lx.end]).value
  }

  /** An identifier inside an expression: `global.get(name)->val.float64`. */
  function ResolveId(name: string, scope: map<string, Ptr>, heap: seq<JsValue>): (r: Result<real>)
    ensures r.Ok? <==> name in scope && NumberAt(heap, scope[name]).Ok?
    ensures r.Ok? ==> r.value == heap[scope[name]].val.d
    ensures name !in scope ==> r == Err(UndefinedVariable(name))
    ensures name in scope && r.Err? ==> r == Err(BadValue)
  {
    var p := Lookup(scope, name);
    if p.Err? then Err(p.error) else NumberAt(heap, p.value)
  }

  /** What the evaluator makes of the token at `i`: an operand, an operator, or nothing. */
  function ExprTokOf(s: seq<char>, i: nat, scope: map<string, Ptr>, heap: seq<JsValue>): (r: Result<ExprTok>)
    requires i <= |s| && NextToken(s, i).Ok?
    ensures var lx := Scan(s, i);
            && (r.Ok? && r.value.Operator? <==> OperatorOf(lx.token).Some?)
            && (r.Ok? && r.value.Operand? <==> (lx.token == TokenNum || (lx.token == TokenId && r.Ok?)))
            && (r.Err? ==> lx.token == TokenId)
  {
    var lx := Scan(s, i);
    if lx.token == TokenNum then Ok(Operand(NumberValue(s, i)))
    else if lx.token == TokenId then
      var v := ResolveId(s[lx.start..lx.end], scope, heap);
      if v.Err? then Err(v.error) else Ok(Operand(v.value))
    else if OperatorOf(lx.token).Some? then Ok(Operator(OperatorOf(lx.token).value))
    else Ok(Ignored)
  }

  /** Where an expression ends: its value, the position after its ';' and the line count there. */
  datatype ExprEnd = ExprEnd(value: real, end: nat, row: int)

  /**
   * `parseExpression`'s token loop from position `i` with evaluator state
   * `st`, up to and including the terminating ';'.
   */
  function EvalFrom(s: seq<char>, i: nat, row: int, st: ExprState, scope: map<string, Ptr>, heap: seq<JsValue>): (r: Result<ExprEnd>)
    requires i <= |s|
    ensures r.Ok? ==> i < r.value.end <= |s| && r.value.row >= row
    decreases |s| - i, 2, 0
  {
    EvalFromLayers(s, i, row, st, scope, heap, 1)
  }

  /**
   * `EvalFrom` behind `layers` recursive calls, so that proofs about its
   * callers see its contract and take one step of the loop only where they
   * call `EvalFromUnfold`.
   */
  function EvalFromLayers(s: seq<char>, i: nat, row: int, st: ExprState, scope: map<string, Ptr>, heap: seq<JsValue>, layers: nat): (r: Result<ExprEnd>)
    requires i <= |s|
    ensures r.Ok? ==> i < r.value.end <= |s| && r.value.row >= row
    decreases |s| - i, 1, layers
  {
    if layers > 0 then EvalFromLayers(s, i, row, st, scope, heap, layers - 1)
    else
      var t := NextToken(s, i);
      if t.Err? then Err(t.error) else EvalToken(s, i, row, st, scope, heap, t.value)
  }

  /** One step of the expression loop: read the token at `i`, then act on it. */
  lemma EvalFromUnfold(s: seq<char>, i: nat, row: int, st: ExprState, scope: map<string, Ptr>, heap: seq<JsValue>)
    requires i <= |s|
    ensures var t := NextToken(s, i);
            EvalFrom(s, i, row, st, scope, heap) == if t.Err? then Err(t.error) else EvalToken(s, i, row, st, scope, heap, t.value)
  {
    assert EvalFromLayers(s, i, row, st, scope, heap, 1) == EvalFromLayers(s, i, row, st, scope, heap, 0);
  }

  /** The expression loop once the token at `i` has been read as `lx`. */
  function EvalToken(s: seq<char>, i: nat, row: int, st: ExprState, scope: map<string, Ptr>, heap: seq<JsValue>, lx: Lexeme): (r: Result<ExprEnd>)
    requires i <= |s| && NextToken(s, i) == Ok(lx)
    ensures r.Ok? ==> i < r.value.end <= |s| && r.value.row >= row
    decreases |s| - i, 0, 0
  {
    var row' := row + lx.rows;
    if lx.token == TokenSemi then
      var v := Finish(st);
      if v.Err? then Err(v.error) else Ok(ExprEnd(v.value, lx.end, row'))
    else if lx.token == TokenEof then Err(UnterminatedExpression)
    else
      var x := ExprTokOf(s, i, scope, heap);
      if x.Err? then Err(x.error)
      else
        var next := Step(st, x.value);
        if next.Err? then Err(next.error) else EvalFrom(s, lx.end, row', next.value, scope, heap)
  }

  /** The expression loop on a token that is neither ';' nor the end of the file: one evaluator step. */
  lemma EvalFromStep(s: seq<char>, i: nat, row: int, st: ExprState, scope: map<string, Ptr>, heap: seq<JsValue>,
                     lx: Lexeme, x: ExprTok, next: ExprState)
    requires i <= |s| && NextToken(s, i) == Ok(lx)
    requires lx.token != TokenSemi && lx.token != TokenEof
    requires ExprTokOf(s, i, scope, heap) == Ok(x) && Step(st, x) == Ok(next)
    ensures lx.end <= |s|
    ensures EvalFrom(s, i, row, st, scope, heap) == EvalFrom(s, lx.end, row + lx.rows, next, scope, heap)
  {
    EvalFromUnfold(s, i, row, st, scope, heap);
    assert EvalToken(s, i, row, st, scope, heap, lx) == EvalFrom(s, lx.end, row + lx.rows, next, scope, heap);
  }

  /** An operator the loop pushes: the operator stack is empty or its top binds less tightly. */
  lemma EvalFromPush(s: seq<char>, i: nat, row: int, st: ExprState, scope: map<string, Ptr>, heap: seq<JsValue>,
                     lx: Lexeme, op: OpCode)
    requires i <= |s| && NextToken(s, i) == Ok(lx) && OperatorOf(lx.token) == Some(op)
    requires st.ops == [] || Prec(op) > Prec(st.ops[|st.ops| - 1])
    ensures lx.end <= |s|
    ensures EvalFrom(s, i, row, st, scope, heap) == EvalFrom(s, lx.end, row + lx.rows, ExprState(st.nums, st.ops + [op]), scope, heap)
  {
    assert ExprTokOf(s, i, scope, heap) == Ok(Operator(op));
    EvalFromStep(s, i, row, st, scope, heap, lx, Operator(op), ExprState(st.nums, st.ops + [op]));
  }

  /** A token the expression loop skips: '=', a bracket, a keyword or an unknown character. */
  lemma EvalFromSkip(s: seq<char>, i: nat, row: int, st: ExprState, scope: map<string, Ptr>, heap: seq<JsValue>, lx: Lexeme)
    requires i <= |s| && NextToken(s, i) == Ok(lx)
    requires lx.token !in {TokenSemi, TokenEof, TokenNum, TokenId} && OperatorOf(lx.token).None?
    ensures lx.end <= |s|
    ensures EvalFrom(s, i, row, st, scope, heap) == EvalFrom(s, lx.end, row + lx.rows, st, scope, heap)
  {
    assert ExprTokOf(s, i, scope, heap) == Ok(Ignored);
    EvalFromStep(s, i, row, st, scope, heap, lx, Ignored, st);
  }

  /** The expression loop on a token it cannot use: a `stod` failure, the end of the file, an unbound name or a failed step. */
  lemma EvalFromStops(s: seq<char>, i: nat, row: int, st: ExprState, scope: map<string, Ptr>, heap: seq<JsValue>)
    requires i <= |s|
    ensures NextToken(s, i).Err? ==> EvalFrom(s, i, row, st, scope, heap) == Err(NextToken(s, i).error)
    ensures NextToken(s, i).Ok? && Scan(s, i).token == TokenEof ==> EvalFrom(s, i, row, st, scope, heap) == Err(UnterminatedExpression)
    ensures NextToken(s, i).Ok? && Scan(s, i).token != TokenSemi && Scan(s, i).token != TokenEof && ExprTokOf(s, i, scope, heap).Err? ==>
              EvalFrom(s, i, row, st, scope, heap) == Err(ExprTokOf(s, i, scope, heap).error)
    ensures NextToken(s, i).Ok? && Scan(s, i).token != TokenSemi && Scan(s, i).token != TokenEof && ExprTokOf(s, i, scope, heap).Ok?
            && Step(st, ExprTokOf(s, i, scope, heap).value).Err? ==>
              EvalFrom(s, i, row, st, scope, heap) == Err(Step(st, ExprTokOf(s, i, scope, heap).value).error)
  {
    EvalFromUnfold(s, i, row, st, scope, heap);
  }

  /** The expression loop at ';': the operators left are applied and the operand on top is the value. */
  lemma EvalFromSemi(s: seq<char>, i: nat, row: int, st: ExprState, scope: map<string, Ptr>, heap: seq<JsValue>, end: nat, row': int)
    requires i <= |s| && NextToken(s, i).Ok? && Scan(s, i).token == TokenSemi
    requires end == Scan(s, i).end && row' == row + Scan(s, i).rows
    ensures var v := Finish(st);
            EvalFrom(s, i, row, st, scope, heap) == if v.Err? then Err(v.error) else Ok(ExprEnd(v.value, end, row'))
  {
    EvalFromUnfold(s, i, row, st, scope, heap);
  }

  /** The evaluator tokens of an expression, the position after its ';' and the lines it spans. */
  datatype ExprText = ExprText(toks: seq<ExprTok>, end: nat, rows: nat)

  /**
   * The text from `i` to the next ';' as the evaluator's tokens, with the
   * tokens it skips left out; it fails where the text does not reach a
   * ';', a number is "." or a name is unbound.
   */
  function TokensFrom(s: seq<char>, i: nat, scope: map<string, Ptr>, heap: seq<JsValue>): (r: Result<ExprText>)
    requires i <= |s|
    ensures r.Ok? ==> i < r.value.end <= |s|
    ensures r.Ok? ==> forall k :: 0 <= k < |r.value.toks| ==> !r.value.toks[k].Ignored?
    decreases |s| - i, 1
  {
    TokensFromLayers(s, i, scope, heap, 1)
  }

  /** `TokensFrom` behind `layers` recursive calls; `TokensFromUnfold` takes one step. */
  function TokensFromLayers(s: seq<char>, i: nat, scope: map<string, Ptr>, heap: seq<JsValue>, layers: nat): (r: Result<ExprText>)
    requires i <= |s|
    ensures r.Ok? ==> i < r.value.end <= |s|
    ensures r.Ok? ==> forall k :: 0 <= k < |r.value.toks| ==> !r.value.toks[k].Ignored?
    decreases |s| - i, 0, layers
  {
    if layers > 0 then TokensFromLayers(s, i, scope, heap, layers - 1)
    else
      var t := NextToken(s, i);
      if t.Err? then Err(t.error)
      else if t.value.token == TokenSemi then Ok(ExprText([], t.value.end, t.value.rows))
      else if t.value.token == TokenEof then Err(UnterminatedExpression)
      else
        var x := ExprTokOf(s, i, scope, heap);
        if x.Err? then Err(x.error)
        else
          var rest := TokensFrom(s, t.value.end, scope, heap);
          if rest.Err? then Err(rest.error)
          else
            var toks := if x.value.Ignored? then rest.value.toks else [x.value] + rest.value.toks;
            Ok(ExprText(toks, rest.value.end, t.value.rows + rest.value.rows))
  }

  /** Where `TokensFrom` succeeds: the token at `i` is read, is not the end of the file, and is ';' or usable. */
  lemma TokensFromFirst(s: seq<char>, i: nat, scope: map<string, Ptr>, heap: seq<JsValue>)
    requires i <= |s| && TokensFrom(s, i, scope, heap).Ok?
    ensures NextToken(s, i).Ok? && Scan(s, i).token != TokenEof
    ensures Scan(s, i).token == TokenSemi ==> TokensFrom(s, i, scope, heap).value == ExprText([], Scan(s, i).end, Scan(s, i).rows)
    ensures Scan(s, i).token != TokenSemi ==>
              && ExprTokOf(s, i, scope, heap).Ok?
              && i < Scan(s, i).end <= |s| && TokensFrom(s, Scan(s, i).end, scope, heap).Ok?
  {
    assert TokensFromLayers(s, i, scope, heap, 1) == TokensFromLayers(s, i, scope, heap, 0);
  }

  /**
   * The expression loop from `i` computes what the evaluator computes on
   * the tokens read from `i`, and stops where they end.
   */
  ghost predicate AgreesWithTokens(s: seq<char>, i: nat, row: int, st: ExprState, scope: map<string, Ptr>, heap: seq<JsValue>)
    requires i <= |s| && TokensFrom(s, i, scope, heap).Ok?
  {
    var t := TokensFrom(s, i, scope, heap).value;
    var v := EvalTokens(t.toks, st);
    EvalFrom(s, i, row, st, scope, heap) == EndAt(v, t.end, row + t.rows)
  }

  /** The evaluator's value, or its failure, as the end of an expression at `end`. */
  function EndAt(v: Result<real>, end: nat, row: int): (r: Result<ExprEnd>)
    ensures r.Ok? <==> v.Ok?
    ensures r.Ok? ==> r.value == ExprEnd(v.value, end, row)
    ensures r.Err? ==> r.error == v.error
  {
    if v.Err? then Err(v.error) else Ok(ExprEnd(v.value, end, row))
  }

  /**
   * On a text that reads as tokens up to its ';', the expression loop is
   * the evaluator run over those tokens: same value, same failure, and it
   * stops just after that ';'.
   */
  lemma {:induction false} EvalFromTokens(s: seq<char>, i: nat, row: int, st: ExprState, scope: map<string, Ptr>, heap: seq<JsValue>)
    requires i <= |s| && TokensFrom(s, i, scope, heap).Ok?
    ensures AgreesWithTokens(s, i, row, st, scope, heap)
    decreases |s| - i
  {
    TokensFromFirst(s, i, scope, heap);
    var lx := NextToken(s, i).value;
    if lx.token == TokenSemi {
      EvalFromTokensSemi(s, i, row, st, scope, heap);
    } else {
      var x := ExprTokOf(s, i, scope, heap).value;
      if Step(st, x).Err? {
        EvalFromTokensHalt(s, i, row, st, scope, heap, lx, x);
      } else {
        var next := Step(st, x).value;
        EvalFromTokens(s, lx.end, row + lx.rows, next, scope, heap);
        EvalFromTokensStep(s, i, row, st, scope, heap, lx, x, next);
        AgreesBack(s, i, row, st, scope, heap, lx.end, lx.rows, next);
      }
    }
  }

  /** `EvalFromTokens` at the ';': no tokens are left, and both sides finish the evaluator. */
  lemma EvalFromTokensSemi(s: seq<char>, i: nat, row: int, st: ExprState, scope: map<string, Ptr>, heap: seq<JsValue>)
    requires i <= |s| && TokensFrom(s, i, scope, heap).Ok? && NextToken(s, i).Ok? && Scan(s, i).token == TokenSemi
    ensures AgreesWithTokens(s, i, row, st, scope, heap)
  {
    TokensFromFirst(s, i, scope, heap);
    EvalFromSemi(s, i, row, st, scope, heap, Scan(s, i).end, row + Scan(s, i).rows);
    assert EvalTokens([], st) == Finish(st);
  }

  /** `EvalFromTokens` on a token the evaluator fails on: both sides fail with the same error. */
  lemma EvalFromTokensHalt(s: seq<char>, i: nat, row: int, st: ExprState, scope: map<string, Ptr>, heap: seq<JsValue>,
                           lx: Lexeme, x: ExprTok)
    requires i <= |s| && NextToken(s, i) == Ok(lx) && lx.token != TokenSemi && lx.token != TokenEof
    requires ExprTokOf(s, i, scope, heap) == Ok(x) && TokensFrom(s, i, scope, heap).Ok? && Step(st, x).Err?
    ensures AgreesWithTokens(s, i, row, st, scope, heap)
  {
    TokensFromNext(s, i, scope, heap, lx, x);
    EvalTokensCons(x, TokensFrom(s, lx.end, scope, heap).value.toks, st);
    EvalFromStops(s, i, row, st, scope, heap);
  }

  /** Past a token the evaluator takes, the loop and the token list move on together. */
  lemma EvalFromTokensStep(s: seq<char>, i: nat, row: int, st: ExprState, scope: map<string, Ptr>, heap: seq<JsValue>,
                           lx: Lexeme, x: ExprTok, next: ExprState)
    requires i <= |s| && NextToken(s, i) == Ok(lx) && lx.token != TokenSemi && lx.token != TokenEof
    requires ExprTokOf(s, i, scope, heap) == Ok(x) && TokensFrom(s, i, scope, heap).Ok? && Step(st, x) == Ok(next)
    ensures lx.end <= |s| && TokensFrom(s, lx.end, scope, heap).Ok?
    ensures EvalFrom(s, i, row, st, scope, heap) == EvalFrom(s, lx.end, row + lx.rows, next, scope, heap)
    ensures TokensFrom(s, i, scope, heap).value.end == TokensFrom(s, lx.end, scope, heap).value.end
    ensures TokensFrom(s, i, scope, heap).value.rows == lx.rows + TokensFrom(s, lx.end, scope, heap).value.rows
    ensures EvalTokens(TokensFrom(s, i, scope, heap).value.toks, st) == EvalTokens(TokensFrom(s, lx.end, scope, heap).value.toks, next)
  {
    EvalFromStep(s, i, row, st, scope, heap, lx, x, next);
    TokensFromNext(s, i, scope, heap, lx, x);
    EvalTokensCons(x, TokensFrom(s, lx.end, scope, heap).value.toks, st);
  }

  /** The agreement carried back from `end` to `i`, where both sides take the same step. */
  lemma AgreesBack(s: seq<char>, i: nat, row: int, st: ExprState, scope: map<string, Ptr>, heap: seq<JsValue>,
                   end: nat, rows: nat, next: ExprState)
    requires i <= |s| && end <= |s| && TokensFrom(s, i, scope, heap).Ok? && TokensFrom(s, end, scope, heap).Ok?
    requires EvalFrom(s, i, row, st, scope, heap) == EvalFrom(s, end, row + rows, next, scope, heap)
    requires TokensFrom(s, i, scope, heap).value.end == TokensFrom(s, end, scope, heap).value.end
    requires TokensFrom(s, i, scope, heap).value.rows == rows + TokensFrom(s, end, scope, heap).value.rows
    requires EvalTokens(TokensFrom(s, i, scope, heap).value.toks, st) == EvalTokens(TokensFrom(s, end, scope, heap).value.toks, next)
    requires AgreesWithTokens(s, end, row + rows, next, scope, heap)
    ensures AgreesWithTokens(s, i, row, st, scope, heap)
  {
  }

  /** `TokensFrom` past one token that is neither ';' nor the end of the file. */
  lemma TokensFromNext(s: seq<char>, i: nat, scope: map<string, Ptr>, heap: seq<JsValue>, lx: Lexeme, x: ExprTok)
    requires i <= |s| && NextToken(s, i) == Ok(lx) && lx.token != TokenSemi && lx.token != TokenEof
    requires ExprTokOf(s, i, scope, heap) == Ok(x) && TokensFrom(s, i, scope, heap).Ok?
    ensures i < lx.end <= |s| && TokensFrom(s, lx.end, scope, heap).Ok?
    ensures var t := TokensFrom(s, i, scope, heap).value;
            var rest := TokensFrom(s, lx.end, scope, heap).value;
            && t.end == rest.end && t.rows == lx.rows + rest.rows
            && t.toks == if x.Ignored? then rest.toks else [x] + rest.toks
  {
    assert TokensFromLayers(s, i, scope, heap, 1) == TokensFromLayers(s, i, scope, heap, 0);
  }

  /** The evaluator over a token list is one step on its head, then the rest (a skipped token changes nothing). */
  lemma EvalTokensCons(x: ExprTok, ts: seq<ExprTok>, st: ExprState)
    ensures var step := Step(st, x);
            EvalTokens(if x.Ignored? then ts else [x] + ts, st) == if step.Err? then Err(step.error) else EvalTokens(ts, step.value)
  {
    if !x.Ignored? {
      assert ([x] + ts)[0] == x && ([x] + ts)[1..] == ts;
    }
  }

  /**
   * An expression whose text reads as `first op1 x1 ... opn xn` has the
   * value `Reference` gives it: what `parseExpression` computes is the
   * drain policy's value, and it never fails on such a text.
   */
  lemma ExpressionMatchesReference(s: seq<char>, i: nat, row: int, scope: map<string, Ptr>, heap: seq<JsValue>,
                                   first: real, pairs: seq<Pair>)
    requires i <= |s| && AllArith(pairs)
    requires TokensFrom(s, i, scope, heap).Ok?
    requires TokensFrom(s, i, scope, heap).value.toks == [Operand(first)] + PairTokens(pairs)
    ensures var t := TokensFrom(s, i, scope, heap).value;
            EvalFrom(s, i, row, Empty, scope, heap) == Ok(ExprEnd(Reference(first, pairs), t.end, row + t.rows))
  {
    EvalFromTokens(s, i, row, Empty, scope, heap);
    EvalMatchesReference(first, pairs);
  }

  /**
   * The front end's state between tokens: the read position, `current_row`,
   * `dataStack` (top last) and every value allocated so far.
   */
  datatype Front = Front(pos: nat, row: int, stack: seq<byte>, heap: seq<JsValue>)

  /** A freshly allocated value is appended to the table: its reference is the old table size. */
  function Alloc(f: Front, v: JsValue): (r: Result<Front>)
    ensures r.Ok? <==> |f.heap| < MaxValues
    ensures r.Err? ==> r.error == OutOfMemory
    ensures r.Ok? ==> r.value.pos == f.pos && r.value.row == f.row && r.value.heap == f.heap + [v]
    ensures r.Ok? ==> r.value.stack == f.stack + ToBytes(|f.heap|, PtrSize) && |r.value.stack| == |f.stack| + PtrSize
    ensures r.Ok? ==> FromBytes(r.value.stack[|f.stack|..]) == |f.heap| && r.value.stack[..|f.stack|] == f.stack
  {
    if |f.heap| >= MaxValues then Err(OutOfMemory)
    else
      var stack := f.stack + ToBytes(|f.heap|, PtrSize);
      assert stack[|f.stack|..] == ToBytes(|f.heap|, PtrSize) && stack[..|f.stack|] == f.stack;
      FromToBytes(|f.heap|, PtrSize);
      Ok(Front(f.pos, f.row, stack, f.heap + [v]))
  }

  /**
   * The reference `Alloc` pushes is what the handlers read back: it denotes
   * the new value, a string reads as its text and a number as itself, and
   * every reference allocated before it still reads the same.
   */
  lemma AllocResolves(f: Front, v: JsValue)
    requires Alloc(f, v).Ok?
    ensures var g := Alloc(f, v).value;
            var p := FromBytes(g.stack[|f.stack|..]);
            && p < |g.heap| && g.heap[p] == v
            && (v.val.CharPtr? ==> NameAt(g.heap, p) == Ok(v.val.s))
            && (v.val.Float64? ==> NumberAt(g.heap, p) == Ok(v.val.d))
            && (!v.val.CharPtr? ==> NameAt(g.heap, p) == Err(BadValue))
            && (!v.val.Float64? ==> NumberAt(g.heap, p) == Err(BadValue))
    ensures forall q :: 0 <= q < |f.heap| ==>
              NameAt(Alloc(f, v).value.heap, q) == NameAt(f.heap, q)
              && NumberAt(Alloc(f, v).value.heap, q) == NumberAt(f.heap, q)
  {
  }

  /** `parseExpression`: evaluate up to ';', allocate the result as a number and push its reference. */
  function Expression(s: seq<char>, f: Front, scope: map<string, Ptr>): (r: Result<Front>)
    requires f.pos <= |s|
    ensures r.Ok? ==> f.pos < r.value.pos <= |s| && r.value.row >= f.row
    ensures var e := EvalFrom(s, f.pos, f.row, Empty, scope, f.heap);
            && (r.Ok? <==> e.Ok? && |f.heap| < MaxValues)
            && (r.Ok? ==> r.value == Front(e.value.end, e.value.row, f.stack + ToBytes(|f.heap|, PtrSize),
                                           f.heap + [JsValue(JsTagNum, Float64(e.value.value))]))
  {
    var e := EvalFrom(s, f.pos, f.row, Empty, scope, f.heap);
    if e.Err? then Err(e.error)
    else Alloc(Front(e.value.end, e.value.row, f.stack, f.heap), JsValue(JsTagNum, Float64(e.value.value)))
  }

  /** The front end just past a lexeme: the position after it, and the line breaks before it counted. */
  function Past(f: Front, lx: Lexeme): (g: Front)
    ensures g.pos == lx.end && g.row == f.row + lx.rows && g.stack == f.stack && g.heap == f.heap
  {
    f.(pos := lx.end, row := f.row + lx.rows)
  }

  /** The value `new JsValue(JS_TAG_STRING, ptr)` that holds a name. */
  function NameValue(name: string): JsValue
  {
    JsValue(JsTagString, CharPtr(name))
  }

  /** `parseVarStatement`, after the `var` keyword: `[ID] = <expression> ;` compiled to `[name][value][ASSIGN]`. */
  function VarStatement(s: seq<char>, f: Front, scope: map<string, Ptr>): (r: Result<Front>)
    requires f.pos <= |s|
    ensures r.Ok? ==> f.pos < r.value.pos <= |s| && r.value.row >= f.row
    ensures r.Ok? ==> var lx := Scan(s, f.pos);
                      var n := |f.heap|;
                      && lx.token == TokenId && n + 1 < MaxValues && |r.value.heap| == n + 2
                      && r.value.heap[..n] == f.heap && r.value.heap[n] == NameValue(s[lx.start..lx.end])
                      && r.value.heap[n + 1].val.Float64?
                      && r.value.stack == f.stack + ToBytes(n, PtrSize) + ToBytes(n + 1, PtrSize) + [Code(OpAssign)]
  {
    VarStatementLayers(s, f, scope, 1)
  }

  /** `VarStatement` behind `layers` recursive calls: proofs see its contract, and its steps through `VarStatementNext`. */
  function VarStatementLayers(s: seq<char>, f: Front, scope: map<string, Ptr>, layers: nat): (r: Result<Front>)
    requires f.pos <= |s|
    ensures r.Ok? ==> f.pos < r.value.pos <= |s| && r.value.row >= f.row
    ensures r.Ok? ==> var lx := Scan(s, f.pos);
                      var n := |f.heap|;
                      && lx.token == TokenId && n + 1 < MaxValues && |r.value.heap| == n + 2
                      && r.value.heap[..n] == f.heap && r.value.heap[n] == NameValue(s[lx.start..lx.end])
                      && r.value.heap[n + 1].val.Float64?
                      && r.value.stack == f.stack + ToBytes(n, PtrSize) + ToBytes(n + 1, PtrSize) + [Code(OpAssign)]
    decreases layers
  {
    if layers > 0 then VarStatementLayers(s, f, scope, layers - 1) else VarStatementBody(s, f, scope)
  }

  /** One reading of `parseVarStatement`: the ID, its allocation, then the rest. */
  function VarStatementBody(s: seq<char>, f: Front, scope: map<string, Ptr>): (r: Result<Front>)
    requires f.pos <= |s|
    ensures r.Ok? ==> f.pos < r.value.pos <= |s| && r.value.row >= f.row
    ensures r.Ok? ==> var lx := Scan(s, f.pos);
                      var n := |f.heap|;
                      && lx.token == TokenId && n + 1 < MaxValues && |r.value.heap| == n + 2
                      && r.value.heap[..n] == f.heap && r.value.heap[n] == NameValue(s[lx.start..lx.end])
                      && r.value.heap[n + 1].val.Float64?
                      && r.value.stack == f.stack + ToBytes(n, PtrSize) + ToBytes(n + 1, PtrSize) + [Code(OpAssign)]
  {
    var t := NextToken(s, f.pos);
    if t.Err? then Err(t.error)
    else if t.value.token != TokenId then Err(NoIdAfterVar(f.row + t.value.rows))
    else
      var named := Alloc(Past(f, t.value), NameValue(s[t.value.start..t.value.end]));
      if named.Err? then Err(named.error)
      else
        var r := VarValue(s, named.value, scope);
        assert t.value == Scan(s, f.pos);
        if r.Ok? then NameThenValue(f, named.value, r.value, NameValue(s[t.value.start..t.value.end])); r else r
  }

  /** The name allocated first and the value allocated after it sit in that order on the heap and the stack. */
  lemma NameThenValue(f: Front, named: Front, g: Front, name: JsValue)
    requires |f.heap| < MaxValues && named.heap == f.heap + [name] && named.stack == f.stack + ToBytes(|f.heap|, PtrSize)
    requires var n := |named.heap|;
             && n < MaxValues && |g.heap| == n + 1 && g.heap[..n] == named.heap
             && g.stack == named.stack + ToBytes(n, PtrSize) + [Code(OpAssign)]
    ensures var n := |f.heap|;
            && n + 1 < MaxValues && |g.heap| == n + 2 && g.heap[..n] == f.heap && g.heap[n] == name
            && g.stack == f.stack + ToBytes(n, PtrSize) + ToBytes(n + 1, PtrSize) + [Code(OpAssign)]
  {
    var n := |f.heap|;
    assert |named.heap| == n + 1;
    assert g.heap[..n] == g.heap[..n + 1][..n];
    assert g.heap[n] == named.heap[n];
  }

  /** `parseVarStatement` once its first token `lx` is read. */
  lemma VarStatementNext(s: seq<char>, f: Front, scope: map<string, Ptr>, lx: Lexeme)
    requires f.pos <= |s| && NextToken(s, f.pos) == Ok(lx)
    ensures lx.end <= |s|
    ensures lx.token != TokenId ==> VarStatement(s, f, scope) == Err(NoIdAfterVar(f.row + lx.rows))
    ensures lx.token == TokenId ==>
              var named := Alloc(Past(f, lx), NameValue(s[lx.start..lx.end]));
              VarStatement(s, f, scope) == if named.Err? then Err(named.error) else VarValue(s, named.value, scope)
  {
    assert VarStatementLayers(s, f, scope, 1) == VarStatementLayers(s, f, scope, 0);
  }

  /** The rest of `parseVarStatement` once the name is pushed: `= <expression> ;`, then ASSIGN. */
  function VarValue(s: seq<char>, f: Front, scope: map<string, Ptr>): (r: Result<Front>)
    requires f.pos <= |s|
    ensures r.Ok? ==> f.pos < r.value.pos <= |s| && r.value.row >= f.row
    ensures r.Ok? ==> var n := |f.heap|;
                      && n < MaxValues && |r.value.heap| == n + 1 && r.value.heap[..n] == f.heap
                      && r.value.heap[n].val.Float64?
                      && r.value.stack == f.stack + ToBytes(n, PtrSize) + [Code(OpAssign)]
  {
    VarValueLayers(s, f, scope, 1)
  }

  /** `VarValue` behind `layers` recursive calls: proofs see its contract, and its steps through `VarValueNext`. */
  function VarValueLayers(s: seq<char>, f: Front, scope: map<string, Ptr>, layers: nat): (r: Result<Front>)
    requires f.pos <= |s|
    ensures r.Ok? ==> f.pos < r.value.pos <= |s| && r.value.row >= f.row
    ensures r.Ok? ==> var n := |f.heap|;
                      && n < MaxValues && |r.value.heap| == n + 1 && r.value.heap[..n] == f.heap
                      && r.value.heap[n].val.Float64?
                      && r.value.stack == f.stack + ToBytes(n, PtrSize) + [Code(OpAssign)]
    decreases layers
  {
    if layers > 0 then VarValueLayers(s, f, scope, layers - 1)
    else
      var t := NextToken(s, f.pos);
      if t.Err? then Err(t.error)
      else if t.value.token != TokenEqual then Err(NoEqualAfterId(f.row + t.value.rows))
      else
        var e := Expression(s, Past(f, t.value), scope);
        if e.Err? then Err(e.error) else Ok(e.value.(stack := e.value.stack + [Code(OpAssign)]))
  }

  /** The rest of `parseVarStatement` once its '=' position token `lx` is read. */
  lemma VarValueNext(s: seq<char>, f: Front, scope: map<string, Ptr>, lx: Lexeme)
    requires f.pos <= |s| && NextToken(s, f.pos) == Ok(lx)
    ensures lx.end <= |s|
    ensures lx.token != TokenEqual ==> VarValue(s, f, scope) == Err(NoEqualAfterId(f.row + lx.rows))
    ensures lx.token == TokenEqual ==>
              var e := Expression(s, Past(f, lx), scope);
              VarValue(s, f, scope) == if e.Err? then Err(e.error) else Ok(e.value.(stack := e.value.stack + [Code(OpAssign)]))
  {
    assert VarValueLayers(s, f, scope, 1) == VarValueLayers(s, f, scope, 0);
  }

  /** `parsePrintStatement`, after the `$print` keyword: `( [ID] )` compiled to `[name][PRINT]`. */
  function PrintStatement(s: seq<char>, f: Front): (r: Result<Front>)
    requires f.pos <= |s|
    ensures r.Ok? ==> f.pos < r.value.pos <= |s| && r.value.row >= f.row
  {
    var t := NextToken(s, f.pos);
    if t.Err? then Err(t.error)
    else if t.value.token != TokenLBracket then Err(NoLBracketAfterPrint(f.row + t.value.rows))
    else PrintName(s, Past(f, t.value))
  }

  /** The rest of `parsePrintStatement` after '(': the ID, whose name is pushed. */
  function PrintName(s: seq<char>, f: Front): (r: Result<Front>)
    requires f.pos <= |s|
    ensures r.Ok? ==> f.pos < r.value.pos <= |s| && r.value.row >= f.row
  {
    var t := NextToken(s, f.pos);
    if t.Err? then Err(t.error)
    else if t.value.token != TokenId then Err(NoIdInPrint(f.row + t.value.rows))
    else
      var named := Alloc(Past(f, t.value), NameValue(s[t.value.start..t.value.end]));
      if named.Err? then Err(named.error) else PrintClose(s, named.value)
  }

  /** The end of `parsePrintStatement`: ')', then PRINT. */
  function PrintClose(s: seq<char>, f: Front): (r: Result<Front>)
    requires f.pos <= |s|
    ensures r.Ok? ==> f.pos < r.value.pos <= |s| && r.value.row >= f.row
  {
    var t := NextToken(s, f.pos);
    if t.Err? then Err(t.error)
    else if t.value.token != TokenRBracket then Err(NoRBracketAfterPrint(f.row + t.value.rows))
    else
      var g := Past(f, t.value);
      Ok(g.(stack := g.stack + [Code(OpPrint)]))
  }

  /** `parsePrintStatement` once its first token `lx` is read. */
  lemma PrintStatementNext(s: seq<char>, f: Front, lx: Lexeme)
    requires f.pos <= |s| && NextToken(s, f.pos) == Ok(lx)
    ensures lx.end <= |s|
    ensures lx.token != TokenLBracket ==> PrintStatement(s, f) == Err(NoLBracketAfterPrint(f.row + lx.rows))
    ensures lx.token == TokenLBracket ==> PrintStatement(s, f) == PrintName(s, Past(f, lx))
  {
  }

  /** The rest of `parsePrintStatement` once the token after '(' is read. */
  lemma PrintNameNext(s: seq<char>, f: Front, lx: Lexeme)
    requires f.pos <= |s| && NextToken(s, f.pos) == Ok(lx)
    ensures lx.end <= |s|
    ensures lx.token != TokenId ==> PrintName(s, f) == Err(NoIdInPrint(f.row + lx.rows))
    ensures lx.token == TokenId ==>
              var named := Alloc(Past(f, lx), NameValue(s[lx.start..lx.end]));
              PrintName(s, f) == if named.Err? then Err(named.error) else PrintClose(s, named.value)
  {
  }

  /** The end of `parsePrintStatement` once the token after the name is read. */
  lemma PrintCloseNext(s: seq<char>, f: Front, lx: Lexeme)
    requires f.pos <= |s| && NextToken(s, f.pos) == Ok(lx)
    ensures lx.end <= |s|
    ensures lx.token != TokenRBracket ==> PrintClose(s, f) == Err(NoRBracketAfterPrint(f.row + lx.rows))
    ensures lx.token == TokenRBracket ==> PrintClose(s, f) == Ok(Past(f, lx).(stack := f.stack + [Code(OpPrint)]))
  {
  }

  /** The `switch (token)` of `eval`: the statement a `var` or `$print` token starts, if any. */
  function Statement(s: seq<char>, token: Token, f: Front, scope: map<string, Ptr>): (r: Result<Front>)
    requires f.pos <= |s|
    ensures r.Ok? ==> f.pos <= r.value.pos <= |s| && r.value.row >= f.row
  {
    if token == TokenVar then VarStatement(s, f, scope)
    else if token == TokenPrint then PrintStatement(s, f)
    else Ok(f)
  }

  /** How a whole program ends: the front end's last state, the global scope and the printed numbers. */
  datatype Final = Final(front: Front, scope: map<string, Ptr>, out: seq<real>)

  /** One round of `eval`: the token read, and the state after its statement is compiled and run. */
  datatype RoundEnd = RoundEnd(token: Token, after: Final)

  /**
   * The body of `eval`'s loop: read a token, compile the statement after
   * `var` or `$print`, then run the byte stack down to empty.
   */
  function Round(s: seq<char>, f: Front, scope: map<string, Ptr>, out: seq<real>): (r: Outcome<RoundEnd>)
    requires f.pos <= |s|
    ensures r.Done? ==> f.pos <= r.value.after.front.pos <= |s| && r.value.after.front.stack == []
    ensures r.Done? && r.value.token != TokenEof ==> f.pos < r.value.after.front.pos
    ensures r.Done? && r.value.token == TokenEof ==> r.value.after.front.pos == |s|
  {
    RoundLayers(s, f, scope, out, 1)
  }

  /** `Round` behind `layers` recursive calls: proofs see its contract, and its steps through `RoundNext`. */
  function RoundLayers(s: seq<char>, f: Front, scope: map<string, Ptr>, out: seq<real>, layers: nat): (r: Outcome<RoundEnd>)
    requires f.pos <= |s|
    ensures r.Done? ==> f.pos <= r.value.after.front.pos <= |s| && r.value.after.front.stack == []
    ensures r.Done? && r.value.token != TokenEof ==> f.pos < r.value.after.front.pos
    ensures r.Done? && r.value.token == TokenEof ==> r.value.after.front.pos == |s|
    decreases layers
  {
    if layers > 0 then RoundLayers(s, f, scope, out, layers - 1)
    else
      var t := NextToken(s, f.pos);
      if t.Err? then Halted(t.error, out)
      else
        var c := Statement(s, t.value.token, Past(f, t.value), scope);
        if c.Err? then Halted(c.error, out)
        else
          var x := Exec(c.value.stack, c.value.heap, scope, out);
          if x.Halted? then Halted(x.error, x.out)
          else Done(RoundEnd(t.value.token, Final(c.value.(stack := []), x.value.scope, x.value.out)))
  }

  /** A round once its token `lx` is read. */
  lemma RoundNext(s: seq<char>, f: Front, scope: map<string, Ptr>, out: seq<real>, lx: Lexeme)
    requires f.pos <= |s| && NextToken(s, f.pos) == Ok(lx)
    ensures lx.end <= |s|
    ensures var c := Statement(s, lx.token, Past(f, lx), scope);
            Round(s, f, scope, out) ==
              if c.Err? then Halted(c.error, out)
              else
                var x := Exec(c.value.stack, c.value.heap, scope, out);
                if x.Halted? then Halted(x.error, x.out)
                else Done(RoundEnd(lx.token, Final(c.value.(stack := []), x.value.scope, x.value.out)))
  {
    assert RoundLayers(s, f, scope, out, 1) == RoundLayers(s, f, scope, out, 0);
  }

  /**
   * `eval`: rounds until the one whose token was the end of the file.  A
   * fatal outcome in a round ends the program with the numbers the earlier
   * rounds printed.
   */
  function Interpret(s: seq<char>, f: Front, scope: map<string, Ptr>, out: seq<real>): (r: Outcome<Final>)
    requires f.pos <= |s|
    ensures r.Done? ==> r.value.front.pos == |s| && r.value.front.stack == []
    decreases |s| - f.pos
  {
    var rd := Round(s, f, scope, out);
    if rd.Halted? then Halted(rd.error, rd.out)
    else if rd.value.token == TokenEof then Done(rd.value.after)
    else Interpret(s, rd.value.after.front, rd.value.after.scope, rd.value.after.out)
  }

  // ---------------------------------------------------------------------------
  // What the statements leave on the byte stack, and what running it does.

  /**
   * The rest of `var name = e;` once the name is pushed, with `eq` the
   * token read next, succeeds only on '=' followed by an expression and
   * ';'.  It allocates the expression's value as a number and leaves
   * `[value][ASSIGN]` on top of the stack, with the position just past the ';'.
   */
  lemma VarValueLayout(s: seq<char>, h: Front, scope: map<string, Ptr>, eq: Lexeme, g: Front)
    requires h.pos <= |s| && NextToken(s, h.pos) == Ok(eq) && VarValue(s, h, scope) == Ok(g)
    ensures var e := EvalFrom(s, eq.end, h.row + eq.rows, Empty, scope, h.heap);
            && eq.token == TokenEqual && e.Ok? && |h.heap| < MaxValues
            && g == Front(e.value.end, e.value.row, h.stack + ToBytes(|h.heap|, PtrSize) + [Code(OpAssign)],
                          h.heap + [JsValue(JsTagNum, Float64(e.value.value))])
  {
    VarValueNext(s, h, scope, eq);
    var p := Past(h, eq);
    assert p == Front(eq.end, h.row + eq.rows, h.stack, h.heap);
    var x := Expression(s, p, scope).value;
    assert g == x.(stack := x.stack + [Code(OpAssign)]);
  }

  /** Running what `var name = e;` compiles to is `global.set(name, value)` followed by whatever was below. */
  lemma VarStatementAssigns(s: seq<char>, f: Front, scope: map<string, Ptr>, out: seq<real>)
    requires f.pos <= |s| && VarStatement(s, f, scope).Ok?
    ensures var lx := Scan(s, f.pos);
            var g := VarStatement(s, f, scope).value;
            Exec(g.stack, g.heap, scope, out) == Exec(f.stack, g.heap, Inserted(scope, s[lx.start..lx.end], |f.heap| + 1), out)
  {
    var g := VarStatement(s, f, scope).value;
    ExecAssign(f.stack, |f.heap|, |f.heap| + 1, g.heap, scope, out);
  }

  /**
   * `$print(name)` succeeds only on `'(' ID ')'`.  It allocates the name and
   * leaves `[name][PRINT]` on top of the stack it found, with the position
   * just past the ')': the ';' after it is not read.
   */
  lemma PrintLayout(s: seq<char>, f: Front)
    requires f.pos <= |s| && PrintStatement(s, f).Ok?
    ensures var lb := Scan(s, f.pos);
            var id := Scan(s, lb.end);
            var rb := Scan(s, id.end);
            var g := PrintStatement(s, f).value;
            var n := |f.heap|;
            && lb.token == TokenLBracket && id.token == TokenId && rb.token == TokenRBracket
            && n < MaxValues
            && g.heap == f.heap + [NameValue(s[id.start..id.end])]
            && g.stack == f.stack + ToBytes(n, PtrSize) + [Code(OpPrint)]
            && g.pos == rb.end
  {
    var lb := Scan(s, f.pos);
    assert NextToken(s, f.pos) == Ok(lb);
    PrintStatementNext(s, f, lb);
    var f1 := Past(f, lb);
    var id := Scan(s, f1.pos);
    assert NextToken(s, f1.pos) == Ok(id);
    PrintNameNext(s, f1, id);
    var h := Alloc(Past(f1, id), NameValue(s[id.start..id.end])).value;
    var rb := Scan(s, h.pos);
    assert NextToken(s, h.pos) == Ok(rb);
    PrintCloseNext(s, h, rb);
  }

  /**
   * Compiling `$print(name)` and running the result looks the name up: an
   * unbound name is the undefined-variable outcome, and a bound one appends
   * its number to the output before the rest of the stack runs.
   */
  lemma PrintStatementPrints(s: seq<char>, f: Front, scope: map<string, Ptr>, out: seq<real>)
    requires f.pos <= |s| && PrintStatement(s, f).Ok?
    ensures var id := Scan(s, Scan(s, f.pos).end);
            var name := s[id.start..id.end];
            var g := PrintStatement(s, f).value;
            var r := Exec(g.stack, g.heap, scope, out);
            && (name !in scope ==> r == Halted(UndefinedVariable(name), out))
            && (name in scope && NumberAt(g.heap, scope[name]).Ok? ==>
                  r == Exec(f.stack, g.heap, scope, out + [NumberAt(g.heap, scope[name]).value]))
            && (name in scope && NumberAt(g.heap, scope[name]).Err? ==> r == Halted(BadValue, out))
  {
    PrintLayout(s, f);
    var g := PrintStatement(s, f).value;
    ExecPrint(f.stack, |f.heap|, g.heap, scope, out);
  }

  // ---------------------------------------------------------------------------
  // What one round of `eval` does to the scope and the output.

  /**
   * The number a compiled `var name = e;` allocates right after the name is
   * the value of `e`: the statement reads the ID `id`, then '=' as `eq`, and
   * evaluates from there in the scope it found, with the name already on
   * the table.
   */
  lemma VarStatementValue(s: seq<char>, f: Front, scope: map<string, Ptr>, id: Lexeme, eq: Lexeme)
    requires f.pos <= |s| && VarStatement(s, f, scope).Ok?
    requires id == Scan(s, f.pos) && eq == Scan(s, id.end)
    ensures var e := EvalFrom(s, eq.end, f.row + id.rows + eq.rows, Empty, scope, f.heap + [NameValue(s[id.start..id.end])]);
            var g := VarStatement(s, f, scope).value;
            && id.token == TokenId && eq.token == TokenEqual && e.Ok?
            && NumberAt(g.heap, |f.heap| + 1) == Ok(e.value.value)
            && g.pos == e.value.end && g.row == e.value.row
  {
    var g := VarStatement(s, f, scope).value;
    VarStatementAfterName(s, f, scope, id, g);
    var h := Alloc(Past(f, id), NameValue(s[id.start..id.end])).value;
    assert h.pos == id.end && h.row == f.row + id.rows && h.heap == f.heap + [NameValue(s[id.start..id.end])];
    VarValueValue(s, h, scope, eq, g);
    assert EvalFrom(s, eq.end, h.row + eq.rows, Empty, scope, h.heap)
        == EvalFrom(s, eq.end, f.row + id.rows + eq.rows, Empty, scope, f.heap + [NameValue(s[id.start..id.end])]);
  }

  /** A compiled `var` statement read the ID `id`, allocated its name, and compiled the rest with `VarValue`. */
  lemma VarStatementAfterName(s: seq<char>, f: Front, scope: map<string, Ptr>, id: Lexeme, g: Front)
    requires f.pos <= |s| && VarStatement(s, f, scope) == Ok(g) && id == Scan(s, f.pos)
    ensures id.token == TokenId && id.end <= |s|
    ensures var named := Alloc(Past(f, id), NameValue(s[id.start..id.end]));
            named.Ok? && VarValue(s, named.value, scope) == Ok(g)
  {
    assert VarStatementLayers(s, f, scope, 1) == VarStatementBody(s, f, scope);
    VarStatementNext(s, f, scope, id);
  }

  /** The number a compiled `= e ;` allocates holds the value of `e`, read after the '=' token `eq`. */
  lemma VarValueValue(s: seq<char>, h: Front, scope: map<string, Ptr>, eq: Lexeme, g: Front)
    requires h.pos <= |s| && VarValue(s, h, scope) == Ok(g) && eq == Scan(s, h.pos)
    ensures var e := EvalFrom(s, eq.end, h.row + eq.rows, Empty, scope, h.heap);
            && eq.token == TokenEqual && e.Ok?
            && NumberAt(g.heap, |h.heap|) == Ok(e.value.value)
            && g.pos == e.value.end && g.row == e.value.row
  {
    assert VarValueLayers(s, h, scope, 1) == VarValueLayers(s, h, scope, 0);
    VarValueLayout(s, h, scope, eq, g);
  }

  /**
   * A round whose token is `var`, from an empty byte stack: a statement that
   * does not compile ends the program with its error and the output so far;
   * one that compiles runs as `global.set(name, value)` with the value
   * reference allocated right after the name, and prints nothing.
   */
  lemma RoundVar(s: seq<char>, f: Front, scope: map<string, Ptr>, out: seq<real>, lx: Lexeme)
    requires f.pos <= |s| && f.stack == [] && NextToken(s, f.pos) == Ok(lx) && lx.token == TokenVar
    ensures var v := VarStatement(s, Past(f, lx), scope);
            var id := Scan(s, lx.end);
            && (v.Err? ==> Round(s, f, scope, out) == Halted(v.error, out))
            && (v.Ok? ==>
                  Round(s, f, scope, out) ==
                    Done(RoundEnd(TokenVar, Final(v.value.(stack := []), Inserted(scope, s[id.start..id.end], |f.heap| + 1), out))))
  {
    RoundNext(s, f, scope, out, lx);
    var v := VarStatement(s, Past(f, lx), scope);
    if v.Ok? {
      VarStatementAssigns(s, Past(f, lx), scope, out);
    }
  }

  /**
   * A round whose token is `$print`, from an empty byte stack: a statement
   * that does not compile, an unbound name and a name bound to a non-number
   * end the program with the output so far; a name bound to a number
   * appends that number and leaves the scope as it was.
   */
  lemma RoundPrint(s: seq<char>, f: Front, scope: map<string, Ptr>, out: seq<real>, lx: Lexeme)
    requires f.pos <= |s| && f.stack == [] && NextToken(s, f.pos) == Ok(lx) && lx.token == TokenPrint
    ensures var p := PrintStatement(s, Past(f, lx));
            var id := Scan(s, Scan(s, lx.end).end);
            var name := s[id.start..id.end];
            var r := Round(s, f, scope, out);
            && (p.Err? ==> r == Halted(p.error, out))
            && (p.Ok? && name !in scope ==> r == Halted(UndefinedVariable(name), out))
            && (p.Ok? && name in scope && NumberAt(f.heap, scope[name]).Ok? ==>
                  r == Done(RoundEnd(TokenPrint, Final(p.value.(stack := []), scope, out + [NumberAt(f.heap, scope[name]).value]))))
            && (p.Ok? && name in scope && NumberAt(f.heap, scope[name]).Err? ==> r == Halted(BadValue, out))
  {
    RoundNext(s, f, scope, out, lx);
    var p := PrintStatement(s, Past(f, lx));
    if p.Ok? {
      PrintLayout(s, Past(f, lx));
      PrintStatementPrints(s, Past(f, lx), scope, out);
      var id := Scan(s, Scan(s, lx.end).end);
      var name := s[id.start..id.end];
      if name in scope {
        NumberAtPastName(f.heap, name, scope[name]);
      }
    }
  }

  /**
   * A round whose token is neither `var` nor `$print` (the `default: break;`
   * of the statement switch): nothing is compiled, so the round only moves
   * past the token and leaves the scope and the output as they were.
   */
  lemma RoundOther(s: seq<char>, f: Front, scope: map<string, Ptr>, out: seq<real>, lx: Lexeme)
    requires f.pos <= |s| && f.stack == [] && NextToken(s, f.pos) == Ok(lx)
    requires lx.token != TokenVar && lx.token != TokenPrint
    ensures Round(s, f, scope, out) == Done(RoundEnd(lx.token, Final(Past(f, lx), scope, out)))
  {
    RoundNext(s, f, scope, out, lx);
  }

  /** A name appended to the table changes no number reference. */
  lemma NumberAtPastName(heap: seq<JsValue>, name: string, q: nat)
    ensures NumberAt(heap + [NameValue(name)], q) == NumberAt(heap, q)
  {
    if q < |heap| {
      assert (heap + [NameValue(name)])[q] == heap[q];
    }
  }

  /** Every name of the scope denotes a value already on the table. */
  ghost predicate Allocated(scope: map<string, Ptr>, heap: seq<JsValue>)
  {
    forall x :: x in scope ==> scope[x] < |heap|
  }

  /**
   * `var name = e; $print(name);` with `name` unbound, as two rounds: the
   * first binds the name to a new number holding the value of `e` and
   * prints nothing; the second prints that value.
   */
  lemma VarThenPrint(s: seq<char>, f: Front, scope: map<string, Ptr>, out: seq<real>,
                     lx: Lexeme, id: Lexeme, eq: Lexeme, g: Front, pr: Lexeme, p: Front)
    requires f.pos <= |s| && f.stack == []
    requires NextToken(s, f.pos) == Ok(lx) && lx.token == TokenVar
    requires id == Scan(s, lx.end) && eq == Scan(s, id.end) && s[id.start..id.end] !in scope
    requires VarStatement(s, Past(f, lx), scope) == Ok(g)
    requires NextToken(s, g.pos) == Ok(pr) && pr.token == TokenPrint
    requires PrintStatement(s, Past(g.(stack := []), pr)) == Ok(p)
    requires var pid := Scan(s, Scan(s, pr.end).end); s[pid.start..pid.end] == s[id.start..id.end]
    ensures var name := s[id.start..id.end];
            var e := EvalFrom(s, eq.end, Past(f, lx).row + id.rows + eq.rows, Empty, scope, f.heap + [NameValue(name)]);
            var bound := Inserted(scope, name, |f.heap| + 1);
            && e.Ok?
            && Round(s, f, scope, out) == Done(RoundEnd(TokenVar, Final(g.(stack := []), bound, out)))
            && Round(s, g.(stack := []), bound, out) == Done(RoundEnd(TokenPrint, Final(p.(stack := []), bound, out + [e.value.value])))
  {
    VarStatementValue(s, Past(f, lx), scope, id, eq);
    RoundVar(s, f, scope, out, lx);
    RoundPrint(s, g.(stack := []), Inserted(scope, s[id.start..id.end], |f.heap| + 1), out, pr);
  }

  /**
   * `var name = e; $print(name);` with `name` already bound, as two rounds:
   * the first binding wins, so the first round changes neither the scope
   * nor the output, and the second prints the number bound before (or
   * stops if the old value is not a number).
   */
  lemma RedeclareThenPrint(s: seq<char>, f: Front, scope: map<string, Ptr>, out: seq<real>,
                           lx: Lexeme, id: Lexeme, g: Front, pr: Lexeme, p: Front)
    requires f.pos <= |s| && f.stack == [] && Allocated(scope, f.heap)
    requires NextToken(s, f.pos) == Ok(lx) && lx.token == TokenVar
    requires id == Scan(s, lx.end) && s[id.start..id.end] in scope
    requires VarStatement(s, Past(f, lx), scope) == Ok(g)
    requires NextToken(s, g.pos) == Ok(pr) && pr.token == TokenPrint
    requires PrintStatement(s, Past(g.(stack := []), pr)) == Ok(p)
    requires var pid := Scan(s, Scan(s, pr.end).end); s[pid.start..pid.end] == s[id.start..id.end]
    ensures var prev := NumberAt(f.heap, scope[s[id.start..id.end]]);
            && Round(s, f, scope, out) == Done(RoundEnd(TokenVar, Final(g.(stack := []), scope, out)))
            && Round(s, g.(stack := []), scope, out) ==
                 if prev.Ok? then Done(RoundEnd(TokenPrint, Final(p.(stack := []), scope, out + [prev.value])))
                 else Halted(BadValue, out)
  {
    var name := s[id.start..id.end];
    RoundVar(s, f, scope, out, lx);
    assert Inserted(scope, name, |f.heap| + 1) == scope;
    RoundPrint(s, g.(stack := []), scope, out, pr);
    VarKeepsNumber(s, Past(f, lx), scope, g, scope[name]);
  }

  /**
   * Every round keeps each name of the scope pointing into the table, and
   * only appends to the table: the states `eval` reaches from an empty
   * scope meet the requirement of `RedeclareThenPrint`.
   */
  lemma RoundKeepsAllocated(s: seq<char>, f: Front, scope: map<string, Ptr>, out: seq<real>)
    requires f.pos <= |s| && f.stack == [] && Allocated(scope, f.heap)
    ensures var r := Round(s, f, scope, out);
            r.Done? ==> Allocated(r.value.after.scope, r.value.after.front.heap) && f.heap <= r.value.after.front.heap
  {
    assert RoundLayers(s, f, scope, out, 1) == RoundLayers(s, f, scope, out, 0);
    var t := NextToken(s, f.pos);
    if t.Ok? {
      var lx := t.value;
      RoundNext(s, f, scope, out, lx);
      if lx.token == TokenVar {
        RoundVarKeepsAllocated(s, f, scope, out, lx);
      } else if lx.token == TokenPrint {
        RoundPrintKeepsAllocated(s, f, scope, out, lx);
      }
    }
  }

  /** `RoundKeepsAllocated` for a `var` round. */
  lemma RoundVarKeepsAllocated(s: seq<char>, f: Front, scope: map<string, Ptr>, out: seq<real>, lx: Lexeme)
    requires f.pos <= |s| && f.stack == [] && Allocated(scope, f.heap)
    requires NextToken(s, f.pos) == Ok(lx) && lx.token == TokenVar
    ensures var r := Round(s, f, scope, out);
            r.Done? ==> Allocated(r.value.after.scope, r.value.after.front.heap) && f.heap <= r.value.after.front.heap
  {
    RoundVar(s, f, scope, out, lx);
    var v := VarStatement(s, Past(f, lx), scope);
    if v.Ok? {
      var g := v.value;
      assert f.heap == g.heap[..|f.heap|];
      InsertedAllocated(scope, f.heap, g.heap, s[Scan(s, lx.end).start..Scan(s, lx.end).end], |f.heap| + 1);
    }
  }

  /** Binding a name to a reference into a table that extends the old one keeps every name allocated. */
  lemma InsertedAllocated(scope: map<string, Ptr>, heap: seq<JsValue>, heap': seq<JsValue>, name: string, v: Ptr)
    requires Allocated(scope, heap) && heap <= heap' && v < |heap'|
    ensures Allocated(Inserted(scope, name, v), heap')
  {
  }

  /** `RoundKeepsAllocated` for a `$print` round. */
  lemma RoundPrintKeepsAllocated(s: seq<char>, f: Front, scope: map<string, Ptr>, out: seq<real>, lx: Lexeme)
    requires f.pos <= |s| && f.stack == [] && Allocated(scope, f.heap)
    requires NextToken(s, f.pos) == Ok(lx) && lx.token == TokenPrint
    ensures var r := Round(s, f, scope, out);
            r.Done? ==> Allocated(r.value.after.scope, r.value.after.front.heap) && f.heap <= r.value.after.front.heap
  {
    RoundPrint(s, f, scope, out, lx);
    if PrintStatement(s, Past(f, lx)).Ok? {
      PrintLayout(s, Past(f, lx));
    }
  }

  /** Compiling a `var` statement only appends to the table: every older reference denotes the same number. */
  lemma VarKeepsNumber(s: seq<char>, f: Front, scope: map<string, Ptr>, g: Front, q: nat)
    requires f.pos <= |s| && VarStatement(s, f, scope) == Ok(g) && q < |f.heap|
    ensures NumberAt(g.heap, q) == NumberAt(f.heap, q)
  {
    assert g.heap[..|f.heap|][q] == g.heap[q];
  }

  /**
   * A round never takes back a printed number: the output it leaves, or the
   * output its fatal outcome ends with, extends the one it found.
   */
  lemma RoundExtendsOutput(s: seq<char>, f: Front, scope: map<string, Ptr>, out: seq<real>)
    requires f.pos <= |s|
    ensures var r := Round(s, f, scope, out);
            && (r.Done? ==> out <= r.value.after.out)
            && (r.Halted? ==> out <= r.out)
  {
    assert RoundLayers(s, f, scope, out, 1) == RoundLayers(s, f, scope, out, 0);
    var t := NextToken(s, f.pos);
    if t.Ok? {
      var c := Statement(s, t.value.token, Past(f, t.value), scope);
      if c.Ok? {
        ExecExtendsOutput(c.value.stack, c.value.heap, scope, out);
      }
    }
  }

  /**
   * The numbers a program prints only accumulate: a whole run, or a run
   * cut short by a fatal outcome, keeps every number printed before: a
   * program that prints and then reaches an unbound name keeps its output.
   */
  lemma {:induction false} InterpretExtendsOutput(s: seq<char>, f: Front, scope: map<string, Ptr>, out: seq<real>)
    requires f.pos <= |s|
    ensures var r := Interpret(s, f, scope, out);
            && (r.Done? ==> out <= r.value.out)
            && (r.Halted? ==> out <= r.out)
    decreases |s| - f.pos
  {
    var rd := Round(s, f, scope, out);
    RoundExtendsOutput(s, f, scope, out);
    if rd.Done? && rd.value.token != TokenEof {
      var a := rd.value.after;
      InterpretExtendsOutput(s, a.front, a.scope, a.out);
    }
  }

  /**
   * `var name = e; $print(name);` with `name` unbound, inside a whole
   * program: the run goes on from just after the print with the name bound
   * and the value of `e` printed.
   */
  lemma ProgramVarThenPrint(s: seq<char>, f: Front, scope: map<string, Ptr>, out: seq<real>,
                            lx: Lexeme, id: Lexeme, eq: Lexeme, g: Front, pr: Lexeme, p: Front)
    requires f.pos <= |s| && f.stack == []
    requires NextToken(s, f.pos) == Ok(lx) && lx.token == TokenVar
    requires id == Scan(s, lx.end) && eq == Scan(s, id.end) && s[id.start..id.end] !in scope
    requires VarStatement(s, Past(f, lx), scope) == Ok(g)
    requires NextToken(s, g.pos) == Ok(pr) && pr.token == TokenPrint
    requires PrintStatement(s, Past(g.(stack := []), pr)) == Ok(p)
    requires var pid := Scan(s, Scan(s, pr.end).end); s[pid.start..pid.end] == s[id.start..id.end]
    ensures var name := s[id.start..id.end];
            var e := EvalFrom(s, eq.end, Past(f, lx).row + id.rows + eq.rows, Empty, scope, f.heap + [NameValue(name)]);
            && e.Ok? && p.pos <= |s|
            && Interpret(s, f, scope, out) == Interpret(s, p.(stack := []), Inserted(scope, name, |f.heap| + 1), out + [e.value.value])
  {
    VarThenPrint(s, f, scope, out, lx, id, eq, g, pr, p);
    var name := s[id.start..id.end];
    var bound := Inserted(scope, name, |f.heap| + 1);
    var e := EvalFrom(s, eq.end, Past(f, lx).row + id.rows + eq.rows, Empty, scope, f.heap + [NameValue(name)]);
    InterpretTwoRounds(s, f, scope, out, TokenVar, Final(g.(stack := []), bound, out),
                       TokenPrint, Final(p.(stack := []), bound, out + [e.value.value]));
  }

  /** Two rounds in a row, neither at the end of the file: the program goes on from where the second left off. */
  lemma InterpretTwoRounds(s: seq<char>, f: Front, scope: map<string, Ptr>, out: seq<real>,
                           t1: Token, a1: Final, t2: Token, a2: Final)
    requires f.pos <= |s| && Round(s, f, scope, out) == Done(RoundEnd(t1, a1)) && t1 != TokenEof
    requires a1.front.pos <= |s| && Round(s, a1.front, a1.scope, a1.out) == Done(RoundEnd(t2, a2)) && t2 != TokenEof
    ensures a2.front.pos <= |s|
    ensures Interpret(s, f, scope, out) == Interpret(s, a2.front, a2.scope, a2.out)
  {
    assert Interpret(s, f, scope, out) == Interpret(s, a1.front, a1.scope, a1.out);
  }

  /**
   * `$print(name)` with `name` unbound ends the whole program with the
   * undefined-variable error, printing nothing more.
   */
  lemma ProgramPrintUnbound(s: seq<char>, f: Front, scope: map<string, Ptr>, out: seq<real>, lx: Lexeme)
    requires f.pos <= |s| && f.stack == [] && NextToken(s, f.pos) == Ok(lx) && lx.token == TokenPrint
    requires PrintStatement(s, Past(f, lx)).Ok?
    requires var id := Scan(s, Scan(s, lx.end).end); s[id.start..id.end] !in scope
    ensures var id := Scan(s, Scan(s, lx.end).end);
            Interpret(s, f, scope, out) == Halted(UndefinedVariable(s[id.start..id.end]), out)
  {
    RoundPrint(s, f, scope, out, lx);
  }
}
