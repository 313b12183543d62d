/**
 * The interpreter of mjs.cc as it runs: the globals (`tmpID`, `tmpNumVal`,
 * `current_row`, `global`, `dataStack`), the open file (its text, position
 * and end-of-file flag) and every value `new` has allocated become the
 * fields of one object, and each function of the source becomes a method
 * that updates them step by step.  Every method is proved to leave the
 * state that the pure model of the same function computes.
 */
module Interp {
  import opened Bytes
  import opened Values
  import opened Lexer
  import opened Scopes
  import opened Evaluator
  import opened Machine
  import opened Compiler

  /** The kind of the token `getToken` reads at `i`, or the `stod` failure. */
  function TokenResult(s: seq<char>, i: nat): Result<Token>
    requires i <= |s|
  {
    var t := NextToken(s, i);
    if t.Err? then Err(t.error) else Ok(t.value.token)
  }

  /**
   * Reading a token at `i` is reading it where the white space after `i`
   * ends, with the line breaks of that white space counted.
   */
  lemma ScanAfterSpace(s: seq<char>, i: nat)
    requires i <= |s|
    ensures var j := SkipSpace(s, i);
            && Scan(s, i) == Scan(s, j).(rows := Count(s[i..j], '\n'))
            && TokenResult(s, i) == TokenResult(s, j)
            && (Scan(s, i).token == TokenNum && TokenResult(s, i).Ok? ==> NumberValue(s, i) == NumberValue(s, j))
  {
    var j := SkipSpace(s, i);
    ScanUnfold(s, i);
    ScanUnfold(s, j);
    assert SkipSpace(s, j) == j;
    assert s[j..j] == [];
  }

  /** A token that starts right at `i` with a digit or '.' is a number running to `NumberTokenEnd`. */
  lemma ScanAtNumber(s: seq<char>, i: nat)
    requires i < |s| && (IsDigit(s[i]) || s[i] == '.')
    ensures Scan(s, i) == Lexeme(TokenNum, i, NumberTokenEnd(s, i), 0)
  {
    ScanUnfold(s, i);
    assert SkipSpace(s, i) == i && s[i..i] == [];
  }

  /** A token that starts right at `i` with a name character is a word running to `IdentEnd`. */
  lemma ScanAtWord(s: seq<char>, i: nat)
    requires i < |s| && IsIdentStart(s[i])
    ensures Scan(s, i) == Lexeme(KeywordOrId(s[i..IdentEnd(s, i + 1)]), i, IdentEnd(s, i + 1), 0)
  {
    ScanUnfold(s, i);
    assert SkipSpace(s, i) == i && s[i..i] == [];
  }

  /**
   * Stepping back one character after an operator token (`fseek(fp, -1L,
   * SEEK_CUR)`) and scanning again reads the same operator, with no line
   * break before it.
   */
  lemma RescanOperator(s: seq<char>, i: nat)
    requires i <= |s| && OperatorOf(Scan(s, i).token).Some?
    ensures var lx := Scan(s, i);
            lx.end == lx.start + 1 && Scan(s, lx.start) == Lexeme(lx.token, lx.start, lx.end, 0)
  {
    var lx := Scan(s, i);
    ScanUnfold(s, i);
    ScanUnfold(s, lx.start);
    assert SkipSpace(s, lx.start) == lx.start;
    assert s[lx.start..lx.start] == [];
  }

  /**
   * The drain branch of the expression loop: draining the operator stack,
   * stepping back before the operator and reading it again is the step the
   * evaluator takes on that operator; a drain that runs out of operands
   * ends the loop.
   */
  lemma EvalFromRescan(s: seq<char>, i: nat, row: int, st: ExprState, scope: map<string, Ptr>, heap: seq<JsValue>,
                       lx: Lexeme, op: OpCode)
    requires i <= |s| && NextToken(s, i) == Ok(lx) && OperatorOf(lx.token) == Some(op)
    requires st.ops != [] && Prec(op) <= Prec(st.ops[|st.ops| - 1])
    ensures i <= lx.start && lx.end == lx.start + 1 <= |s|
    ensures var d := DrainAll(st);
            && (d.Err? ==> EvalFrom(s, i, row, st, scope, heap) == Err(d.error))
            && (d.Ok? ==> EvalFrom(s, i, row, st, scope, heap) == EvalFrom(s, lx.start, row + lx.rows, d.value, scope, heap))
  {
    RescanOperator(s, i);
    var d := DrainAll(st);
    if d.Err? {
      DrainFails(s, i, row, st, scope, heap, lx, op);
    } else {
      var x := Operator(op);
      assert ExprTokOf(s, i, scope, heap) == Ok(x);
      EvalFromStep(s, i, row, st, scope, heap, lx, x, d.value.(ops := [op]));
      RescanAt(s, i, row + lx.rows, scope, heap, lx, op, d.value.nums);
    }
  }

  /** An operator whose drain runs out of operands ends the expression loop with that error. */
  lemma DrainFails(s: seq<char>, i: nat, row: int, st: ExprState, scope: map<string, Ptr>, heap: seq<JsValue>,
                   lx: Lexeme, op: OpCode)
    requires i <= |s| && NextToken(s, i) == Ok(lx) && OperatorOf(lx.token) == Some(op)
    requires st.ops != [] && Prec(op) <= Prec(st.ops[|st.ops| - 1]) && DrainAll(st).Err?
    ensures EvalFrom(s, i, row, st, scope, heap) == Err(DrainAll(st).error)
  {
    assert ExprTokOf(s, i, scope, heap) == Ok(Operator(op));
    EvalFromUnfold(s, i, row, st, scope, heap);
  }

  /** Reading the operator again from its own start pushes it onto the drained, empty operator stack. */
  lemma RescanAt(s: seq<char>, i: nat, row: int, scope: map<string, Ptr>, heap: seq<JsValue>,
                 lx: Lexeme, op: OpCode, drained: seq<real>)
    requires i <= |s| && NextToken(s, i) == Ok(lx) && OperatorOf(lx.token) == Some(op)
    ensures i <= lx.start && lx.end == lx.start + 1 <= |s|
    ensures EvalFrom(s, lx.start, row, ExprState(drained, []), scope, heap)
            == EvalFrom(s, lx.end, row, ExprState(drained, [op]), scope, heap)
  {
    RescanOperator(s, i);
    var again := Lexeme(lx.token, lx.start, lx.end, 0);
    assert NextToken(s, lx.start) == Ok(again);
    assert [] + [op] == [op];
    EvalFromPush(s, lx.start, row, ExprState(drained, []), scope, heap, again, op);
  }

  /** A one-byte value is its own encoding. */
  lemma OneByte(b: byte)
    ensures b as nat < Pow256(CodeSize) && ToBytes(b as nat, CodeSize) == [b]
    ensures forall t: seq<byte> :: |t| == CodeSize ==> FromBytes(t) == t[0] as nat
  {
    forall t: seq<byte> | |t| == CodeSize
      ensures FromBytes(t) == t[0] as nat
    {
      assert FromBytes(t[1..]) == 0;
    }
  }

  /**
   * `while (!opStack.empty()) { op = opStack.top(); push(calc(op)); }`:
   * reduce until no operator is left; the operand stack that remains.
   */
  method Drain(nums: seq<real>, ops: seq<OpCode>) returns (r: Result<seq<real>>)
    ensures var d := DrainAll(ExprState(nums, ops));
            && (r.Ok? <==> d.Ok?)
            && (r.Ok? ==> r.value == d.value.nums)
            && (r.Err? ==> r.error == d.error)
  {
    var numStack := nums;
    var opStack := ops;
    while opStack != []
      invariant DrainAll(ExprState(numStack, opStack)) == DrainAll(ExprState(nums, ops))
      decreases |opStack|
    {
      var op := opStack[|opStack| - 1];
      opStack := opStack[..|opStack| - 1];
      if |numStack| < 2 {
        return Err(OperandUnderflow);
      }
      var v2 := numStack[|numStack| - 1];
      var v1 := numStack[|numStack| - 2];
      numStack := numStack[..|numStack| - 2] + [Apply(op, v1, v2)];
    }
    return Ok(numStack);
  }

  /**
   * The end of `parseExpression`'s loop: drain the operator stack, then the
   * operand on top is the value (there being none is operand underflow).
   */
  method Conclude(nums: seq<real>, ops: seq<OpCode>) returns (r: Result<real>)
    ensures r == Finish(ExprState(nums, ops))
  {
    var drained := Drain(nums, ops);
    if drained.Err? {
      return Err(drained.error);
    }
    if drained.value == [] {
      return Err(OperandUnderflow);
    }
    return Ok(drained.value[|drained.value| - 1]);
  }

  class Interpreter {
    /** The program text behind `FILE *fp`. */
    const input: seq<char>
    /** The file position: the index of the next character `fgetc` reads. */
    var pos: nat
    /** `feof(fp)` */
    var eof: bool
    /** `current_row` */
    var currentRow: int
    /** `tmpID`: the text of the last ID token. */
    var tmpID: string
    /** `tmpNumVal`: the value of the last NUM token. */
    var tmpNumVal: real
    /** `dataStack`, top last. */
    var dataStack: seq<byte>
    /** Every `JsValue` allocated so far; a `JsValue *` is an index into it. */
    var heap: seq<JsValue>
    /** `global` */
    const global: Scope
    /** The numbers written to standard output, in order. */
    var output: seq<real>

    ghost predicate Valid()
      reads this
    {
      pos <= |input|
    }

    /** The part of the state the front end works on. */
    ghost function State(): Front
      reads this
    {
      Front(pos, currentRow, dataStack, heap)
    }

    /** `fopen` of the program and the initial values of the globals. */
    constructor (program: seq<char>)
      ensures Valid() && input == program && !eof
      ensures State() == Front(0, 1, [], []) && output == []
      ensures fresh(global) && global.values == map[]
    {
      input := program;
      pos := 0;
      eof := false;
      currentRow := 1;
      tmpID := "";
      tmpNumVal := 0.0;
      dataStack := [];
      heap := [];
      global := new Scope();
      output := [];
    }

    /** `Push<T>` with sizeof(T) == size: the bytes of `x`, least significant first, each pushed in turn. */
    method Push(x: nat, size: nat)
      requires x < Pow256(size)
      modifies this`dataStack
      ensures dataStack == old(dataStack) + ToBytes(x, size)
    {
      var buf := ToBytes(x, size);
      var n := size;
      while n > 0
        invariant 0 <= n <= size
        invariant dataStack == old(dataStack) + buf[..size - n]
      {
        n := n - 1;
        dataStack := dataStack + [buf[size - n - 1]];
        assert buf[..size - n] == buf[..size - n - 1] + [buf[size - n - 1]];
      }
      assert buf[..size] == buf;
    }

    /**
     * `Pop<T>` with sizeof(T) == size: pop `size` bytes, the top one into
     * the last slot, and decode them.  Popping more bytes than the stack
     * holds is the stack-underflow outcome.
     */
    method Pop(size: nat) returns (r: Result<nat>)
      modifies this`dataStack
      ensures r.Ok? <==> |old(dataStack)| >= size
      ensures r.Err? ==> r.error == StackUnderflow && dataStack == old(dataStack)
      ensures r.Ok? ==> r.value == FromBytes(old(dataStack)[|old(dataStack)| - size..])
      ensures r.Ok? ==> dataStack == old(dataStack)[..|old(dataStack)| - size]
    {
      if |dataStack| < size {
        return Err(StackUnderflow);
      }
      ghost var base := |dataStack| - size;
      var buf: seq<byte> := seq(size, _ => 0);
      var n := size;
      while n > 0
        invariant 0 <= n <= size && |buf| == size
        invariant dataStack == old(dataStack)[..base + n]
        invariant buf[n..] == old(dataStack)[base + n..]
      {
        n := n - 1;
        buf := buf[n := dataStack[|dataStack| - 1]];
        dataStack := dataStack[..|dataStack| - 1];
      }
      assert buf == buf[0..];
      return Ok(FromBytes(buf));
    }

    /** `new JsValue(...)`: the value is appended to the table and its reference returned. */
    method NewValue(v: JsValue) returns (r: Result<Ptr>)
      modifies this`heap
      ensures r.Ok? <==> |old(heap)| < MaxValues
      ensures r.Ok? ==> r.value == |old(heap)| && heap == old(heap) + [v]
      ensures r.Err? ==> r.error == OutOfMemory && heap == old(heap)
    {
      if |heap| >= MaxValues {
        return Err(OutOfMemory);
      }
      r := Ok(|heap|);
      heap := heap + [v];
    }

    /** The identifier loop of `getToken`: read identifier characters from `p` on; the first other one is left unread. */
    method IdentRun(p: nat) returns (e: nat)
      requires p <= |input|
      ensures e == IdentEnd(input, p)
    {
      e := p;
      while e < |input| && IsIdentChar(input[e])
        invariant p <= e <= |input|
        invariant IdentEnd(input, e) == IdentEnd(input, p)
      {
        e := e + 1;
      }
    }

    /**
     * The number loop of `getToken` for the token starting at `start`: read
     * digits, and one dot while the counter `dot` (one unless the token
     * starts with a dot) allows it.
     */
    method NumberRun(start: nat) returns (e: nat)
      requires start < |input| && (IsDigit(input[start]) || input[start] == '.')
      ensures e == NumberTokenEnd(input, start)
    {
      var dot := input[start] != '.';
      e := start + 1;
      while e < |input| && (IsDigit(input[e]) || (input[e] == '.' && dot))
        invariant start < e <= |input|
        invariant NumberEnd(input, e, dot) == NumberTokenEnd(input, start)
      {
        if !IsDigit(input[e]) {
          dot := false;
        }
        e := e + 1;
      }
    }

    /**
     * `getToken`: skip white space counting line breaks, then read one
     * token (`ReadToken`), or report the end of the file.
     */
    method GetToken() returns (r: Result<Token>)
      requires Valid()
      modifies this`pos, this`eof, this`currentRow, this`tmpID, this`tmpNumVal
      ensures Valid()
      ensures var lx := Scan(input, old(pos));
              && pos == lx.end && currentRow == old(currentRow) + lx.rows
              && eof == (lx.token == TokenEof)
              && (r.Ok? ==> NextToken(input, old(pos)) == Ok(lx) && r.value == lx.token)
              && (r.Err? ==> NextToken(input, old(pos)) == Err(r.error))
              && (lx.token == TokenId ==> tmpID == input[lx.start..lx.end])
              && (lx.token != TokenId ==> tmpID == old(tmpID))
              && (lx.token == TokenNum && r.Ok? ==> tmpNumVal == NumberValue(input, old(pos)))
              && (lx.token != TokenNum || r.Err? ==> tmpNumVal == old(tmpNumVal))
    {
      var p := pos;
      while p < |input| && IsSpace(input[p])
        invariant old(pos) <= p <= |input|
        invariant SkipSpace(input, p) == SkipSpace(input, old(pos))
        invariant currentRow == old(currentRow) + Count(input[old(pos)..p], '\n')
        invariant tmpID == old(tmpID) && tmpNumVal == old(tmpNumVal)
      {
        assert input[old(pos)..p + 1][..p - old(pos)] == input[old(pos)..p];
        if input[p] == '\n' {
          currentRow := currentRow + 1;
        }
        p := p + 1;
      }
      ScanAfterSpace(input, old(pos));
      pos := p;
      if p == |input| {
        eof := true;
        return Ok(TokenEof);
      }
      eof := false;
      r := ReadToken();
    }

    /**
     * The rest of `getToken` from the first character that is not white
     * space: an operator or punctuation character, an identifier or keyword,
     * a number (converted with `stod`), a bracket, or an unknown character.
     * An identifier or number is read up to the first character that cannot
     * continue it, which is left unread.
     */
    method ReadToken() returns (r: Result<Token>)
      requires pos < |input| && !IsSpace(input[pos])
      modifies this`pos, this`tmpID, this`tmpNumVal
      ensures Valid()
      ensures var lx := Scan(input, old(pos));
              && pos == lx.end
              && r == TokenResult(input, old(pos))
              && (lx.token == TokenId ==> tmpID == input[lx.start..lx.end])
              && (lx.token != TokenId ==> tmpID == old(tmpID))
              && (lx.token == TokenNum && r.Ok? ==> tmpNumVal == NumberValue(input, old(pos)))
              && (lx.token != TokenNum || r.Err? ==> tmpNumVal == old(tmpNumVal))
    {
      var ch := input[pos];
      if IsIdentStart(ch) {
        r := ReadWord();
        return;
      }
      if IsDigit(ch) || ch == '.' {
        r := ReadNumber();
        return;
      }
      ScanUnfold(input, pos);
      assert SkipSpace(input, pos) == pos && input[pos..pos] == [];
      pos := pos + 1;
      if ch == '=' || ch == '+' || ch == '-' || ch == '*' || ch == '/' || ch == ';' {
        return Ok(PunctToken(ch).value);
      } else if ch == '(' {
        return Ok(TokenLBracket);
      } else if ch == ')' {
        return Ok(TokenRBracket);
      }
      return Ok(TokenUnknown);
    }

    /** An identifier or keyword: `[a-zA-Z_$][a-zA-Z0-9_$]*`; the text of an ID is kept in `tmpID`. */
    method ReadWord() returns (r: Result<Token>)
      requires pos < |input| && IsIdentStart(input[pos])
      modifies this`pos, this`tmpID
      ensures Valid()
      ensures var lx := Scan(input, old(pos));
              && pos == lx.end
              && r == TokenResult(input, old(pos))
              && (lx.token == TokenId ==> tmpID == input[lx.start..lx.end])
              && (lx.token != TokenId ==> tmpID == old(tmpID))
    {
      ScanAtWord(input, pos);
      var start := pos;
      var p := IdentRun(pos + 1);
      pos := p;
      var name := input[start..p];
      if name == "var" {
        return Ok(TokenVar);
      } else if name == "$print" {
        return Ok(TokenPrint);
      }
      tmpID := name;
      return Ok(TokenId);
    }

    /**
     * A number: digits with at most one '.', converted with `stod`; a lone
     * "." is the exception `stod` raises.
     */
    method ReadNumber() returns (r: Result<Token>)
      requires pos < |input| && (IsDigit(input[pos]) || input[pos] == '.')
      modifies this`pos, this`tmpNumVal
      ensures Valid()
      ensures var lx := Scan(input, old(pos));
              && pos == lx.end
              && r == TokenResult(input, old(pos))
              && (r.Ok? ==> tmpNumVal == NumberValue(input, old(pos)))
              && (r.Err? ==> tmpNumVal == old(tmpNumVal))
    {
      ScanAtNumber(input, pos);
      var start := pos;
      var p := NumberRun(start);
      pos := p;
      var text := input[start..p];
      if text == "." {
        return Err(InvalidNumber(text));
      }
      ScanNumber(input, start);
      tmpNumVal := DecimalValue(text).value;
      return Ok(TokenNum);
    }

    /**
     * `parseExpression`: evaluate the expression up to ';', allocate its
     * value as a number and push the reference.
     */
    method ParseExpression() returns (r: Result<()>)
      requires Valid()
      modifies this`pos, this`eof, this`currentRow, this`tmpID, this`tmpNumVal, this`dataStack, this`heap
      ensures Valid()
      ensures var spec := Expression(input, old(State()), global.values);
              && (r.Ok? <==> spec.Ok?)
              && (r.Ok? ==> State() == spec.value && !eof)
              && (r.Err? ==> r.error == spec.error)
    {
      ghost var f0 := State();
      var v := EvalExpression();
      if v.Err? {
        return Err(v.error);
      }
      var ret := NewValue(JsValue(JsTagNum, Float64(v.value)));
      if ret.Err? {
        return Err(ret.error);
      }
      Push(ret.value, PtrSize);
      return Ok(());
    }

    /**
     * The token loop of `parseExpression`, with an operand stack and an
     * operator stack: an operator whose precedence does not exceed the top's
     * drains the operator stack and is read again; at ';' the operators left
     * are applied and the operand on top is the value.
     */
    method EvalExpression() returns (r: Result<real>)
      requires Valid()
      modifies this`pos, this`eof, this`currentRow, this`tmpID, this`tmpNumVal
      ensures Valid()
      ensures var spec := EvalFrom(input, old(pos), old(currentRow), Empty, global.values, heap);
              && (r.Ok? <==> spec.Ok?)
              && (r.Ok? ==> r.value == spec.value.value && pos == spec.value.end && currentRow == spec.value.row && !eof)
              && (r.Err? ==> r.error == spec.error)
    {
      ghost var spec := EvalFrom(input, pos, currentRow, Empty, global.values, heap);
      var st := Empty;
      while true
        invariant Valid()
        invariant EvalFrom(input, pos, currentRow, st, global.values, heap) == spec
        decreases |input| - pos, |st.ops|
      {
        var next, semi := ExpressionToken(st);
        if next.Err? {
          return Err(next.error);
        }
        if semi {
          break;
        }
        st := next.value;
      }
      r := Conclude(st.nums, st.ops);
    }

    /**
     * One pass of `parseExpression`'s token loop from the evaluator state
     * `st`: `semi` tells that the token was the terminating ';', which leaves
     * the stacks as they are.
     */
    method ExpressionToken(st: ExprState) returns (r: Result<ExprState>, semi: bool)
      requires Valid()
      modifies this`pos, this`eof, this`currentRow, this`tmpID, this`tmpNumVal
      ensures Valid() && old(pos) <= pos
      ensures var before := EvalFrom(input, old(pos), old(currentRow), st, global.values, heap);
              && (r.Err? ==> before == Err(r.error))
              && (r.Ok? && semi ==>
                    var v := Finish(st);
                    !eof && before == if v.Err? then Err(v.error) else Ok(ExprEnd(v.value, pos, currentRow)))
              && (r.Ok? && !semi ==>
                    (old(pos) < pos || |r.value.ops| < |st.ops|)
                    && EvalFrom(input, pos, currentRow, r.value, global.values, heap) == before)
    {
      ghost var p0, r0 := pos, currentRow;
      var t := GetToken();
      if t.Err? {
        EvalFromStops(input, p0, r0, st, global.values, heap);
        return Err(t.error), false;
      }
      ghost var lx := Scan(input, p0);
      var token := t.value;
      if token == TokenSemi {
        EvalFromSemi(input, p0, r0, st, global.values, heap, pos, currentRow);
        return Ok(st), true;
      }
      if token == TokenEof {
        EvalFromStops(input, p0, r0, st, global.values, heap);
        return Err(UnterminatedExpression), false;
      }
      if token == TokenNum || token == TokenId {
        r := OperandToken(st, token, p0, r0, lx);
      } else if OperatorOf(token).Some? {
        var next := OperatorToken(OperatorOf(token).value, st.nums, st.ops, p0, r0, lx);
        if next.Err? {
          return Err(next.error), false;
        }
        r := Ok(ExprState(next.value.0, next.value.1));
      } else {
        EvalFromSkip(input, p0, r0, st, global.values, heap, lx);
        r := Ok(st);
      }
      semi := false;
    }

    /**
     * An operand inside `parseExpression`: the number just read, or the
     * number bound to the name just read, pushed on the operand stack; an
     * unbound name stops the expression.
     */
    method OperandToken(st: ExprState, token: Token, ghost p0: nat, ghost r0: int, ghost lx: Lexeme) returns (r: Result<ExprState>)
      requires Valid()
      requires p0 <= |input| && NextToken(input, p0) == Ok(lx) && lx.token == token
      requires token == TokenNum || token == TokenId
      requires token == TokenNum ==> tmpNumVal == NumberValue(input, p0)
      requires token == TokenId ==> tmpID == input[lx.start..lx.end]
      ensures var before := EvalFrom(input, p0, r0, st, global.values, heap);
              && (r.Err? ==> before == Err(r.error))
              && (r.Ok? ==> EvalFrom(input, lx.end, r0 + lx.rows, r.value, global.values, heap) == before)
    {
      if token == TokenNum {
        r := Ok(st.(nums := st.nums + [tmpNumVal]));
        EvalFromStep(input, p0, r0, st, global.values, heap, lx, Operand(tmpNumVal), r.value);
      } else {
        var value := Resolve(tmpID);
        if value.Err? {
          EvalFromStops(input, p0, r0, st, global.values, heap);
          return Err(value.error);
        }
        r := Ok(st.(nums := st.nums + [value.value]));
        EvalFromStep(input, p0, r0, st, global.values, heap, lx, Operand(value.value), r.value);
      }
    }

    /**
     * An operator inside `parseExpression`: pushed when the operator stack
     * is empty or its top binds less tightly; otherwise the operator stack
     * is drained and the position steps back one character
     * (`fseek(fp, -1L, SEEK_CUR)`) so that the operator is read again.
     */
    method OperatorToken(op: OpCode, nums: seq<real>, ops: seq<OpCode>, ghost p0: nat, ghost r0: int, ghost lx: Lexeme)
      returns (r: Result<(seq<real>, seq<OpCode>)>)
      requires p0 <= |input| && NextToken(input, p0) == Ok(lx) && OperatorOf(lx.token) == Some(op)
      requires pos == lx.end && currentRow == r0 + lx.rows
      modifies this`pos
      ensures Valid() && p0 <= pos
      ensures var before := EvalFrom(input, p0, r0, ExprState(nums, ops), global.values, heap);
              && (r.Err? ==> before == Err(r.error))
              && (r.Ok? ==> (p0 < pos || |r.value.1| < |ops|)
                            && EvalFrom(input, pos, currentRow, ExprState(r.value.0, r.value.1), global.values, heap) == before)
    {
      if ops == [] || Prec(op) > Prec(ops[|ops| - 1]) {
        EvalFromPush(input, p0, r0, ExprState(nums, ops), global.values, heap, lx, op);
        return Ok((nums, ops + [op]));
      }
      r := DrainOperator(op, nums, ops, p0, r0, lx);
    }

    /**
     * An operator that does not bind more tightly than the top: drain the
     * operator stack and step back one character so that it is read again.
     */
    method DrainOperator(op: OpCode, nums: seq<real>, ops: seq<OpCode>, ghost p0: nat, ghost r0: int, ghost lx: Lexeme)
      returns (r: Result<(seq<real>, seq<OpCode>)>)
      requires p0 <= |input| && NextToken(input, p0) == Ok(lx) && OperatorOf(lx.token) == Some(op)
      requires ops != [] && Prec(op) <= Prec(ops[|ops| - 1])
      requires pos == lx.end && currentRow == r0 + lx.rows
      modifies this`pos
      ensures Valid() && p0 <= pos
      ensures var before := EvalFrom(input, p0, r0, ExprState(nums, ops), global.values, heap);
              && (r.Err? ==> before == Err(r.error))
              && (r.Ok? ==> r.value.1 == [] && pos == lx.start
                            && EvalFrom(input, pos, currentRow, ExprState(r.value.0, []), global.values, heap) == before)
    {
      EvalFromRescan(input, p0, r0, ExprState(nums, ops), global.values, heap, lx, op);
      var drained := Drain(nums, ops);
      if drained.Err? {
        return Err(drained.error);
      }
      assert ExprState(drained.value, []) == DrainAll(ExprState(nums, ops)).value;
      pos := pos - 1;
      return Ok((drained.value, []));
    }

    /** An identifier operand: `global.get(tmpID)->val.float64`. */
    method Resolve(name: string) returns (r: Result<real>)
      ensures r == ResolveId(name, global.values, heap)
    {
      var bound := global.Get(name);
      if bound.Err? {
        return Err(bound.error);
      }
      r := NumberAt(heap, bound.value);
    }

    /**
     * The name-pushing step both statements share: copy `tmpID` into a new
     * string value and push its reference.
     */
    method PushName() returns (r: Result<()>)
      modifies this`dataStack, this`heap
      ensures var spec := Alloc(old(State()), NameValue(old(tmpID)));
              && (r.Ok? <==> spec.Ok?)
              && (r.Ok? ==> State() == spec.value)
              && (r.Err? ==> r.error == spec.error)
    {
      var name := NewValue(NameValue(tmpID));
      if name.Err? {
        return Err(name.error);
      }
      Push(name.value, PtrSize);
      return Ok(());
    }

    /**
     * `parseVarStatement`, after `var`: an ID, whose name is allocated and
     * pushed, then the rest of the statement.
     */
    method ParseVarStatement() returns (r: Result<()>)
      requires Valid()
      modifies this`pos, this`eof, this`currentRow, this`tmpID, this`tmpNumVal, this`dataStack, this`heap
      ensures Valid()
      ensures var spec := VarStatement(input, old(State()), global.values);
              && (r.Ok? <==> spec.Ok?)
              && (r.Ok? ==> State() == spec.value && !eof)
              && (r.Err? ==> r.error == spec.error)
    {
      ghost var f0 := State();
      ghost var spec := VarStatement(input, f0, global.values);
      var token := GetToken();
      if token.Err? {
        return Err(token.error);
      }
      ghost var lx := Scan(input, f0.pos);
      VarStatementNext(input, f0, global.values, lx);
      if token.value != TokenId {
        return Err(NoIdAfterVar(currentRow));
      }
      assert State() == Past(f0, lx) && tmpID == input[lx.start..lx.end];
      ghost var named := Alloc(State(), NameValue(tmpID));
      assert spec == if named.Err? then Err(named.error) else VarValue(input, named.value, global.values);
      var pushed := PushName();
      if pushed.Err? {
        return Err(pushed.error);
      }
      r := ParseVarValue();
    }

    /** The rest of `parseVarStatement` once the name is pushed: '=', the expression, then ASSIGN. */
    method ParseVarValue() returns (r: Result<()>)
      requires Valid()
      modifies this`pos, this`eof, this`currentRow, this`tmpID, this`tmpNumVal, this`dataStack, this`heap
      ensures Valid()
      ensures var spec := VarValue(input, old(State()), global.values);
              && (r.Ok? <==> spec.Ok?)
              && (r.Ok? ==> State() == spec.value && !eof)
              && (r.Err? ==> r.error == spec.error)
    {
      ghost var f0 := State();
      ghost var spec := VarValue(input, f0, global.values);
      var token := GetToken();
      if token.Err? {
        return Err(token.error);
      }
      ghost var lx := Scan(input, f0.pos);
      VarValueNext(input, f0, global.values, lx);
      if token.value != TokenEqual {
        return Err(NoEqualAfterId(currentRow));
      }
      assert State() == Past(f0, lx);
      ghost var e := Expression(input, State(), global.values);
      assert spec == if e.Err? then Err(e.error) else Ok(e.value.(stack := e.value.stack + [Code(OpAssign)]));
      var parsed := ParseExpression();
      if parsed.Err? {
        return Err(parsed.error);
      }
      assert State() == e.value;
      OneByte(Code(OpAssign));
      Push(Code(OpAssign) as nat, CodeSize);
      assert State() == spec.value;
      return Ok(());
    }

    /**
     * `parsePrintStatement`, after `$print`: '(' then the rest of the
     * statement.
     */
    method ParsePrintStatement() returns (r: Result<()>)
      requires Valid()
      modifies this`pos, this`eof, this`currentRow, this`tmpID, this`tmpNumVal, this`dataStack, this`heap
      ensures Valid()
      ensures var spec := PrintStatement(input, old(State()));
              && (r.Ok? <==> spec.Ok?)
              && (r.Ok? ==> State() == spec.value && !eof)
              && (r.Err? ==> r.error == spec.error)
    {
      ghost var f0 := State();
      ghost var spec := PrintStatement(input, f0);
      var token := GetToken();
      if token.Err? {
        return Err(token.error);
      }
      ghost var lx := Scan(input, f0.pos);
      PrintStatementNext(input, f0, lx);
      if token.value != TokenLBracket {
        return Err(NoLBracketAfterPrint(currentRow));
      }
      assert State() == Past(f0, lx);
      r := ParsePrintName();
    }

    /** The rest of `parsePrintStatement` after '(': an ID, whose name is allocated and pushed, then ')'. */
    method ParsePrintName() returns (r: Result<()>)
      requires Valid()
      modifies this`pos, this`eof, this`currentRow, this`tmpID, this`tmpNumVal, this`dataStack, this`heap
      ensures Valid()
      ensures var spec := PrintName(input, old(State()));
              && (r.Ok? <==> spec.Ok?)
              && (r.Ok? ==> State() == spec.value && !eof)
              && (r.Err? ==> r.error == spec.error)
    {
      ghost var f0 := State();
      ghost var spec := PrintName(input, f0);
      var token := GetToken();
      if token.Err? {
        return Err(token.error);
      }
      ghost var lx := Scan(input, f0.pos);
      PrintNameNext(input, f0, lx);
      if token.value != TokenId {
        return Err(NoIdInPrint(currentRow));
      }
      assert State() == Past(f0, lx) && tmpID == input[lx.start..lx.end];
      ghost var named := Alloc(State(), NameValue(tmpID));
      assert spec == if named.Err? then Err(named.error) else PrintClose(input, named.value);
      var pushed := PushName();
      if pushed.Err? {
        return Err(pushed.error);
      }
      r := ParsePrintClose();
    }

    /** The end of `parsePrintStatement`: ')', then the PRINT opcode. */
    method ParsePrintClose() returns (r: Result<()>)
      requires Valid()
      modifies this`pos, this`eof, this`currentRow, this`tmpID, this`tmpNumVal, this`dataStack
      ensures Valid()
      ensures var spec := PrintClose(input, old(State()));
              && (r.Ok? <==> spec.Ok?)
              && (r.Ok? ==> State() == spec.value && !eof)
              && (r.Err? ==> r.error == spec.error)
    {
      ghost var f0 := State();
      ghost var spec := PrintClose(input, f0);
      var token := GetToken();
      if token.Err? {
        return Err(token.error);
      }
      ghost var lx := Scan(input, f0.pos);
      PrintCloseNext(input, f0, lx);
      if token.value != TokenRBracket {
        return Err(NoRBracketAfterPrint(currentRow));
      }
      assert State() == Past(f0, lx);
      OneByte(Code(OpPrint));
      Push(Code(OpPrint) as nat, CodeSize);
      assert State() == spec.value;
      return Ok(());
    }

    /** The ASSIGN entry of `dispatchTable`: pop the value, pop the name, `global.set(name, value)`. */
    method Assign() returns (r: Result<()>)
      modifies this`dataStack, global
      ensures var spec := Dispatch(Code(OpAssign), old(dataStack), heap, old(global.values), output);
              && (r.Ok? <==> spec.Ok?)
              && (r.Ok? ==> dataStack == spec.value.stack && global.values == spec.value.scope)
              && (r.Err? ==> r.error == spec.error)
    {
      var value := Pop(PtrSize);
      if value.Err? {
        return Err(value.error);
      }
      var nameRef := Pop(PtrSize);
      if nameRef.Err? {
        return Err(nameRef.error);
      }
      var name := NameAt(heap, nameRef.value);
      if name.Err? {
        return Err(name.error);
      }
      global.Set(name.value, value.value);
      return Ok(());
    }

    /** The PRINT entry of `dispatchTable`: pop the name and write the number bound to it. */
    method Print() returns (r: Result<()>)
      modifies this`dataStack, this`output
      ensures var spec := Dispatch(Code(OpPrint), old(dataStack), heap, global.values, old(output));
              && (r.Ok? <==> spec.Ok?)
              && (r.Ok? ==> dataStack == spec.value.stack && output == spec.value.out)
              && (r.Err? ==> r.error == spec.error && output == old(output))
    {
      var nameRef := Pop(PtrSize);
      if nameRef.Err? {
        return Err(nameRef.error);
      }
      var name := NameAt(heap, nameRef.value);
      if name.Err? {
        return Err(name.error);
      }
      var bound := global.Get(name.value);
      if bound.Err? {
        return Err(bound.error);
      }
      var value := NumberAt(heap, bound.value);
      if value.Err? {
        return Err(value.error);
      }
      output := output + [value.value];
      return Ok(());
    }

    /**
     * `run`: pop an opcode and call its handler until the stack is empty;
     * an opcode with no handler stops the machine.
     */
    method Run() returns (r: Result<()>)
      modifies this`dataStack, this`output, global
      ensures var spec := Exec(old(dataStack), heap, old(global.values), old(output));
              && (r.Ok? <==> spec.Done?)
              && (r.Ok? ==> dataStack == [] && global.values == spec.value.scope && output == spec.value.out)
              && (r.Err? ==> r.error == spec.error && output == spec.out)
    {
      while dataStack != []
        invariant Exec(dataStack, heap, global.values, output) == Exec(old(dataStack), heap, old(global.values), old(output))
        decreases |dataStack|
      {
        var handled := Cycle();
        if handled.Err? {
          return Err(handled.error);
        }
      }
      return Ok(());
    }

    /** One pass of `run`'s loop: pop the opcode on top and call its handler. */
    method Cycle() returns (r: Result<()>)
      requires dataStack != []
      modifies this`dataStack, this`output, global
      ensures var n := |old(dataStack)|;
              var c := Dispatch(old(dataStack)[n - 1], old(dataStack)[..n - 1], heap, old(global.values), old(output));
              && (r.Ok? <==> c.Ok?)
              && (r.Ok? ==> Config(dataStack, global.values, output) == c.value)
              && (r.Err? ==> r.error == c.error && output == old(output))
    {
      ghost var code0 := dataStack[|dataStack| - 1];
      OneByte(code0);
      var popped := Pop(CodeSize);
      assert popped.Ok?;
      var code := popped.value as byte;
      assert code == code0;
      if code == Code(OpAssign) {
        r := Assign();
      } else if code == Code(OpPrint) {
        r := Print();
      } else {
        r := Err(NoHandler(code));
      }
    }

    /** The `switch (token)` of `eval`: compile the statement a `var` or `$print` token starts. */
    method Compile(token: Token) returns (r: Result<()>)
      requires Valid()
      modifies this`pos, this`eof, this`currentRow, this`tmpID, this`tmpNumVal, this`dataStack, this`heap
      ensures Valid()
      ensures var spec := Statement(input, token, old(State()), global.values);
              && (r.Ok? <==> spec.Ok?)
              && (r.Ok? ==> State() == spec.value && (token == TokenVar || token == TokenPrint ==> !eof))
              && (r.Ok? && token != TokenVar && token != TokenPrint ==> eof == old(eof))
              && (r.Err? ==> r.error == spec.error)
    {
      if token == TokenVar {
        r := ParseVarStatement();
      } else if token == TokenPrint {
        r := ParsePrintStatement();
      } else {
        r := Ok(());
      }
    }

    /**
     * One pass of `eval`'s loop: read a token, compile the statement it
     * starts (if it is `var` or `$print`) and run the byte stack.
     */
    method EvalRound() returns (r: Result<()>)
      requires Valid()
      modifies this`pos, this`eof, this`currentRow, this`tmpID, this`tmpNumVal, this`dataStack, this`heap, this`output, global
      ensures Valid()
      ensures var spec := Round(input, old(State()), old(global.values), old(output));
              && (r.Ok? <==> spec.Done?)
              && (r.Ok? ==> State() == spec.value.after.front && global.values == spec.value.after.scope
                            && output == spec.value.after.out && eof == (spec.value.token == TokenEof))
              && (r.Err? ==> r.error == spec.error && output == spec.out)
    {
      ghost var f0 := State();
      ghost var spec := Round(input, f0, global.values, output);
      ghost var scope0 := global.values;
      var token := GetToken();
      if token.Err? {
        return Err(token.error);
      }
      ghost var lx := Scan(input, f0.pos);
      RoundNext(input, f0, scope0, output, lx);
      assert State() == Past(f0, lx);
      r := CompileAndRun(token.value);
    }

    /**
     * The rest of a pass of `eval`'s loop once `token` is read: compile the
     * statement it starts, then run the byte stack down to empty.
     */
    method CompileAndRun(token: Token) returns (r: Result<()>)
      requires Valid()
      modifies this`pos, this`eof, this`currentRow, this`tmpID, this`tmpNumVal, this`dataStack, this`heap, this`output, global
      ensures Valid()
      ensures var c := Statement(input, token, old(State()), old(global.values));
              && (c.Err? ==> r == Err(c.error) && output == old(output))
              && (c.Ok? ==>
                    var x := Exec(c.value.stack, c.value.heap, old(global.values), old(output));
                    && (x.Halted? ==> r == Err(x.error) && output == x.out)
                    && (x.Done? ==> r.Ok? && State() == c.value.(stack := []) && global.values == x.value.scope && output == x.value.out))
      ensures r.Ok? && (token == TokenVar || token == TokenPrint) ==> !eof
      ensures r.Ok? && token != TokenVar && token != TokenPrint ==> eof == old(eof)
    {
      var compiled := Compile(token);
      if compiled.Err? {
        return Err(compiled.error);
      }
      var ran := Run();
      if ran.Err? {
        return Err(ran.error);
      }
      return Ok(());
    }

    /** `eval`: rounds until the end of the file has been read. */
    method Eval() returns (r: Result<()>)
      requires Valid()
      modifies this`pos, this`eof, this`currentRow, this`tmpID, this`tmpNumVal, this`dataStack, this`heap, this`output, global
      ensures Valid()
      ensures !old(eof) ==>
                var spec := Interpret(input, old(State()), old(global.values), old(output));
                && (r.Ok? <==> spec.Done?)
                && (r.Ok? ==> State() == spec.value.front && global.values == spec.value.scope && output == spec.value.out)
                && (r.Err? ==> r.error == spec.error && output == spec.out)
      ensures old(eof) ==> r.Ok? && State() == old(State()) && global.values == old(global.values) && output == old(output)
    {
      ghost var spec := if eof then Done(Final(State(), global.values, output)) else Interpret(input, State(), global.values, output);
      while !eof
        invariant Valid()
        invariant (if eof then Done(Final(State(), global.values, output)) else Interpret(input, State(), global.values, output)) == spec
        decreases |input| - pos, if eof then 0 else 1
      {
        var round := EvalRound();
        if round.Err? {
          return Err(round.error);
        }
      }
      return Ok(());
    }
  }
}
