/**
 * The helper types of mjs.h: lexical tokens, virtual-machine opcodes and
 * the tagged runtime value `JsValue`, plus the error outcomes that stand
 * for the interpreter's fatal exits.
 */
module Values {
  import opened Bytes

  /** `enum Token` (TOKEN_STRING is declared but no scanner path produces it). */
  datatype Token =
    | TokenUnknown | TokenEof | TokenId | TokenVar | TokenPrint | TokenNum | TokenString
    | TokenEqual | TokenPlus | TokenMinus | TokenStar | TokenSlash
    | TokenLBracket | TokenRBracket | TokenSemi

  /** `enum OpCode : uint8_t` */
  datatype OpCode =
    | OpAdd | OpSub | OpMul | OpDiv | OpPrint | OpJmp | OpAssign | OpIf | OpRet | OpCall | OpExit

  /** The enumerator value of each opcode: OP_ADD = 0 and each later one is one more. */
  function Code(op: OpCode): byte
  {
    match op
    case OpAdd => 0
    case OpSub => 1
    case OpMul => 2
    case OpDiv => 3
    case OpPrint => 4
    case OpJmp => 5
    case OpAssign => 6
    case OpIf => 7
    case OpRet => 8
    case OpCall => 9
    case OpExit => 10
  }

  /** The cast `(OpCode)b` read back as an enumerator, if `b` names one. */
  function OpCodeOf(b: byte): (r: Option<OpCode>)
    ensures r.Some? <==> b <= 10
    ensures r.Some? ==> Code(r.value) == b
  {
    if b == 0 then Some(OpAdd)
    else if b == 1 then Some(OpSub)
    else if b == 2 then Some(OpMul)
    else if b == 3 then Some(OpDiv)
    else if b == 4 then Some(OpPrint)
    else if b == 5 then Some(OpJmp)
    else if b == 6 then Some(OpAssign)
    else if b == 7 then Some(OpIf)
    else if b == 8 then Some(OpRet)
    else if b == 9 then Some(OpCall)
    else if b == 10 then Some(OpExit)
    else None
  }

  /** The opcodes are pairwise distinct bytes, so one stack byte identifies one opcode. */
  lemma CodeRoundTrip(op: OpCode)
    ensures OpCodeOf(Code(op)) == Some(op)
    ensures forall other: OpCode :: Code(other) == Code(op) ==> other == op
  {
  }

  /** `PushCode` is `Push<int8_t>`: an opcode occupies exactly one byte. */
  const CodeSize: nat := 1

  /** `PushVal` is `Push<JsValue *>`: a value reference occupies eight bytes. */
  const PtrSize: nat := 8

  /** `enum JsValueTag` */
  datatype JsValueTag = JsTagNum | JsTagString | JsTagNull

  /**
   * `union JsValueUnion`: the member last written.  A name is a `char *`
   * holding the identifier's text; a number is a `double` (modelled as a
   * real number).
   */
  datatype JsValueUnion = Int32(i: int) | Float64(d: real) | CharPtr(s: string)

  /** `class JsValue`: a tag and a payload. */
  datatype JsValue = JsValue(tag: JsValueTag, val: JsValueUnion)

  /**
   * A `JsValue *` is an index into the table of every value allocated so far;
   * it is pushed on the byte stack as its eight-byte encoding.
   */
  type Ptr = nat

  datatype Option<T> = None | Some(value: T)

  /** The interpreter's fatal outcomes. */
  datatype Error =
      /** `exit(1)` with "no [ID] next to 'var'" at the given line */
    | NoIdAfterVar(row: int)
      /** `exit(1)` with "no '=' next to [ID]" */
    | NoEqualAfterId(row: int)
      /** `exit(1)` with "no '(' next to '$print'" */
    | NoLBracketAfterPrint(row: int)
      /** `exit(1)` with "no [ID] in PRINT statement" */
    | NoIdInPrint(row: int)
      /** `exit(1)` with "no ')' at the end of '$print'" */
    | NoRBracketAfterPrint(row: int)
      /** `Scope::get`: `exit(1)` with "Variable '<name>' is undefined" */
    | UndefinedVariable(name: string)
      /** `stod` throws on a numeric literal without digits (".") */
    | InvalidNumber(text: string)
      /** the expression evaluator reaches end of file before ';' (the source loops forever) */
    | UnterminatedExpression
      /** `numStack.top()` on an empty operand stack (undefined behaviour in the source) */
    | OperandUnderflow
      /** popping more bytes than `dataStack` holds (undefined behaviour in the source) */
    | StackUnderflow
      /** `dispatchTable[code]` has no handler: calling the empty std::function throws */
    | NoHandler(code: byte)
      /** a popped reference does not denote a value of the kind the handler reads */
    | BadValue
      /** `new` cannot allocate another value */
    | OutOfMemory

  datatype Result<T> = Ok(value: T) | Err(error: Error)
}
