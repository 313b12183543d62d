# StupidJs interpreter core in Dafny

This project models the StupidJs interpreter (`mjs.cc` and its helper types
in `mjs.h`). StupidJs reads a program such as

    var a = 1 + 2 * 3;
    $print(a);

one character at a time and runs it in four stages:

- the scanner (`getToken`) turns characters into tokens;
- the two-stack evaluator (`parseExpression`) computes each initializer;
- the statement compiler (`parseVarStatement`, `parsePrintStatement`) pushes name references, value references and one-byte opcodes onto a shared byte stack;
- the stack machine (`run` and `dispatchTable`) pops opcodes and updates the global `Scope`, or prints.

The model has two layers.

- **Pure layer.** The pure layer consists of functions over the program text and a read position:
  - `Lexer.Scan` reads one token;
  - `Evaluator.Step` and `Evaluator.DrainAll` act on the evaluator stacks;
  - `Compiler.EvalFrom`, `Compiler.VarStatement` and `Compiler.PrintStatement` handle expressions and statements;
  - `Machine.Exec` runs the byte stack;
  - `Compiler.Round` and `Compiler.Interpret` drive the `eval` loop.

  The properties of the source are proved about these functions.
- **Imperative layer.** The imperative layer is the class `Interp.Interpreter`. It holds the interpreter's global mutable state as fields:
  - the read position and `feof`;
  - `current_row`;
  - `tmpID` and `tmpNumVal`;
  - `dataStack`;
  - the table of allocated `JsValue`s;
  - the `global` scope, which is a `Scopes.Scope` object with a map field;
  - the printed output.

  Its methods follow the source loop by loop: byte-wise `Push`/`Pop`, the scanner loops, the evaluator's `while` loops, and the `run` loop. Each method is proved against the pure function that specifies it.

Modelling choices:

- A `JsValue *` is an index into the table of allocated values. It is pushed on the byte stack as eight little-endian bytes, as `memcpy` does on the hosts the program targets.
- An opcode is one byte.
- Numbers are exact reals.
- The one-character `fseek` rewind is "the token ends before the character that stopped it".
- Every `exit(1)` path is an explicit error value. So is every path with undefined behaviour except the memory details listed under "## Left out", and so is the `std::invalid_argument` that `stod` throws on the number text ".". The one throw not modelled is listed under "## Left out".
- A fatal error keeps the numbers printed before it: `Machine.Outcome` carries the output next to the error, as the source's `cout` writes stay on the terminal when the process exits.

Two behaviours of the code that a reader may not expect:

- `Scope::set` uses `std::map::insert`, so re-declaring a variable keeps its FIRST value: `var x = 1; var x = 2;` leaves x bound to the first value (`Scopes.InsertBound`, `Scopes.InsertFirstWins`).
- Under the drain policy, `1 + 2 * 3` evaluates to 7, not 9. The strictly increasing run `+ *` is honoured. `1 + 2 * 3 * 4` evaluates to 28, that is `(1 + 2 * 3) * 4` (`Evaluator.IncreasingRunExample`, `Evaluator.DrainPolicyExample`).

## Model

| member | source | states |
|---|---|---|
| Bytes.FromToBytes | mjs.h:90-104 | decoding the n-byte encoding of any u below 256^n gives u back |
| Bytes.ToFromBytes | mjs.h:90-104 | every byte string is the encoding of the value decoded from it |
| Bytes.ToBytesInjective | mjs.h:90-96 | two values of one width with equal encodings are equal |
| Bytes.PushPop | mjs.cc:29-50 | pushing x as n bytes grows the stack by exactly n; popping n bytes off the result gives x and restores the stack |
| Values.OpCodeOf | mjs.h:25-37 | a byte names an opcode iff it is at most 10 (OP_EXIT), and the opcode's enumerator is that byte |
| Values.CodeRoundTrip | mjs.h:25-37 | opcodes are pairwise distinct bytes, so the single byte `PushCode` writes identifies the opcode |
| Scopes.Lookup | mjs.h:79-87 | `get` succeeds iff the name is bound, and otherwise is the undefined-variable error for that name |
| Scopes.InsertUnbound | mjs.h:76-78 | `set` on an unbound name makes `get` return the new value, leaves every other name's lookup unchanged and adds exactly that key |
| Scopes.InsertBound | mjs.h:76-78 | `set` on a bound name leaves the scope unchanged, so `get` still returns the old value |
| Scopes.InsertFirstWins | mjs.h:76-78 | two `set`s under one name equal the first `set` alone |
| Scopes.Scope.constructor | mjs.h:70-75 | the global scope starts with no bindings |
| Scopes.Scope.Set | mjs.h:76-78 | the new map is the insert of the old one; the name is bound, to the new value if it was unbound; other lookups are unchanged |
| Scopes.Scope.Get | mjs.h:79-87 | returns the bound reference iff the name is bound, else the undefined-variable error |
| Lexer.SkipSpace | mjs.cc:83-88 | stops at the first non-space character at or after the start, skipping only white space |
| Lexer.IdentEnd | mjs.cc:106-111 | stops at the first non-identifier character, consuming only identifier characters |
| Lexer.NumberEnd | mjs.cc:125-133 | consumes digits and dots with at most one dot while the dot is still allowed, and stops at the first character that cannot extend the number |
| Lexer.KeywordOrId | mjs.cc:113-120 | "var" gives VAR, "$print" gives PRINT, every other text gives ID |
| Lexer.Scan | mjs.cc:82-146 | a token lies after white space only, its rows are the newlines skipped, it is EOF exactly at the end of input, and otherwise it is non-empty and never STRING |
| Lexer.ScanPunctuation | mjs.cc:90-100 | each of `= + - * / ; ( )` is its own token kind, one character long |
| Lexer.ScanUnknown | mjs.cc:144-145 | UNKNOWN iff the first non-space character starts no token kind; it is one character long |
| Lexer.ScanIdentifier | mjs.cc:102-121 | identifier tokens start exactly at `[A-Za-z_$]`, match `[A-Za-z_$][A-Za-z0-9_$]*`, are followed by a non-identifier character (pushed back) and are VAR/PRINT/ID by the keyword check |
| Lexer.ScanNumber | mjs.cc:123-136 | number tokens start exactly at a digit or '.', hold only digits and at most one dot, and stop before a character that cannot extend them (pushed back) |
| Lexer.NumberText | mjs.cc:123-136 | the number scan from a digit or a dot covers a well-formed number text ended by a non-extending character |
| Lexer.DecimalValueRatio | mjs.cc:123-136 | `stod` of any scanned number text other than "." is the integer its digits spell once the dot is dropped, divided by 10 once per digit after the dot |
| Lexer.DecimalValueExample | mjs.cc:134 | the literal `3.14` reads as the number 3.14 |
| Lexer.DecimalValue | mjs.cc:134 | `stod` of a scanned number text fails exactly on "." (no digit) |
| Lexer.DigitsOfDecimalString | mjs.cc:134 | the digit value of the decimal spelling of n is n |
| Lexer.ScanDecimalLiteral | mjs.cc:123-136 | the decimal spelling of n followed by a non-number character scans as one NUM token spanning the spelling, whose `stod` value is n |
| Lexer.ScanIdentifierLiteral | mjs.cc:102-121 | a non-keyword identifier followed by a non-identifier character scans as one ID token whose text (`tmpID`) is the name |
| Evaluator.OperatorOf | mjs.cc:152-157 | exactly `+ - * /` map to an opcode, and that opcode is arithmetic |
| Evaluator.ApplyTable | mjs.cc:172-178 | `calc` adds, subtracts, multiplies and divides by a non-zero divisor; any non-arithmetic opcode gives 0.0 |
| Evaluator.StepCases | mjs.cc:181-206 | one token-loop pass fails exactly when an operator not binding tighter than the top drains too few operands; an operand is pushed; an operator ends on top, alone after a drain and otherwise pushed above the stack; other tokens change nothing |
| Evaluator.Reduce | mjs.cc:166-179 | a reduction needs two operands; it pops one operator, replaces the top two operands v1 v2 by `v1 op v2` (v2 the former top), so the operand stack shrinks by exactly one |
| Evaluator.DrainAll | mjs.cc:197-202 | draining succeeds iff there is no operator or more operands than operators; it empties the operator stack and removes one operand per operator, leaving the lower operands in place |
| Evaluator.Finish | mjs.cc:209-214 | at ';' the result exists iff there are more operands than operators |
| Evaluator.OrderedShape | mjs.cc:158-163 | an operator stack of strictly increasing precedence holds at most two entries, a level-1 one under a level-2 one |
| Evaluator.StepKeepsOrdered | mjs.cc:190-203 | every evaluator step keeps the operator stack strictly increasing in precedence, hence at most two deep |
| Evaluator.StepBalance | mjs.cc:181-206 | each successful step changes operands minus operators by +1 for an operand, -1 for an operator, 0 otherwise |
| Evaluator.DrainStep | mjs.cc:194-202 | an operator not binding tighter than the top drains the whole stack and then lands alone on the empty stack |
| Evaluator.RunDrains | mjs.cc:197-202 | draining `acc x y / lo hi` computes `acc lo (x hi y)` |
| Evaluator.EvalMatchesReference | mjs.cc:181-214 | on every well-formed expression the two-stack evaluator succeeds and equals the stack-free reference semantics of the drain policy |
| Evaluator.DrainPolicyExample | mjs.cc:194-202 | `1 + 2 * 3 * 4` evaluates to 28, i.e. `(1 + 2 * 3) * 4` |
| Evaluator.IncreasingRunExample | mjs.cc:194-196 | `1 + 2 * 3` evaluates to 7: the tighter operator is pushed above the looser one |
| Evaluator.DecreasingRunExample | mjs.cc:196-202 | `2 * 3 + 1` evaluates to 7: the looser operator drains `2 * 3` first |
| Machine.Dispatch | mjs.cc:57-72 | only ASSIGN and PRINT have handlers (any other code is the no-handler error); a handler only pops bytes; ASSIGN keeps the output and never unbinds a name; PRINT keeps the scope and appends exactly one number |
| Machine.ExecAssign | mjs.cc:58-64 | `[name][value][ASSIGN]` on any stack runs as `global.set(name, value)` followed by the stack below: the value is popped first, then the name |
| Machine.ExecPrint | mjs.cc:65-72 | `[name][PRINT]` on any stack: an unbound name is the undefined-variable error; a bound one appends its number to the output and the stack below runs |
| Machine.Exec | mjs.cc:74-80 | a completed run of the stack never unbinds a name |
| Machine.ExecNoHandler | mjs.cc:74-80 | a top byte other than ASSIGN and PRINT stops the machine with the no-handler error |
| Machine.ExecExtendsOutput | mjs.cc:74-80 | running the stack only appends to the output, and a run stopped by a fatal error keeps every number printed before it |
| Compiler.NextToken | mjs.cc:134 | reading a token fails exactly on the number text "." (the `stod` exception), and otherwise gives the scanned lexeme |
| Compiler.ResolveId | mjs.cc:185-189 | an identifier in an expression yields the number bound to it iff it is bound to a number; unbound is the undefined-variable error |
| Compiler.ExprTokOf | mjs.cc:181-203 | a token is an operator for the evaluator iff it is `+ - * /`, an operand iff it is a number or a resolvable identifier, and only an identifier can fail |
| Compiler.EvalFrom | mjs.cc:181-214 | a successful expression ends strictly after its start, within the input, and never moves back a row |
| Compiler.TokensFrom | mjs.cc:181-206 | the tokens an expression reads up to its ';' end strictly after the start, within the input, and hold no skipped token |
| Compiler.EvalFromTokens | mjs.cc:181-214 | the token-by-token loop over the text gives exactly the evaluator run over the token list it reads, with the same end and rows |
| Compiler.ExpressionMatchesReference | mjs.cc:149-214 | an arithmetic expression text whose tokens are an operand followed by operator-operand pairs evaluates to the reference value of the drain policy, ending after its ';' |
| Compiler.EvalFromPush | mjs.cc:194-196 | an operator on an empty stack or above a looser top is pushed and the loop continues after it |
| Compiler.EvalFromSkip | mjs.cc:181-206 | tokens other than operands, operators, ';' and EOF are skipped |
| Compiler.EvalFromStops | mjs.cc:181-206 | the loop stops with the error of a bad number, EOF before ';', an unbound name or a failed evaluator step |
| Compiler.EvalFromSemi | mjs.cc:205-214 | at ';' the remaining operators are applied and the operand top is the expression's value, with the position after the ';' |
| Compiler.Alloc | mjs.cc:215-216 | allocation succeeds iff the table is not full; it appends the value and pushes its reference, the old table size, as eight bytes that decode back to it |
| Compiler.AllocResolves | mjs.cc:58-69 | the reference `new` pushes resolves to the stored value: to its text for a string and its number for a number, with every other tag the wrong-tag error; older references resolve as before |
| Compiler.Expression | mjs.cc:149-217 | the expression compiles iff the evaluator reaches a value at ';' and the table has room; it then pushes exactly one reference to a new number value holding that value |
| Compiler.VarStatement | mjs.cc:220-241 | `var` succeeds only on `ID =`, then allocates the name and the number and leaves `[name][value][ASSIGN]` on top of the stack it found, past the ';' |
| Compiler.VarValueLayout | mjs.cc:232-240 | after the name, success needs '=' and an expression ending in ';'; the value is allocated as a number and `[value][ASSIGN]` is pushed |
| Compiler.VarStatementAssigns | mjs.cc:58-64 | running what `var name = e;` compiles to is `global.set(name, value)` followed by the stack that was below |
| Compiler.PrintStatement | mjs.cc:244-269 | a successful `$print` statement ends strictly after its start, within the input, and never moves back a row |
| Compiler.PrintLayout | mjs.cc:244-269 | `$print` succeeds only on `( ID )`; it allocates the name, leaves `[name][PRINT]` on the stack it found, and stops right after ')' without reading the ';' |
| Compiler.PrintStatementPrints | mjs.cc:65-72 | running what `$print(name)` compiles to is the undefined-variable error when unbound, and otherwise appends the bound number and runs the stack below |
| Compiler.Round | mjs.cc:281-290 | a successful round leaves an empty byte stack, advances past its token unless that token was EOF, and at EOF sits at the end of input; what it does to the scope and the output is stated by `RoundVar`, `RoundPrint` and `RoundOther` |
| Compiler.VarStatementAfterName | mjs.cc:220-231 | a successful `var` statement starts with an identifier, and the rest of it is the value part read after the name has been allocated |
| Compiler.VarValueValue | mjs.cc:232-240 | a successful value part starts with '=', its expression succeeds, and the reference it allocates holds that expression's value, ending where the expression ends |
| Compiler.VarStatementValue | mjs.cc:220-241 | a successful `var name = e;` reads an identifier and '=', evaluates e with the name already allocated, and the value reference (old table size + 1) holds e's value, ending after the ';' |
| Compiler.RoundVar | mjs.cc:281-290 | a round on `var` halts with the statement's error and keeps the output, or ends past the ';' with an empty stack, the same output and the name bound to the new value reference, unless it was already bound |
| Compiler.RoundPrint | mjs.cc:281-290 | a round on `$print` halts with the statement's error; otherwise an unbound name is the undefined-variable error, a bound number is appended to the output with the scope kept, and a wrong tag is the bad-value error |
| Compiler.RoundOther | mjs.cc:283-286 | a round on any token other than `var` and `$print` (the `default: break;`) compiles nothing: it ends just past that token with an empty stack and the scope and output unchanged |
| Compiler.VarThenPrint | mjs.cc:58-72 | `var x = e;` then `$print(x);` with x fresh: the first round binds x, and the second appends e's value to the output |
| Compiler.RedeclareThenPrint | mjs.h:76-78 | `var x = e;` then `$print(x);` with x already bound: the scope is unchanged and the printed number is x's OLD value, because the first binding wins |
| Compiler.VarKeepsNumber | mjs.cc:215-216 | compiling a `var` statement only appends to the value table, so every older reference resolves to the same number |
| Compiler.RoundKeepsAllocated | mjs.cc:281-290 | a round keeps every bound name pointing into the value table, and the table only grows |
| Compiler.InterpretTwoRounds | mjs.cc:271-292 | two completed rounds that do not reach EOF leave the rest of the run to continue from their final state |
| Compiler.ProgramVarThenPrint | mjs.cc:271-292 | a program that begins `var x = e; $print(x);` with x fresh runs as its remainder with x bound and e's value already printed |
| Compiler.ProgramPrintUnbound | mjs.h:79-86 | a program that begins by printing an unbound name halts with the undefined-variable error and the output it started with |
| Compiler.Interpret | mjs.cc:271-292 | a successful run consumes the whole input and leaves the byte stack empty |
| Compiler.RoundExtendsOutput | mjs.cc:281-290 | one round never takes back printed numbers, also when it stops on a fatal error |
| Compiler.InterpretExtendsOutput | mjs.cc:271-292 | the output of a whole run, or of a run cut short by a fatal error, extends the output it started with |
| Interp.ScanAfterSpace | mjs.cc:83-88 | reading from before white space gives the token read after it, with the newlines skipped added to its rows |
| Interp.Drain | mjs.cc:197-202 | the drain loop over the two stacks computes `DrainAll`, including its failure |
| Interp.Conclude | mjs.cc:209-214 | the final drain loop and top read compute `Finish` |
| Interp.Interpreter.constructor | mjs.cc:15-26 | the interpreter starts at position 0, line 1, with an empty stack, table, scope and output |
| Interp.Interpreter.Push | mjs.cc:41-50 | the byte loop appends exactly the n-byte encoding of x |
| Interp.Interpreter.Pop | mjs.cc:29-38 | the byte loop succeeds iff n bytes are there, returns the value they encode and removes exactly them |
| Interp.Interpreter.NewValue | mjs.cc:215-216 | `new JsValue` succeeds iff the table has room, and returns the reference to the appended value |
| Interp.Interpreter.GetToken | mjs.cc:82-146 | the scanner loops move the position to the end of the scanned token, add its skipped newlines to the row, set `feof` exactly at EOF, set `tmpID` to the text of an ID and `tmpNumVal` to the value of a valid NUM, and leave each untouched otherwise |
| Interp.Interpreter.EvalExpression | mjs.cc:181-214 | the stack loops give exactly the value, end position and row of `EvalFrom`, including its errors |
| Interp.Interpreter.ExpressionToken | mjs.cc:181-206 | one pass of the token loop either finishes at ';' as `Finish` does, or leaves a state from which `EvalFrom` gives the same outcome |
| Interp.Interpreter.DrainOperator | mjs.cc:197-202 | draining and rewinding to the operator leaves an empty operator stack and the position of the operator, preserving the outcome |
| Interp.Interpreter.ParseExpression | mjs.cc:149-217 | the method succeeds iff `Expression` does and leaves exactly its state |
| Interp.Interpreter.ParseVarStatement | mjs.cc:220-241 | the method succeeds iff `VarStatement` does and leaves exactly its state, else fails with its error |
| Interp.Interpreter.ParsePrintStatement | mjs.cc:244-269 | the method succeeds iff `PrintStatement` does and leaves exactly its state, else fails with its error |
| Interp.Interpreter.Assign | mjs.cc:58-64 | the ASSIGN handler updates the stack and the global scope as `Dispatch` does |
| Interp.Interpreter.Print | mjs.cc:65-72 | the PRINT handler updates the stack and the output as `Dispatch` does |
| Interp.Interpreter.Run | mjs.cc:74-80 | the `run` loop empties the stack and leaves the scope and output `Exec` gives, or fails with its error and keeps the output printed before it |
| Interp.Interpreter.Compile | mjs.cc:283-287 | the statement switch compiles exactly as `Statement` does |
| Interp.Interpreter.EvalRound | mjs.cc:281-290 | one pass of the `eval` loop leaves the state, scope and output of `Round`, with `feof` set iff its token was EOF; on a fatal error it keeps the output `Round` reports |
| Interp.Interpreter.Eval | mjs.cc:271-292 | the `eval` loop ends with the front-end state, scope and output of `Interpret`, or fails with its error and the output printed before it |

## Left out

- Numbers are exact reals rather than IEEE doubles. The model has no rounding in `stod`, no overflow to infinity and no `cout` precision formatting.
- Evaluator.ApplyTable: a division by zero yields 0.0 in the model; IEEE arithmetic would give an infinity or NaN.
- Compiler.NextToken: the `std::out_of_range` that `stod` throws on a literal beyond the range of a double is not modelled, because numbers are exact reals (mjs.cc:134).
- A program whose expression reaches the end of the file before ';' loops forever in the source. The model ends it with the `UnterminatedExpression` error instead.
- The model has no `fseek` re-read of the previous character after `fgetc` has returned EOF. At the end of input, "do not advance" is modelled instead.
- The model does not cover paths with undefined behaviour or exceptions in the source; each is an explicit error instead:
  - the operand stack read past its bottom (`OperandUnderflow`);
  - a pop from a too-short byte stack (`StackUnderflow`);
  - a call to an empty dispatch entry (`NoHandler`);
  - a union member read with the wrong tag (`BadValue`);
  - a failed `new` (`OutOfMemory`).
- Memory details are not modelled: leaked allocations, the one-byte-short `new char[len]` before `strcpy`, and pointer values as raw bytes. Names are strings and references are table indices.
- File I/O is not modelled: `main`, `fopen`/`fgetc`/`feof` on a real file, the command line, and the `cout` writes. The program is a character sequence, and the output is the sequence of printed numbers.
- `isspace`, `isalpha` and `isdigit` are their C-locale ASCII versions. Non-ASCII input is not modelled.
- The debug logging (`DEBUG_LEXER`, `_V`) is not modelled, because it has no effect on behaviour.
- The opcodes ADD, SUB, MUL, DIV, JMP, IF, RET, CALL and EXIT have no handler. They are modelled only as the no-handler error.
- The `Scope::parent` link and the `TOKEN_STRING` kind are unused by the source, so they are not modelled.
- `src/ast.h` and `src/utils.h` are not part of this model, because they hold no behaviour.
- Interp.Interpreter.ParseExpression, ParseVarStatement, ParsePrintStatement, Compile, EvalRound and Eval: none of these promises the final contents of `tmpID` and `tmpNumVal`. They are scratch fields, and no later statement reads them before they are set again.
- `Lexer.Scan`, `Compiler.EvalFrom`, `Compiler.TokensFrom`, `Compiler.VarStatement`, `Compiler.VarValue`, `Compiler.Round`, `Evaluator.Apply` and `Lexer.Fixed` reach their bodies through a fixed number of extra calls. This is a proof device only: it changes no result.
