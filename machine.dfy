/**
 * The stack machine of mjs.cc (`run` and `dispatchTable`) as a pure
 * function of the byte stack.  One byte is popped as an opcode; ASSIGN pops
 * a value reference and then a name reference and binds the name, PRINT
 * pops a name reference and emits the bound number; no other opcode has a
 * handler.
 */
module Machine {
  import opened Bytes
  import opened Values
  import opened Scopes

  /** `(char *)(p->val.ptr)`: the text a name reference denotes. */
  function NameAt(heap: seq<JsValue>, p: nat): (r: Result<string>)
    ensures r.Ok? <==> p < |heap| && heap[p].val.CharPtr?
    ensures r.Ok? ==> r.value == heap[p].val.s
    ensures r.Err? ==> r.error == BadValue
  {
    if p < |heap| && heap[p].val.CharPtr? then Ok(heap[p].val.s) else Err(BadValue)
  }

  /** `p->val.float64`: the number a value reference denotes. */
  function NumberAt(heap: seq<JsValue>, p: nat): (r: Result<real>)
    ensures r.Ok? <==> p < |heap| && heap[p].val.Float64?
    ensures r.Ok? ==> r.value == heap[p].val.d
    ensures r.Err? ==> r.error == BadValue
  {
    if p < |heap| && heap[p].val.Float64? then Ok(heap[p].val.d) else Err(BadValue)
  }

  /** The final scope and the printed numbers, one per PRINT, in order. */
  datatype ExecEnd = ExecEnd(scope: map<string, Ptr>, out: seq<real>)

  /**
   * How a run ends: normally, with its result, or at a fatal outcome, with
   * every number printed before it (the process exits, but what it wrote
   * stays written).
   */
  datatype Outcome<T> = Done(value: T) | Halted(error: Error, out: seq<real>)

  /** The machine between two opcodes: the byte stack, the global scope and the output so far. */
  datatype Config = Config(stack: seq<byte>, scope: map<string, Ptr>, out: seq<real>)

  /**
   * `dispatchTable[code]()` once `code` is popped off `rest`: the ASSIGN
   * handler pops a value reference and then a name reference and binds the
   * name; the PRINT handler pops a name reference and emits the number bound
   * to it; any other code has no handler.
   */
  function Dispatch(code: byte, rest: seq<byte>, heap: seq<JsValue>, scope: map<string, Ptr>, out: seq<real>): (r: Result<Config>)
    ensures r.Ok? ==> (code == Code(OpAssign) || code == Code(OpPrint))
    ensures r.Ok? ==> |r.value.stack| < |rest| && r.value.stack == rest[..|r.value.stack|]
    ensures r.Ok? && code == Code(OpAssign) ==> r.value.out == out && r.value.scope.Keys >= scope.Keys
    ensures r.Ok? && code == Code(OpPrint) ==> r.value.scope == scope && |r.value.out| == |out| + 1 && r.value.out[..|out|] == out
    ensures code != Code(OpAssign) && code != Code(OpPrint) ==> r == Err(NoHandler(code))
  {
    if code == Code(OpAssign) then
      if |rest| < 2 * PtrSize then Err(StackUnderflow)
      else
        var value := FromBytes(rest[|rest| - PtrSize..]);
        var below := rest[..|rest| - PtrSize];
        var name := NameAt(heap, FromBytes(below[|below| - PtrSize..]));
        if name.Err? then Err(name.error)
        else Ok(Config(below[..|below| - PtrSize], Inserted(scope, name.value, value), out))
    else if code == Code(OpPrint) then
      if |rest| < PtrSize then Err(StackUnderflow)
      else
        var name := NameAt(heap, FromBytes(rest[|rest| - PtrSize..]));
        if name.Err? then Err(name.error)
        else
          var bound := Lookup(scope, name.value);
          if bound.Err? then Err(bound.error)
          else
            var d := NumberAt(heap, bound.value);
            if d.Err? then Err(d.error)
            else Ok(Config(rest[..|rest| - PtrSize], scope, out + [d.value]))
    else Err(NoHandler(code))
  }

  /**
   * `run()` from the given stack (top last) until it is empty.  A run never
   * unbinds a name: every name bound before is bound after.
   */
  function Exec(stack: seq<byte>, heap: seq<JsValue>, scope: map<string, Ptr>, out: seq<real>): (r: Outcome<ExecEnd>)
    ensures r.Done? ==> r.value.scope.Keys >= scope.Keys
    decreases |stack|
  {
    if stack == [] then Done(ExecEnd(scope, out))
    else
      var c := Dispatch(stack[|stack| - 1], stack[..|stack| - 1], heap, scope, out);
      if c.Err? then Halted(c.error, out)
      else Exec(c.value.stack, heap, c.value.scope, c.value.out)
  }

  /**
   * The layout `[name][value][ASSIGN]` on top of any stack executes as
   * `global.set(name, value)` followed by the rest of the stack.
   */
  lemma ExecAssign(below: seq<byte>, nameRef: nat, valueRef: nat, heap: seq<JsValue>, scope: map<string, Ptr>, out: seq<real>)
    requires nameRef < Pow256(PtrSize) && valueRef < Pow256(PtrSize)
    requires nameRef < |heap| && heap[nameRef].val.CharPtr?
    ensures Exec(below + ToBytes(nameRef, PtrSize) + ToBytes(valueRef, PtrSize) + [Code(OpAssign)], heap, scope, out)
            == Exec(below, heap, Inserted(scope, heap[nameRef].val.s, valueRef), out)
  {
    var withName := below + ToBytes(nameRef, PtrSize);
    var rest := withName + ToBytes(valueRef, PtrSize);
    var st := rest + [Code(OpAssign)];
    assert st[..|st| - 1] == rest && st[|st| - 1] == Code(OpAssign);
    PushPop(withName, valueRef, PtrSize);
    PushPop(below, nameRef, PtrSize);
  }

  /**
   * The layout `[name][PRINT]` on top of any stack looks the name up: an
   * unbound name is the undefined-variable outcome, a bound one appends its
   * number to the output and execution goes on below.
   */
  lemma ExecPrint(below: seq<byte>, nameRef: nat, heap: seq<JsValue>, scope: map<string, Ptr>, out: seq<real>)
    requires nameRef < Pow256(PtrSize)
    requires nameRef < |heap| && heap[nameRef].val.CharPtr?
    ensures var name := heap[nameRef].val.s;
            var r := Exec(below + ToBytes(nameRef, PtrSize) + [Code(OpPrint)], heap, scope, out);
            && (name !in scope ==> r == Halted(UndefinedVariable(name), out))
            && (name in scope && NumberAt(heap, scope[name]).Ok? ==>
                  r == Exec(below, heap, scope, out + [NumberAt(heap, scope[name]).value]))
            && (name in scope && NumberAt(heap, scope[name]).Err? ==> r == Halted(BadValue, out))
  {
    var rest := below + ToBytes(nameRef, PtrSize);
    var st := rest + [Code(OpPrint)];
    assert st[..|st| - 1] == rest && st[|st| - 1] == Code(OpPrint);
    PushPop(below, nameRef, PtrSize);
  }

  /** A top byte with no handler (every opcode but ASSIGN and PRINT) stops the machine. */
  lemma ExecNoHandler(below: seq<byte>, code: byte, heap: seq<JsValue>, scope: map<string, Ptr>, out: seq<real>)
    requires code != Code(OpAssign) && code != Code(OpPrint)
    ensures Exec(below + [code], heap, scope, out) == Halted(NoHandler(code), out)
  {
    var st := below + [code];
    assert st[|st| - 1] == code;
  }

  /**
   * Executing never takes back a printed number: whether the run ends
   * normally or at a fatal outcome, the output it started with is a prefix
   * of the output it ends with.
   */
  lemma {:induction false} ExecExtendsOutput(stack: seq<byte>, heap: seq<JsValue>, scope: map<string, Ptr>, out: seq<real>)
    ensures var r := Exec(stack, heap, scope, out);
            && (r.Done? ==> out <= r.value.out)
            && (r.Halted? ==> out <= r.out)
    decreases |stack|
  {
    if stack != [] {
      var c := Dispatch(stack[|stack| - 1], stack[..|stack| - 1], heap, scope, out);
      if c.Ok? {
        ExecExtendsOutput(c.value.stack, heap, c.value.scope, c.value.out);
      }
    }
  }
}
