/**
 * The two-stack expression evaluator of `parseExpression` (mjs.cc), on
 * tokens already turned into operands and operators.  The operand stack
 * and the operator stack are sequences whose last element is the top.
 *
 * The evaluator pushes an operator only when the operator stack is empty
 * or the operator binds strictly tighter than the one on top; otherwise it
 * drains the WHOLE operator stack and reads the operator again (which then
 * lands on the empty stack).  `Reference` states, without any stack, what
 * this computes on a well-formed expression.
 */
module Evaluator {
  import opened Values

  /** The precedence map `P`; `map::operator[]` yields 0 for an opcode it does not hold. */
  function Prec(op: OpCode): nat
  {
    match op
    case OpAdd => 1
    case OpSub => 1
    case OpMul => 2
    case OpDiv => 2
    case _ => 0
  }

  /** The four opcodes `toOpCode` produces. */
  predicate IsArith(op: OpCode)
  {
    op == OpAdd || op == OpSub || op == OpMul || op == OpDiv
  }

  /** The `toOpCode` map from operator tokens to opcodes. */
  function OperatorOf(t: Token): (r: Option<OpCode>)
    ensures r.Some? <==> t in {TokenPlus, TokenMinus, TokenStar, TokenSlash}
    ensures r.Some? ==> IsArith(r.value)
  {
    match t
    case TokenPlus => Some(OpAdd)
    case TokenMinus => Some(OpSub)
    case TokenStar => Some(OpMul)
    case TokenSlash => Some(OpDiv)
    case _ => None
  }

  /**
   * The switch in `calc`: `v1 op v2`, and 0.0 for any other opcode.  Real
   * arithmetic stands for double arithmetic; a zero divisor gives 0.0 here.
   */
  function Apply(op: OpCode, v1: real, v2: real): real
  {
    Calc(op, v1, v2, 2)
  }

  /**
   * The arithmetic itself, reached from `Apply` through `layers` calls.
   * The extra layer keeps products and quotients of unknown operands out of
   * the proofs about the evaluator's control, which never need them; on
   * literal operands it still computes.
   */
  function Calc(op: OpCode, v1: real, v2: real, layers: nat): real
    decreases layers
  {
    if layers > 0 then Calc(op, v1, v2, layers - 1)
    else
      match op
      case OpAdd => v1 + v2
      case OpSub => v1 - v2
      case OpMul => v1 * v2
      case OpDiv => if v2 == 0.0 then 0.0 else v1 / v2
      case _ => 0.0
  }

  /**
   * The `calc` switch case by case: the four arithmetic opcodes compute
   * their operation (a zero divisor aside), and every other opcode gives 0.0.
   */
  lemma ApplyTable(op: OpCode, v1: real, v2: real)
    ensures op == OpAdd ==> Apply(op, v1, v2) == v1 + v2
    ensures op == OpSub ==> Apply(op, v1, v2) == v1 - v2
    ensures op == OpMul ==> Apply(op, v1, v2) == v1 * v2
    ensures op == OpDiv && v2 != 0.0 ==> Apply(op, v1, v2) == v1 / v2
    ensures op == OpDiv && v2 == 0.0 ==> Apply(op, v1, v2) == 0.0
    ensures !IsArith(op) ==> Apply(op, v1, v2) == 0.0
  {
    assert Apply(op, v1, v2) == Calc(op, v1, v2, 1) == Calc(op, v1, v2, 0);
  }

  /** What `parseExpression` does with one token. */
  datatype ExprTok = Operand(v: real) | Operator(op: OpCode) | Ignored

  /** `numStack` and `opStack`, top last. */
  datatype ExprState = ExprState(nums: seq<real>, ops: seq<OpCode>)

  const Empty := ExprState([], [])

  /**
   * `calc(op)` and the push of its result: pop the operator, pop v2 (the
   * top) and then v1, push `v1 op v2`.  An operand stack with fewer than two
   * entries is read past its bottom in the source.
   */
  function Reduce(st: ExprState): (r: Result<ExprState>)
    requires |st.ops| > 0
    ensures r.Ok? <==> |st.nums| >= 2
    ensures r.Err? ==> r.error == OperandUnderflow
    ensures r.Ok? ==>
              var n := |st.nums|;
              && r.value.ops == st.ops[..|st.ops| - 1]
              && |r.value.nums| == n - 1
              && r.value.nums[..n - 2] == st.nums[..n - 2]
              && r.value.nums[n - 2] == Apply(st.ops[|st.ops| - 1], st.nums[n - 2], st.nums[n - 1])
  {
    var n := |st.nums|;
    if n < 2 then Err(OperandUnderflow)
    else
      var op := st.ops[|st.ops| - 1];
      var v2 := st.nums[n - 1];
      var v1 := st.nums[n - 2];
      Ok(ExprState(st.nums[..n - 2] + [Apply(op, v1, v2)], st.ops[..|st.ops| - 1]))
  }

  /**
   * `while (!opStack.empty()) { ... calc ... push }`: reduce until no
   * operator is left.  It succeeds exactly when there is an operand more
   * than there are operators (or no operator at all), and then leaves one
   * operand per reduction fewer.
   */
  function DrainAll(st: ExprState): (r: Result<ExprState>)
    ensures r.Ok? <==> (st.ops == [] || |st.nums| > |st.ops|)
    ensures r.Err? ==> r.error == OperandUnderflow
    ensures r.Ok? ==> r.value.ops == [] && |r.value.nums| == |st.nums| - |st.ops|
    ensures r.Ok? && st.ops != [] ==> r.value.nums[..|st.nums| - |st.ops| - 1] == st.nums[..|st.nums| - |st.ops| - 1]
    decreases |st.ops|
  {
    if st.ops == [] then Ok(st)
    else
      match Reduce(st)
      case Err(e) => Err(e)
      case Ok(next) =>
        var r := DrainAll(next);
        assert r.Ok? && next.ops != [] ==> r.value.nums[..|st.nums| - |st.ops| - 1] == next.nums[..|st.nums| - |st.ops| - 1];
        r
  }

  /**
   * One pass of the token loop: an operand is pushed; an operator is pushed
   * when the operator stack is empty or its precedence is strictly greater
   * than the top's, and otherwise the stack is drained and the operator,
   * read again, is pushed onto the now empty stack; anything else is skipped.
   */
  function Step(st: ExprState, t: ExprTok): (r: Result<ExprState>)
  {
    match t
    case Operand(v) => Ok(st.(nums := st.nums + [v]))
    case Operator(op) =>
      if st.ops == [] || Prec(op) > Prec(st.ops[|st.ops| - 1]) then Ok(st.(ops := st.ops + [op]))
      else
        (match DrainAll(st)
         case Err(e) => Err(e)
         case Ok(drained) => Ok(drained.(ops := [op])))
    case Ignored => Ok(st)
  }

  /**
   * What one pass of the token loop does: it fails exactly when an operator
   * that does not bind tighter than the top forces a drain with too few
   * operands; otherwise an operand is pushed, an operator ends up on top of
   * the operator stack (alone, after a drain), and anything else changes
   * nothing.
   */
  lemma StepCases(st: ExprState, t: ExprTok)
    ensures Step(st, t).Err? <==> t.Operator? && st.ops != [] && Prec(t.op) <= Prec(st.ops[|st.ops| - 1]) && |st.nums| <= |st.ops|
    ensures Step(st, t).Err? ==> Step(st, t).error == OperandUnderflow
    ensures Step(st, t).Ok? && t.Operand? ==> Step(st, t).value.nums == st.nums + [t.v] && Step(st, t).value.ops == st.ops
    ensures Step(st, t).Ok? && t.Operator? ==> Step(st, t).value.ops != [] && Step(st, t).value.ops[|Step(st, t).value.ops| - 1] == t.op
    ensures Step(st, t).Ok? && t.Operator? && (st.ops == [] || Prec(t.op) > Prec(st.ops[|st.ops| - 1])) ==>
              Step(st, t).value.nums == st.nums && Step(st, t).value.ops == st.ops + [t.op]
    ensures Step(st, t).Ok? && t.Operator? && st.ops != [] && Prec(t.op) <= Prec(st.ops[|st.ops| - 1]) ==>
              Step(st, t).value.ops == [t.op] && |Step(st, t).value.nums| == |st.nums| - |st.ops|
    ensures Step(st, t).Ok? && t.Ignored? ==> Step(st, t).value == st
  {
  }

  /** At ';': drain what is left and take the operand top as the result. */
  function Finish(st: ExprState): (r: Result<real>)
    ensures r.Ok? <==> |st.nums| > |st.ops|
    ensures r.Err? ==> r.error == OperandUnderflow
  {
    match DrainAll(st)
    case Err(e) => Err(e)
    case Ok(drained) =>
      if drained.nums == [] then Err(OperandUnderflow) else Ok(drained.nums[|drained.nums| - 1])
  }

  /** The evaluator run over a token list that ends just before the ';'. */
  function EvalTokens(ts: seq<ExprTok>, st: ExprState): Result<real>
    decreases |ts|
  {
    if ts == [] then Finish(st)
    else
      match Step(st, ts[0])
      case Err(e) => Err(e)
      case Ok(next) => EvalTokens(ts[1..], next)
  }

  // ---------------------------------------------------------------------------
  // The operator-stack ordering invariant.

  /** The operator stack holds arithmetic operators in strictly increasing precedence, bottom to top. */
  predicate Ordered(ops: seq<OpCode>)
  {
    && (forall k :: 0 <= k < |ops| ==> IsArith(ops[k]))
    && (forall k :: 0 < k < |ops| ==> Prec(ops[k - 1]) < Prec(ops[k]))
  }

  /** In an ordered stack the k-th operator from the bottom has precedence at least k + 1. */
  lemma {:induction false} PrecAtLeast(ops: seq<OpCode>, k: nat)
    requires Ordered(ops) && k < |ops|
    ensures Prec(ops[k]) >= k + 1
  {
    if k > 0 {
      PrecAtLeast(ops, k - 1);
    }
  }

  /** With two precedence levels, an ordered stack has at most two entries, a level-1 one under a level-2 one. */
  lemma OrderedShape(ops: seq<OpCode>)
    requires Ordered(ops)
    ensures |ops| <= 2
    ensures |ops| == 2 ==> Prec(ops[0]) == 1 && Prec(ops[1]) == 2
  {
    if ops != [] {
      var top := |ops| - 1;
      assert IsArith(ops[top]);
      PrecAtLeast(ops, top);
      PrecAtLeast(ops, 0);
    }
  }

  /** Every step keeps the operator stack ordered, hence at most two deep. */
  lemma StepKeepsOrdered(st: ExprState, t: ExprTok)
    requires Ordered(st.ops)
    requires t.Operator? ==> IsArith(t.op)
    ensures Step(st, t).Ok? ==> Ordered(Step(st, t).value.ops) && |Step(st, t).value.ops| <= 2
  {
    var r := Step(st, t);
    if r.Ok? {
      OrderedShape(r.value.ops);
    }
  }

  /**
   * Every step that succeeds keeps the balance between the stacks: an
   * operand adds one operand, a pushed operator one operator, and a drain
   * removes as many operands as operators.
   */
  lemma StepBalance(st: ExprState, t: ExprTok)
    ensures var r := Step(st, t);
            r.Ok? ==>
              |r.value.nums| - |r.value.ops| ==
              |st.nums| - |st.ops| + (if t.Operand? then 1 else if t.Operator? then -1 else 0)
  {
  }

  // ---------------------------------------------------------------------------
  // What the evaluator computes on a well-formed expression.

  /** An operator followed by its right operand. */
  datatype Pair = Pair(op: OpCode, operand: real)

  /** The tokens of `first op1 x1 op2 x2 ...` as the evaluator sees them. */
  function PairTokens(pairs: seq<Pair>): seq<ExprTok>
  {
    if pairs == [] then [] else [Operator(pairs[0].op), Operand(pairs[0].operand)] + PairTokens(pairs[1..])
  }

  predicate AllArith(pairs: seq<Pair>)
  {
    forall k :: 0 <= k < |pairs| ==> IsArith(pairs[k].op)
  }

  /**
   * Reference semantics of the drain policy, with no stacks: operators are
   * applied left to right to the running value, except that an operator
   * followed by one of strictly higher precedence first lets that one
   * combine its two operands.  A run of increasing precedence is at most two
   * operators long, so `1 + 2 * 3 * 4` is `(1 + 2 * 3) * 4`.
   */
  function Reference(acc: real, pairs: seq<Pair>): real
    decreases |pairs|
  {
    if pairs == [] then acc
    else if |pairs| >= 2 && Prec(pairs[1].op) > Prec(pairs[0].op) then
      Reference(Apply(pairs[0].op, acc, Apply(pairs[1].op, pairs[0].operand, pairs[1].operand)), pairs[2..])
    else
      Reference(Apply(pairs[0].op, acc, pairs[0].operand), pairs[1..])
  }

  lemma PairTokensCons(pairs: seq<Pair>)
    requires pairs != []
    ensures PairTokens(pairs)[0] == Operator(pairs[0].op)
    ensures PairTokens(pairs)[1] == Operand(pairs[0].operand)
    ensures PairTokens(pairs)[2..] == PairTokens(pairs[1..])
  {
  }

  /** Two successful steps over an operator and an operand. */
  lemma {:induction false} EvalOperatorOperand(ts: seq<ExprTok>, st: ExprState, mid: ExprState, next: ExprState)
    requires |ts| >= 2
    requires Step(st, ts[0]) == Ok(mid) && Step(mid, ts[1]) == Ok(next)
    ensures EvalTokens(ts, st) == EvalTokens(ts[2..], next)
  {
    assert EvalTokens(ts, st) == EvalTokens(ts[1..], mid);
    assert ts[1..][0] == ts[1] && ts[1..][1..] == ts[2..];
  }

  /**
   * The two-stack evaluator agrees with `Reference` on every well-formed
   * expression `first op1 x1 ... opn xn`, and never fails on one.
   */
  lemma EvalMatchesReference(first: real, pairs: seq<Pair>)
    requires AllArith(pairs)
    ensures EvalTokens([Operand(first)] + PairTokens(pairs), Empty) == Ok(Reference(first, pairs))
  {
    var ts := [Operand(first)] + PairTokens(pairs);
    assert ts[1..] == PairTokens(pairs);
    assert [] + [first] == [first];
    assert Step(Empty, ts[0]) == Ok(ExprState([first], []));
    assert EvalTokens(ts, Empty) == EvalTokens(ts[1..], ExprState([first], []));
    AfterOperand(first, pairs);
  }

  /** From the state `[acc] / []`, the rest of the expression evaluates to its reference value. */
  lemma {:induction false} AfterOperand(acc: real, pairs: seq<Pair>)
    requires AllArith(pairs)
    ensures EvalTokens(PairTokens(pairs), ExprState([acc], [])) == Ok(Reference(acc, pairs))
    decreases |pairs|, 0
  {
    if pairs == [] {
      assert Finish(ExprState([acc], [])) == Ok(acc);
    } else {
      var p := pairs[0];
      var ts := PairTokens(pairs);
      PairTokensCons(pairs);
      assert AllArith(pairs[1..]) && IsArith(p.op);
      var mid := ExprState([acc], [p.op]);
      var next := ExprState([acc, p.operand], [p.op]);
      assert Step(ExprState([acc], []), ts[0]) == Ok(mid) by {
        assert [] + [p.op] == [p.op];
      }
      assert Step(mid, ts[1]) == Ok(next) by {
        assert [acc] + [p.operand] == [acc, p.operand];
      }
      EvalOperatorOperand(ts, ExprState([acc], []), mid, next);
      assert pairs == [Pair(p.op, p.operand)] + pairs[1..];
      AfterPending(acc, p.op, p.operand, pairs[1..]);
    }
  }

  /** From `[acc, x] / [op]`, the rest evaluates as the reference of `acc op x ...`. */
  lemma {:induction false} AfterPending(acc: real, op: OpCode, x: real, rest: seq<Pair>)
    requires IsArith(op) && AllArith(rest)
    ensures EvalTokens(PairTokens(rest), ExprState([acc, x], [op])) == Ok(Reference(acc, [Pair(op, x)] + rest))
    decreases |rest|, 1
  {
    var st := ExprState([acc, x], [op]);
    var a := Apply(op, acc, x);
    var pairs := [Pair(op, x)] + rest;
    assert Reduce(st) == Ok(ExprState([a], []));
    assert DrainAll(st) == Ok(ExprState([a], []));
    if rest == [] {
      assert Finish(st) == Ok(a);
      assert Reference(acc, pairs) == Reference(a, []);
    } else {
      var q := rest[0];
      var ts := PairTokens(rest);
      PairTokensCons(rest);
      assert AllArith(rest[1..]) && IsArith(q.op);
      assert pairs[0] == Pair(op, x) && pairs[1] == q && pairs[2..] == rest[1..] && pairs[1..] == rest;
      if Prec(q.op) > Prec(op) {
        var mid := ExprState([acc, x], [op, q.op]);
        var next := ExprState([acc, x, q.operand], [op, q.op]);
        assert [op] + [q.op] == [op, q.op] && [acc, x] + [q.operand] == [acc, x, q.operand];
        assert Step(st, ts[0]) == Ok(mid);
        assert Step(mid, ts[1]) == Ok(next);
        EvalOperatorOperand(ts, st, mid, next);
        AfterRun(acc, op, x, q.op, q.operand, rest[1..]);
        assert Reference(acc, pairs) == Reference(Apply(op, acc, Apply(q.op, x, q.operand)), rest[1..]);
      } else {
        var mid := ExprState([a], [q.op]);
        var next := ExprState([a, q.operand], [q.op]);
        assert [a] + [q.operand] == [a, q.operand];
        assert Step(st, ts[0]) == Ok(mid);
        assert Step(mid, ts[1]) == Ok(next);
        EvalOperatorOperand(ts, st, mid, next);
        AfterPending(a, q.op, q.operand, rest[1..]);
        assert [Pair(q.op, q.operand)] + rest[1..] == rest;
        assert Reference(acc, pairs) == Reference(a, rest);
      }
    }
  }

  /** Draining `[acc, x, y] / [lo, hi]` reduces `x hi y` first and then `acc lo _`. */
  lemma RunDrains(acc: real, lo: OpCode, x: real, hi: OpCode, y: real)
    ensures DrainAll(ExprState([acc, x, y], [lo, hi])) == Ok(ExprState([Apply(lo, acc, Apply(hi, x, y))], []))
  {
    var st := ExprState([acc, x, y], [lo, hi]);
    var b := Apply(hi, x, y);
    var st1 := ExprState([acc, b], [lo]);
    assert st.nums[..1] == [acc] && st.ops[..1] == [lo] && [acc] + [b] == [acc, b];
    assert Reduce(st) == Ok(st1);
    assert DrainAll(st1) == Ok(ExprState([Apply(lo, acc, b)], []));
  }

  /** An operator that does not bind tighter than the top drains the stack and is pushed alone. */
  lemma DrainStep(st: ExprState, op: OpCode, drained: ExprState)
    requires st.ops != [] && Prec(op) <= Prec(st.ops[|st.ops| - 1])
    requires DrainAll(st) == Ok(drained)
    ensures Step(st, Operator(op)) == Ok(drained.(ops := [op]))
  {
  }

  /** From `[acc, x, y] / [lo, hi]` with `hi` binding tighter, the rest evaluates as `acc lo (x hi y) ...`. */
  lemma {:induction false} AfterRun(acc: real, lo: OpCode, x: real, hi: OpCode, y: real, rest: seq<Pair>)
    requires IsArith(lo) && IsArith(hi) && AllArith(rest)
    requires Prec(hi) > Prec(lo)
    ensures EvalTokens(PairTokens(rest), ExprState([acc, x, y], [lo, hi]))
            == Ok(Reference(Apply(lo, acc, Apply(hi, x, y)), rest))
    decreases |rest|, 1
  {
    var st := ExprState([acc, x, y], [lo, hi]);
    var a := Apply(lo, acc, Apply(hi, x, y));
    RunDrains(acc, lo, x, hi, y);
    if rest != [] {
      var q := rest[0];
      var ts := PairTokens(rest);
      PairTokensCons(rest);
      assert AllArith(rest[1..]) && IsArith(q.op);
      var mid := ExprState([a], [q.op]);
      var next := ExprState([a, q.operand], [q.op]);
      DrainStep(st, q.op, ExprState([a], []));
      assert [a] + [q.operand] == [a, q.operand];
      assert Step(mid, ts[1]) == Ok(next);
      EvalOperatorOperand(ts, st, mid, next);
      AfterPending(a, q.op, q.operand, rest[1..]);
      assert [Pair(q.op, q.operand)] + rest[1..] == rest;
    }
  }

  /** The drain policy on `1 + 2 * 3 * 4`: the result is 28, not the 25 of ordinary precedence. */
  lemma DrainPolicyExample()
    ensures EvalTokens([Operand(1.0), Operator(OpAdd), Operand(2.0), Operator(OpMul), Operand(3.0),
                        Operator(OpMul), Operand(4.0)], Empty) == Ok(28.0)
  {
    var pairs := [Pair(OpAdd, 2.0), Pair(OpMul, 3.0), Pair(OpMul, 4.0)];
    assert PairTokens(pairs) == [Operator(OpAdd), Operand(2.0), Operator(OpMul), Operand(3.0),
                                 Operator(OpMul), Operand(4.0)];
    EvalMatchesReference(1.0, pairs);
    ApplyTable(OpMul, 2.0, 3.0);
    ApplyTable(OpAdd, 1.0, 6.0);
    assert Reference(1.0, pairs) == Reference(7.0, pairs[2..]);
    assert pairs[2..] == [Pair(OpMul, 4.0)];
    ApplyTable(OpMul, 7.0, 4.0);
    assert Reference(7.0, [Pair(OpMul, 4.0)]) == Reference(28.0, []);
  }

  /** A lower-then-higher pair is honoured: `1 + 2 * 3` is 7. */
  lemma IncreasingRunExample()
    ensures EvalTokens([Operand(1.0), Operator(OpAdd), Operand(2.0), Operator(OpMul), Operand(3.0)], Empty) == Ok(7.0)
  {
    var pairs := [Pair(OpAdd, 2.0), Pair(OpMul, 3.0)];
    assert PairTokens(pairs) == [Operator(OpAdd), Operand(2.0), Operator(OpMul), Operand(3.0)];
    EvalMatchesReference(1.0, pairs);
    ApplyTable(OpMul, 2.0, 3.0);
    ApplyTable(OpAdd, 1.0, 6.0);
    assert pairs[2..] == [];
    assert Reference(1.0, pairs) == Reference(7.0, []);
  }

  /** A higher-then-lower pair is applied left to right: `2 * 3 + 1` is 7. */
  lemma DecreasingRunExample()
    ensures EvalTokens([Operand(2.0), Operator(OpMul), Operand(3.0), Operator(OpAdd), Operand(1.0)], Empty) == Ok(7.0)
  {
    var pairs := [Pair(OpMul, 3.0), Pair(OpAdd, 1.0)];
    assert PairTokens(pairs) == [Operator(OpMul), Operand(3.0), Operator(OpAdd), Operand(1.0)];
    EvalMatchesReference(2.0, pairs);
    ApplyTable(OpMul, 2.0, 3.0);
    ApplyTable(OpAdd, 6.0, 1.0);
    assert Reference(2.0, pairs) == Reference(6.0, pairs[1..]);
    assert pairs[1..] == [Pair(OpAdd, 1.0)];
    assert Reference(6.0, [Pair(OpAdd, 1.0)]) == Reference(7.0, []);
  }}
