/** Programs for conditions over packets, and what the whole filters decide. */
module BpfFilters {
  import opened Words
  import opened Wrappers
  import opened Bits
  import opened Bpf
  import opened BpfSafety
  import opened BpfCompile

  // ---------------------------------------------------------------------------------------------
  // Programs
  // ---------------------------------------------------------------------------------------------

  /** Operands that one instruction loads into X. */
  predicate Simple(e: Expr) {
    e.Const? || e.Length? || e.HeaderLength?
  }

  function LoadX(e: Expr): Insn
    requires Simple(e)
  {
    match e
    case Const(k) => Plain(0x01, k)
    case Length => Plain(0x81, 0)
    case HeaderLength(k) => Plain(0xb1, k)
  }

  predicate CondCompilable(c: Cond) {
    match c
    case Cmp(_, l, r) => if Simple(r) then Compilable(l, 0) else Compilable(r, 0) && Compilable(l, 1)
    case CmpK(_, e, _) => Compilable(e, 0)
    case Not(d) => CondCompilable(d)
    case Both(c1, c2) => CondCompilable(c1) && CondCompilable(c2)
    case Either(c1, c2) => CondCompilable(c1) && CondCompilable(c2)
  }

  function CondSize(c: Cond): nat
    requires CondCompilable(c)
  {
    match c
    case Cmp(_, l, r) => if Simple(r) then |ExprCode(l, 0)| + 4 else |ExprCode(r, 0)| + |ExprCode(l, 1)| + 6
    case CmpK(_, e, _) => |ExprCode(e, 0)| + 3
    case Not(d) => CondSize(d)
    case Both(c1, c2) => CondSize(c1) + CondSize(c2)
    case Either(c1, c2) => CondSize(c1) + CondSize(c2)
  }

  const MAX_SIZE := 0x7FFF_FFFF

  /** A conditional jump over short distances to two unconditional ones over long distances. */
  function Fork(code: U16, k: U32, t: nat, e: nat): (s: seq<Insn>)
    requires t + e + 1 < MAX_SIZE
    ensures |s| == 3
  {
    [Insn(code, 0, 1, k), Plain(0x05, t + 1), Plain(0x05, e)]
  }

  /** A program that continues `t` instructions behind its end if the condition holds and `e` if not. */
  function CondCode(c: Cond, t: nat, e: nat): (s: seq<Insn>)
    requires CondCompilable(c) && CondSize(c) + t + e + 1 < MAX_SIZE
    ensures |s| == CondSize(c)
  {
    match c
    case Cmp(compare, l, r) =>
      if Simple(r) then ExprCode(l, 0) + [LoadX(r)] + Fork(WithX(JumpCode(compare)), 0, t, e)
      else
        ExprCode(r, 0) + [Plain(0x07, 0), Plain(0x03, 0)] + ExprCode(l, 1) + [Plain(0x61, 0)] +
        Fork(WithX(JumpCode(compare)), 0, t, e)
    case CmpK(compare, d, k) => ExprCode(d, 0) + Fork(JumpCode(compare), k, t, e)
    case Not(d) => CondCode(d, e, t)
    case Both(c1, c2) => CondCode(c1, 0, CondSize(c2) + e) + CondCode(c2, t, e)
    case Either(c1, c2) => CondCode(c1, CondSize(c2) + t, 0) + CondCode(c2, t, e)
  }

  /** The filter that returns `n` for the packets that meet the condition. */
  function FilterCode(c: Cond, n: U32): seq<Insn>
    requires CondCompilable(c) && CondSize(c) + 2 < MAX_SIZE
  {
    CondCode(c, 0, 1) + [Plain(0x06, n), Plain(0x06, 0)]
  }

  /** The filter that returns the value of an expression. */
  function ValueCode(e: Expr): seq<Insn>
    requires Compilable(e, 0)
  {
    ExprCode(e, 0) + [Plain(0x16, 0)]
  }

  // ---------------------------------------------------------------------------------------------
  // Their runs
  // ---------------------------------------------------------------------------------------------

  lemma JumpsExecute(env: Env, vm: Vm, compare: Compare, jt: U8, jf: U8, k: U32, jump: U32)
    requires env.Valid() && |vm.mem| == BPF_MEMWORDS && jump < 0x8000_0000
    ensures Execute(Insn(JumpCode(compare), jt, jf, k), env, vm) ==
            Next(vm.(pc := vm.pc + 1 + if Compared(compare, vm.a, k) then jt else jf))
    ensures Execute(Insn(WithX(JumpCode(compare)), jt, jf, k), env, vm) ==
            Next(vm.(pc := vm.pc + 1 + if Compared(compare, vm.a, vm.x) then jt else jf))
    ensures Execute(Plain(0x05, jump), env, vm) == Next(vm.(pc := vm.pc + 1 + jump))
  {
    Codes();
    FamilyCodes(Byte, ADD, compare);
    HoldsIsCompared(compare, vm.a, k);
    HoldsIsCompared(compare, vm.a, vm.x);
    hide Decode, Holds, Compared, JumpCode;
  }

  lemma ReturnsExecute(env: Env, vm: Vm, k: U32)
    requires env.Valid() && |vm.mem| == BPF_MEMWORDS
    ensures Execute(Plain(0x06, k), env, vm) == Return(k) && Execute(Plain(0x16, 0), env, vm) == Return(vm.a)
  {
    Codes();
    hide Decode;
  }

  /** What a run of the code of a condition comes to, in `used` steps. */
  ghost predicate Decides(f: seq<Insn>, env: Env, vm: Vm, vm': Vm, size: nat, truth: Option<bool>,
                          t: nat, e: nat, steps: nat, used: nat)
    requires env.Valid() && |vm.mem| == BPF_MEMWORDS && size <= steps
  {
    if truth.None? then Run(f, env, vm, steps) == Returned(0)
    else
      && |vm'.mem| == BPF_MEMWORDS && vm'.pc == vm.pc + size + (if truth.value then t else e) && used <= size
      && Run(f, env, vm, steps) == Run(f, env, vm', steps - used)
  }

  lemma ForkRuns(f: seq<Insn>, env: Env, vm: Vm, compare: Compare, useX: bool, k: U32, t: nat, e: nat, steps: nat)
    returns (vm': Vm)
    requires env.Valid() && |vm.mem| == BPF_MEMWORDS && t + e + 1 < MAX_SIZE && 3 <= steps
    requires Placed(f, vm.pc, Fork(if useX then WithX(JumpCode(compare)) else JumpCode(compare), k, t, e))
    ensures Decides(f, env, vm, vm', 3, Some(Compared(compare, vm.a, if useX then vm.x else k)), t, e, steps, 2)
  {
    hide Run, Execute, Compared, JumpCode;
    var fork := Fork(if useX then WithX(JumpCode(compare)) else JumpCode(compare), k, t, e);
    var holds := Compared(compare, vm.a, if useX then vm.x else k);
    PlacedAt(f, vm.pc, fork, 0);
    PlacedAt(f, vm.pc, fork, 1);
    PlacedAt(f, vm.pc, fork, 2);
    Runs(f, env, vm, fork[0], steps);
    JumpsExecute(env, vm, compare, 0, 1, k, 0);
    var jumped := Execute(fork[0], env, vm).vm;
    var long := if holds then fork[1] else fork[2];
    Runs(f, env, jumped, long, steps - 1);
    JumpsExecute(env, jumped, compare, 0, 1, k, long.k);
    vm' := Execute(long, env, jumped).vm;
  }

  /** A run that comes, `before` instructions on, to a state from which the rest decides. */
  lemma Reached(f: seq<Insn>, env: Env, vm: Vm, at: Vm, vm': Vm, before: nat, after: nat, size: nat,
                truth: Option<bool>, t: nat, e: nat, steps: nat, used: nat)
    requires env.Valid() && |vm.mem| == |at.mem| == BPF_MEMWORDS
    requires at.pc == vm.pc + before && after <= before && before + size <= steps
    requires Run(f, env, vm, steps) == Run(f, env, at, steps - after)
    requires Decides(f, env, at, vm', size, truth, t, e, steps - after, used)
    ensures Decides(f, env, vm, vm', before + size, truth, t, e, steps, after + used)
  {
    hide Run;
  }

  lemma CmpKRuns(f: seq<Insn>, env: Env, vm: Vm, c: Cond, t: nat, e: nat, steps: nat) returns (vm': Vm, used: nat)
    requires env.Valid() && |vm.mem| == BPF_MEMWORDS && c.CmpK? && CondCompilable(c)
    requires CondSize(c) + t + e + 1 < MAX_SIZE && CondSize(c) <= steps && Placed(f, vm.pc, CondCode(c, t, e))
    ensures Decides(f, env, vm, vm', CondSize(c), Truth(c, env), t, e, steps, used)
  {
    hide Run, ExprCode, Value, Placed, Computes, Compared, JumpCode, Fork;
    var n := |ExprCode(c.e, 0)|;
    PlacedParts(f, vm.pc, ExprCode(c.e, 0), Fork(JumpCode(c.compare), c.k, t, e));
    var a := ExprRuns(f, env, vm, c.e, 0, steps);
    vm', used := vm, n + 2;
    if Value(c.e, env).Some? {
      Computed(f, env, vm, a, n, Value(c.e, env), 0, steps);
      ComputedRun(f, env, vm, a, n, Value(c.e, env), 0, steps);
      vm' := ForkRuns(f, env, a, c.compare, false, c.k, t, e, steps - n);
      Reached(f, env, vm, a, vm', n, n, 3, Some(Compared(c.compare, a.a, c.k)), t, e, steps, 2);
    } else {
      NothingComputed(f, env, vm, a, n, 0, steps);
    }
  }

  lemma ComputedRun(f: seq<Insn>, env: Env, vm: Vm, vm': Vm, size: nat, v: Option<nat>, d: nat, steps: nat)
    requires env.Valid() && |vm.mem| == BPF_MEMWORDS && size <= steps && v.Some?
    requires Computes(f, env, vm, vm', size, v, d, steps)
    ensures |vm'.mem| == BPF_MEMWORDS && d <= BPF_MEMWORDS && vm'.mem[..d] == vm.mem[..d]
    ensures Run(f, env, vm, steps) == Run(f, env, vm', steps - size)
  {
    hide Run;
  }

  lemma NothingComputed(f: seq<Insn>, env: Env, vm: Vm, vm': Vm, size: nat, d: nat, steps: nat)
    requires env.Valid() && |vm.mem| == BPF_MEMWORDS && size <= steps
    requires Computes(f, env, vm, vm', size, None, d, steps)
    ensures Run(f, env, vm, steps) == Returned(0)
  {
    hide Run;
  }

  lemma LoadXRuns(f: seq<Insn>, env: Env, a: Vm, r: Expr, steps: nat) returns (x: Vm)
    requires env.Valid() && |a.mem| == BPF_MEMWORDS && Simple(r) && steps > 0 && Placed(f, a.pc, [LoadX(r)])
    ensures Value(r, env).None? ==> Run(f, env, a, steps) == Returned(0)
    ensures Value(r, env).Some? ==>
              && x.pc == a.pc + 1 && x.mem == a.mem && x.a == a.a && x.x == Value(r, env).value
              && Run(f, env, a, steps) == Run(f, env, x, steps - 1)
  {
    hide Run, Execute;
    PlacedAt(f, a.pc, [LoadX(r)], 0);
    Runs(f, env, a, LoadX(r), steps);
    match r {
      case Const(k) => LoadsExecute(env, a, k);
      case Length => LoadsExecute(env, a, 0);
      case HeaderLength(k) => HeaderLengthExecutes(env, a, k);
    }
    var effect := Execute(LoadX(r), env, a);
    x := if effect.Next? then effect.vm else a;
  }

  lemma CmpSimpleRuns(f: seq<Insn>, env: Env, vm: Vm, c: Cond, t: nat, e: nat, steps: nat)
    returns (vm': Vm, used: nat)
    requires env.Valid() && |vm.mem| == BPF_MEMWORDS && c.Cmp? && Simple(c.right) && CondCompilable(c)
    requires CondSize(c) + t + e + 1 < MAX_SIZE && CondSize(c) <= steps && Placed(f, vm.pc, CondCode(c, t, e))
    ensures Decides(f, env, vm, vm', CondSize(c), Truth(c, env), t, e, steps, used)
  {
    hide Run, ExprCode, Value, Placed, Computes, Compared, JumpCode, Fork, LoadX;
    var left, fork := ExprCode(c.left, 0), Fork(WithX(JumpCode(c.compare)), 0, t, e);
    var n := |left|;
    PlacedParts(f, vm.pc, left + [LoadX(c.right)], fork);
    PlacedParts(f, vm.pc, left, [LoadX(c.right)]);
    var a := ExprRuns(f, env, vm, c.left, 0, steps);
    vm', used := vm, n + 3;
    if Value(c.left, env).Some? {
      Computed(f, env, vm, a, n, Value(c.left, env), 0, steps);
      ComputedRun(f, env, vm, a, n, Value(c.left, env), 0, steps);
      var x := LoadXRuns(f, env, a, c.right, steps - n);
      if Value(c.right, env).Some? {
        vm' := ForkRuns(f, env, x, c.compare, true, 0, t, e, steps - n - 1);
        Reached(f, env, vm, x, vm', n + 1, n + 1, 3, Some(Compared(c.compare, x.a, x.x)), t, e, steps, 2);
      }
    } else {
      NothingComputed(f, env, vm, a, n, 0, steps);
    }
  }

  lemma SaveXRuns(f: seq<Insn>, env: Env, b: Vm, steps: nat) returns (saved: Vm)
    requires env.Valid() && |b.mem| == BPF_MEMWORDS && steps >= 2
    requires Placed(f, b.pc, [Plain(0x07, 0), Plain(0x03, 0)])
    ensures |saved.mem| == BPF_MEMWORDS && saved.pc == b.pc + 2 && saved.mem[0] == b.a
    ensures Run(f, env, b, steps) == Run(f, env, saved, steps - 2)
  {
    hide Run, Execute;
    var code := [Plain(0x07, 0), Plain(0x03, 0)];
    PlacedAt(f, b.pc, code, 0);
    PlacedAt(f, b.pc, code, 1);
    Runs(f, env, b, code[0], steps);
    MovesExecute(env, b);
    var moved := Execute(code[0], env, b).vm;
    Runs(f, env, moved, code[1], steps - 1);
    ScratchExecutes(env, moved, 0);
    saved := Execute(code[1], env, moved).vm;
  }

  lemma RestoreXRuns(f: seq<Insn>, env: Env, a: Vm, steps: nat) returns (x: Vm)
    requires env.Valid() && |a.mem| == BPF_MEMWORDS && steps > 0 && Placed(f, a.pc, [Plain(0x61, 0)])
    ensures x.pc == a.pc + 1 && x.mem == a.mem && x.a == a.a && x.x == a.mem[0]
    ensures Run(f, env, a, steps) == Run(f, env, x, steps - 1)
  {
    hide Run, Execute;
    PlacedAt(f, a.pc, [Plain(0x61, 0)], 0);
    Runs(f, env, a, Plain(0x61, 0), steps);
    ScratchExecutes(env, a, 0);
    x := Execute(Plain(0x61, 0), env, a).vm;
  }

  lemma CmpParts(f: seq<Insn>, at: int, c: Cond, t: nat, e: nat)
    requires c.Cmp? && !Simple(c.right) && CondCompilable(c) && CondSize(c) + t + e + 1 < MAX_SIZE
    requires Placed(f, at, CondCode(c, t, e))
    ensures var n, m := |ExprCode(c.right, 0)|, |ExprCode(c.left, 1)|;
            && Compilable(c.right, 0) && Compilable(c.left, 1)
            && Placed(f, at, ExprCode(c.right, 0)) && Placed(f, at + n, [Plain(0x07, 0), Plain(0x03, 0)])
            && Placed(f, at + n + 2, ExprCode(c.left, 1)) && Placed(f, at + n + 2 + m, [Plain(0x61, 0)])
            && Placed(f, at + n + 2 + m + 1, Fork(WithX(JumpCode(c.compare)), 0, t, e))
            && CondSize(c) == n + 2 + m + 1 + 3
  {
    hide Placed, ExprCode, JumpCode, Fork;
    var right, left := ExprCode(c.right, 0), ExprCode(c.left, 1);
    var save, restore := [Plain(0x07, 0), Plain(0x03, 0)], [Plain(0x61, 0)];
    PlacedParts(f, at, right + save + left + restore, Fork(WithX(JumpCode(c.compare)), 0, t, e));
    PlacedParts(f, at, right + save + left, restore);
    PlacedParts(f, at, right + save, left);
    PlacedParts(f, at, right, save);
  }

  /** The left operand, with the right one in cell 0, and the comparison. */
  lemma LeftRuns(f: seq<Insn>, env: Env, saved: Vm, c: Cond, t: nat, e: nat, steps: nat) returns (vm': Vm)
    requires env.Valid() && |saved.mem| == BPF_MEMWORDS && c.Cmp? && Compilable(c.left, 1)
    requires t + e + 1 < MAX_SIZE && |ExprCode(c.left, 1)| + 4 <= steps
    requires var m := |ExprCode(c.left, 1)|;
             && Placed(f, saved.pc, ExprCode(c.left, 1)) && Placed(f, saved.pc + m, [Plain(0x61, 0)])
             && Placed(f, saved.pc + m + 1, Fork(WithX(JumpCode(c.compare)), 0, t, e))
    ensures var m, va := |ExprCode(c.left, 1)|, Value(c.left, env);
            var truth := if va.None? then None else Some(Compared(c.compare, va.value, saved.mem[0]));
            Decides(f, env, saved, vm', m + 4, truth, t, e, steps, m + 3)
  {
    hide Run, ExprCode, Value, Placed, Computes, Compared, JumpCode, Fork, Compilable;
    var m, va := |ExprCode(c.left, 1)|, Value(c.left, env);
    var a := ExprRuns(f, env, saved, c.left, 1, steps);
    vm' := saved;
    if va.Some? {
      Computed(f, env, saved, a, m, va, 1, steps);
      ComputedRun(f, env, saved, a, m, va, 1, steps);
      assert a.mem[0] == a.mem[..1][0] == saved.mem[..1][0];
      var x := RestoreXRuns(f, env, a, steps - m);
      vm' := ForkRuns(f, env, x, c.compare, true, 0, t, e, steps - m - 1);
      Reached(f, env, saved, x, vm', m + 1, m + 1, 3, Some(Compared(c.compare, x.a, x.x)), t, e, steps, 2);
    } else {
      NothingComputed(f, env, saved, a, m, 1, steps);
    }
  }

  lemma CmpTruth(c: Cond, env: Env)
    requires env.Valid() && c.Cmp?
    ensures var va, vb := Value(c.left, env), Value(c.right, env);
            Truth(c, env) ==
            if va.None? || vb.None? then None else Some(Compared(c.compare, va.value, vb.value))
  {
  }

  lemma Nothing(f: seq<Insn>, env: Env, vm: Vm, vm': Vm, size: nat, t: nat, e: nat, steps: nat, used: nat)
    requires env.Valid() && |vm.mem| == BPF_MEMWORDS && size <= steps && Run(f, env, vm, steps) == Returned(0)
    ensures Decides(f, env, vm, vm', size, None, t, e, steps, used)
  {
    hide Run;
  }

  /** The right operand, which ends up in cell 0. */
  lemma RightRuns(f: seq<Insn>, env: Env, vm: Vm, r: Expr, steps: nat) returns (saved: Vm)
    requires env.Valid() && |vm.mem| == BPF_MEMWORDS && Compilable(r, 0) && |ExprCode(r, 0)| + 2 <= steps
    requires Placed(f, vm.pc, ExprCode(r, 0)) && Placed(f, vm.pc + |ExprCode(r, 0)|, [Plain(0x07, 0), Plain(0x03, 0)])
    ensures Value(r, env).None? ==> Run(f, env, vm, steps) == Returned(0)
    ensures Value(r, env).Some? ==>
              && |saved.mem| == BPF_MEMWORDS && saved.mem[0] == Value(r, env).value
              && saved.pc == vm.pc + (|ExprCode(r, 0)| + 2)
              && Run(f, env, vm, steps) == Run(f, env, saved, steps - (|ExprCode(r, 0)| + 2))
  {
    hide Run, ExprCode, Value, Placed, Computes, Compilable;
    var n, vb := |ExprCode(r, 0)|, Value(r, env);
    var b := ExprRuns(f, env, vm, r, 0, steps);
    saved := vm;
    if vb.Some? {
      Computed(f, env, vm, b, n, vb, 0, steps);
      ComputedRun(f, env, vm, b, n, vb, 0, steps);
      saved := SaveXRuns(f, env, b, steps - n);
    } else {
      NothingComputed(f, env, vm, b, n, 0, steps);
    }
  }

  lemma CmpRuns(f: seq<Insn>, env: Env, vm: Vm, c: Cond, t: nat, e: nat, steps: nat) returns (vm': Vm, used: nat)
    requires env.Valid() && |vm.mem| == BPF_MEMWORDS && c.Cmp? && !Simple(c.right) && CondCompilable(c)
    requires CondSize(c) + t + e + 1 < MAX_SIZE && CondSize(c) <= steps && Placed(f, vm.pc, CondCode(c, t, e))
    ensures Decides(f, env, vm, vm', CondSize(c), Truth(c, env), t, e, steps, used)
  {
    hide *;
    CmpParts(f, vm.pc, c, t, e);
    CmpTruth(c, env);
    var n, m := |ExprCode(c.right, 0)|, |ExprCode(c.left, 1)|;
    var saved := RightRuns(f, env, vm, c.right, steps);
    vm', used := vm, n + 2 + (m + 3);
    if Value(c.right, env).Some? {
      vm' := LeftRuns(f, env, saved, c, t, e, steps - (n + 2));
      Reached(f, env, vm, saved, vm', n + 2, n + 2, m + 4, Truth(c, env), t, e, steps, m + 3);
    } else {
      Nothing(f, env, vm, vm', CondSize(c), t, e, steps, used);
    }
  }

  /** A run of the code of a condition goes where its truth says. */
  lemma {:induction false} CondRuns(f: seq<Insn>, env: Env, vm: Vm, c: Cond, t: nat, e: nat, steps: nat)
    returns (vm': Vm, used: nat)
    requires env.Valid() && |vm.mem| == BPF_MEMWORDS && CondCompilable(c)
    requires CondSize(c) + t + e + 1 < MAX_SIZE && CondSize(c) <= steps && Placed(f, vm.pc, CondCode(c, t, e))
    ensures Decides(f, env, vm, vm', CondSize(c), Truth(c, env), t, e, steps, used)
    decreases c, 1
  {
    hide Run, ExprCode, Value, Placed, Compared, JumpCode, Fork;
    match c
    case Cmp(_, _, r) =>
      if Simple(r) {
        vm', used := CmpSimpleRuns(f, env, vm, c, t, e, steps);
      } else {
        vm', used := CmpRuns(f, env, vm, c, t, e, steps);
      }
    case CmpK(_, _, _) => vm', used := CmpKRuns(f, env, vm, c, t, e, steps);
    case Not(d) => vm', used := CondRuns(f, env, vm, d, e, t, steps);
    case Both(c1, c2) => vm', used := PairRuns(f, env, vm, c, c1, c2, t, e, steps);
    case Either(c1, c2) => vm', used := PairRuns(f, env, vm, c, c1, c2, t, e, steps);
  }

  /** Two conditions: the second one is met only if the first one does not decide. */
  lemma PairRuns(f: seq<Insn>, env: Env, vm: Vm, c: Cond, c1: Cond, c2: Cond, t: nat, e: nat, steps: nat)
    returns (vm': Vm, used: nat)
    requires env.Valid() && |vm.mem| == BPF_MEMWORDS && CondCompilable(c) && (c == Both(c1, c2) || c == Either(c1, c2))
    requires CondSize(c) + t + e + 1 < MAX_SIZE && CondSize(c) <= steps && Placed(f, vm.pc, CondCode(c, t, e))
    ensures Decides(f, env, vm, vm', CondSize(c), Truth(c, env), t, e, steps, used)
    decreases c, 0
  {
    hide *;
    PairParts(f, vm.pc, c, c1, c2, t, e);
    PairTruth(c, c1, c2, env);
    var t1, e1 := if c.Both? then 0 else CondSize(c2) + t, if c.Both? then CondSize(c2) + e else 0;
    vm', used := CondRuns(f, env, vm, c1, t1, e1, steps);
    if Truth(c1, env) == Some(c.Both?) {
      var first, after := vm', used;
      Decided(f, env, vm, first, CondSize(c1), c.Both?, t1, e1, steps, after);
      vm', used := CondRuns(f, env, first, c2, t, e, steps - after);
      Reached(f, env, vm, first, vm', CondSize(c1), after, CondSize(c2), Truth(c2, env), t, e, steps, used);
      used := after + used;
    } else {
      LeftOut(f, env, vm, vm', CondSize(c1), CondSize(c2), c.Both?, Truth(c1, env), t, e, steps, used);
    }
  }

  lemma PairParts(f: seq<Insn>, at: int, c: Cond, c1: Cond, c2: Cond, t: nat, e: nat)
    requires CondCompilable(c) && (c == Both(c1, c2) || c == Either(c1, c2))
    requires CondSize(c) + t + e + 1 < MAX_SIZE && Placed(f, at, CondCode(c, t, e))
    ensures CondCompilable(c1) && CondCompilable(c2) && CondSize(c) == CondSize(c1) + CondSize(c2)
    ensures c.Both? ==> Placed(f, at, CondCode(c1, 0, CondSize(c2) + e))
    ensures c.Either? ==> Placed(f, at, CondCode(c1, CondSize(c2) + t, 0))
    ensures Placed(f, at + CondSize(c1), CondCode(c2, t, e))
  {
    hide Placed, ExprCode, JumpCode, Fork;
    PlacedParts(f, at, if c.Both? then CondCode(c1, 0, CondSize(c2) + e) else CondCode(c1, CondSize(c2) + t, 0),
                CondCode(c2, t, e));
  }

  lemma PairTruth(c: Cond, c1: Cond, c2: Cond, env: Env)
    requires env.Valid() && (c == Both(c1, c2) || c == Either(c1, c2))
    ensures Truth(c, env) == if Truth(c1, env) == Some(c.Both?) then Truth(c2, env) else Truth(c1, env)
  {
  }

  /** What is known of a first condition that leaves the decision to the second one. */
  lemma Decided(f: seq<Insn>, env: Env, vm: Vm, vm': Vm, size: nat, truth: bool, t: nat, e: nat, steps: nat, used: nat)
    requires env.Valid() && |vm.mem| == BPF_MEMWORDS && size <= steps && (if truth then t else e) == 0
    requires Decides(f, env, vm, vm', size, Some(truth), t, e, steps, used)
    ensures |vm'.mem| == BPF_MEMWORDS && vm'.pc == vm.pc + size && used <= size
    ensures Run(f, env, vm, steps) == Run(f, env, vm', steps - used)
  {
    hide Run;
  }

  /** A first condition that decides skips the code of the second one. */
  lemma LeftOut(f: seq<Insn>, env: Env, vm: Vm, vm': Vm, size: nat, rest: nat, both: bool, truth: Option<bool>,
                t: nat, e: nat, steps: nat, used: nat)
    requires env.Valid() && |vm.mem| == BPF_MEMWORDS && size + rest <= steps && truth != Some(both)
    requires Decides(f, env, vm, vm', size, truth, if both then 0 else rest + t, if both then rest + e else 0,
                     steps, used)
    ensures Decides(f, env, vm, vm', size + rest, truth, t, e, steps, used)
  {
    hide Run;
  }

  // ---------------------------------------------------------------------------------------------
  // Filters
  // ---------------------------------------------------------------------------------------------

  /** The filter of a condition returns `n` exactly for the packets that meet it, and 0 for all others,
      with any content of the scratch memory. */
  lemma FilterDecides(c: Cond, n: U32, env: Env, mem: seq<U32>, steps: nat)
    requires env.Valid() && |mem| == BPF_MEMWORDS && CondCompilable(c) && CondSize(c) + 2 < MAX_SIZE
    requires steps >= |FilterCode(c, n)|
    ensures FilterOutcome(Code(FilterCode(c, n)), env, mem, steps) ==
            Returned(if Truth(c, env) == Some(true) then n else 0)
  {
    var f, vm := FilterCode(c, n), Start(mem);
    var ends := [Plain(0x06, n), Plain(0x06, 0)];
    var size := CondSize(c);
    assert Placed(f, 0, CondCode(c, 0, 1) + ends);
    PlacedParts(f, 0, CondCode(c, 0, 1), ends);
    PlacedAt(f, size, ends, 0);
    PlacedAt(f, size, ends, 1);
    hide Run, Execute, CondCode, Placed, Truth;
    var vm', used := CondRuns(f, env, vm, c, 0, 1, steps);
    if Truth(c, env).Some? {
      Runs(f, env, vm', f[vm'.pc], steps - used);
      ReturnsExecute(env, vm', f[vm'.pc].k);
    }
  }

  /** Both registers are 0 at first. */
  lemma RegistersStartAtZero(env: Env, mem: seq<U32>, steps: nat)
    requires env.Valid() && |mem| == BPF_MEMWORDS && steps >= 2
    ensures FilterOutcome(Code([Plain(0x16, 0)]), env, mem, steps) == Returned(0)
    ensures FilterOutcome(Code([Plain(0x87, 0), Plain(0x16, 0)]), env, mem, steps) == Returned(0)
  {
    hide Run, Execute;
    var vm := Start(mem);
    var a, x := [Plain(0x16, 0)], [Plain(0x87, 0), Plain(0x16, 0)];
    Runs(a, env, vm, a[0], steps);
    ReturnsExecute(env, vm, 0);
    Runs(x, env, vm, x[0], steps);
    MovesExecute(env, vm);
    var moved := Execute(x[0], env, vm).vm;
    Runs(x, env, moved, x[1], steps - 1);
    ReturnsExecute(env, moved, 0);
  }

  /** The filter of an expression returns its value, and 0 if it has none. */
  lemma FilterComputes(e: Expr, env: Env, mem: seq<U32>, steps: nat)
    requires env.Valid() && |mem| == BPF_MEMWORDS && Compilable(e, 0) && steps >= |ValueCode(e)|
    ensures var v := Value(e, env);
            && (v.None? ==> FilterOutcome(Code(ValueCode(e)), env, mem, steps) == Returned(0))
            && (v.Some? ==> v.value < 0x1_0000_0000 &&
                            FilterOutcome(Code(ValueCode(e)), env, mem, steps) == Returned(v.value))
  {
    var f, vm := ValueCode(e), Start(mem);
    var n := |ExprCode(e, 0)|;
    assert Placed(f, 0, ExprCode(e, 0) + [Plain(0x16, 0)]);
    PlacedParts(f, 0, ExprCode(e, 0), [Plain(0x16, 0)]);
    PlacedAt(f, n, [Plain(0x16, 0)], 0);
    hide Run, Execute, ExprCode, Placed, Value, Computes;
    var a := ExprRuns(f, env, vm, e, 0, steps);
    if Value(e, env).Some? {
      Computed(f, env, vm, a, n, Value(e, env), 0, steps);
      ComputedRun(f, env, vm, a, n, Value(e, env), 0, steps);
      Runs(f, env, a, Plain(0x16, 0), steps - n);
      ReturnsExecute(env, a, 0);
    } else {
      NothingComputed(f, env, vm, a, n, 0, steps);
    }
  }

  // ---------------------------------------------------------------------------------------------
  // The checker accepts them
  // ---------------------------------------------------------------------------------------------

  /** What the checker asks of an instruction with `room` instructions from itself to the end. */
  predicate RoomOk(insn: Insn, room: nat) {
    if ClassOf(insn.code) != JMP then InsnOk(insn, 0, 1)
    else if OpOf(insn.code) == 0x00 then insn.k < room
    else OpOf(insn.code) in {0x10, 0x20, 0x30, 0x40} && insn.jt < room && insn.jf < room
  }

  /** Code that the checker accepts if more than `beyond` instructions follow it. */
  ghost predicate Fits(code: seq<Insn>, beyond: nat) {
    forall i | 0 <= i < |code| :: RoomOk(code[i], |code| - i + beyond)
  }

  lemma FitsFollowed(a: seq<Insn>, b: seq<Insn>, beyond: nat)
    requires Fits(a, |b| + beyond) && Fits(b, beyond)
    ensures Fits(a + b, beyond)
  {
    hide RoomOk;
  }

  lemma MoreRoom(insn: Insn, less: nat, more: nat)
    requires less <= more && RoomOk(insn, less)
    ensures RoomOk(insn, more)
  {
    hide ClassOf, OpOf, InsnOk;
  }

  lemma FitsMore(code: seq<Insn>, beyond: nat)
    requires Fits(code, 0)
    ensures Fits(code, beyond)
  {
    hide RoomOk;
    forall i | 0 <= i < |code| ensures RoomOk(code[i], |code| - i + beyond) {
      MoreRoom(code[i], |code| - i, |code| - i + beyond);
    }
  }

  lemma FitsAccepted(f: seq<Insn>, insn: Insn, i: nat)
    requires i < |f| < 0x8000_0000 && RoomOk(insn, |f| - i - 1)
    ensures InsnOk(insn, i, |f|)
  {
    hide ClassOf, OpOf, ModeOf, SrcOf;
  }

  lemma LeavesFit(k: U32, d: U32)
    requires d < BPF_MEMWORDS
    ensures Fits([Plain(0x00, k)], 0) && Fits([Plain(0x80, 0)], 0) && Fits([Plain(0xb1, k), Plain(0x87, 0)], 0)
    ensures Fits([Plain(0x30, k)], 0) && Fits([Plain(0x84, 0)], 0) && Fits([Plain(0x02, d)], 0)
  {
  }

  lemma FieldsFit(size: Size, k: U32)
    ensures Fits([Plain((SizeCode(size) as int) + 0x20, k)], 0)
    ensures Fits([Plain(0x07, 0), Plain((SizeCode(size) as int) + 0x40, k)], 0)
  {
  }

  lemma AluXOk(alu: Alu)
    ensures RoomOk(Plain(WithX(AluCode(alu)), 0), 1)
  {
  }

  lemma AluKOk(alu: Alu, k: U32)
    requires alu in {DIV, MOD} ==> k != 0
    ensures RoomOk(Plain(AluCode(alu), k), 1)
  {
  }

  lemma OperandOk(d: U32)
    requires d < BPF_MEMWORDS
    ensures RoomOk(Plain(0x07, 0), 3) && RoomOk(Plain(0x60, d), 2)
  {
  }

  lemma AluFits(alu: Alu, k: U32, d: U32)
    requires d < BPF_MEMWORDS
    ensures Fits([Plain(0x07, 0), Plain(0x60, d), Plain(WithX(AluCode(alu)), 0)], 0)
    ensures (alu in {DIV, MOD} ==> k != 0) ==> Fits([Plain(AluCode(alu), k)], 0)
  {
    hide RoomOk, AluCode;
    AluXOk(alu);
    if alu in {DIV, MOD} ==> k != 0 {
      AluKOk(alu, k);
    }
    OperandOk(d);
  }

  lemma {:induction false} ExprFits(e: Expr, d: nat)
    requires Compilable(e, d)
    ensures Fits(ExprCode(e, d), 0)
  {
    hide Fits, AluCode, SizeCode;
    match e
    case Const(k) => LeavesFit(k, 0);
    case Length => LeavesFit(0, 0);
    case HeaderLength(k) => LeavesFit(k, 0);
    case VlanTag => LeavesFit(0xFFFF_F02C, 0);
    case VlanPresent => LeavesFit(0xFFFF_F030, 0);
    case At(size, k) => FieldsFit(size, k);
    case AtOf(size, base, k) =>
      ExprFits(base, d);
      FieldsFit(size, k);
      Joined(ExprCode(base, d), [Plain(0x07, 0), Plain((SizeCode(size) as int) + 0x40, k)]);
    case Minus(b) =>
      ExprFits(b, d);
      LeavesFit(0, 0);
      Joined(ExprCode(b, d), [Plain(0x84, 0)]);
    case ApplyK(alu, b, k) =>
      ExprFits(b, d);
      AluFits(alu, k, 0);
      Joined(ExprCode(b, d), [Plain(AluCode(alu), k)]);
    case Apply(alu, l, r) =>
      ExprFits(l, d);
      ExprFits(r, d + 1);
      LeavesFit(0, d);
      AluFits(alu, 0, d);
      Joined(ExprCode(l, d), [Plain(0x02, d)]);
      Joined(ExprCode(l, d) + [Plain(0x02, d)], ExprCode(r, d + 1));
      Joined(ExprCode(l, d) + [Plain(0x02, d)] + ExprCode(r, d + 1),
             [Plain(0x07, 0), Plain(0x60, d), Plain(WithX(AluCode(alu)), 0)]);
  }

  lemma Joined(a: seq<Insn>, b: seq<Insn>)
    requires Fits(a, 0) && Fits(b, 0)
    ensures Fits(a + b, 0)
  {
    FitsMore(a, |b|);
    FitsFollowed(a, b, 0);
    hide Fits;
  }

  lemma JumpFits(compare: Compare, k: U32)
    ensures RoomOk(Insn(JumpCode(compare), 0, 1, k), 2) && RoomOk(Insn(WithX(JumpCode(compare)), 0, 1, k), 2)
  {
  }

  lemma ForkFits(compare: Compare, k: U32, t: nat, e: nat, beyond: nat)
    requires t + e + 1 < MAX_SIZE && t <= beyond && e <= beyond
    ensures Fits(Fork(JumpCode(compare), k, t, e), beyond)
    ensures Fits(Fork(WithX(JumpCode(compare)), k, t, e), beyond)
  {
    JumpFits(compare, k);
    MoreRoom(Insn(JumpCode(compare), 0, 1, k), 2, 3 + beyond);
    MoreRoom(Insn(WithX(JumpCode(compare)), 0, 1, k), 2, 3 + beyond);
    LongJumpFits(t + 1, 2 + beyond);
    LongJumpFits(e, 1 + beyond);
    hide RoomOk, JumpCode;
  }

  lemma LongJumpFits(k: U32, room: nat)
    requires k < room
    ensures RoomOk(Plain(0x05, k), room)
  {
  }

  lemma LoadXFits(r: Expr)
    requires Simple(r)
    ensures Fits([LoadX(r)], 0) && Fits([Plain(0x07, 0), Plain(0x03, 0)], 0) && Fits([Plain(0x61, 0)], 0)
  {
  }

  lemma Ended(a: seq<Insn>, b: seq<Insn>, beyond: nat)
    requires Fits(a, 0) && Fits(b, beyond)
    ensures Fits(a + b, beyond)
  {
    FitsMore(a, |b| + beyond);
    FitsFollowed(a, b, beyond);
    hide Fits;
  }

  lemma BothOperandsFit(l: Expr, r: Expr)
    requires Compilable(l, 1) && Compilable(r, 0)
    ensures Fits(ExprCode(r, 0) + [Plain(0x07, 0), Plain(0x03, 0)] + ExprCode(l, 1) + [Plain(0x61, 0)], 0)
  {
    hide Fits, ExprCode;
    LoadXFits(Length);
    ExprFits(r, 0);
    ExprFits(l, 1);
    Joined(ExprCode(r, 0), [Plain(0x07, 0), Plain(0x03, 0)]);
    Joined(ExprCode(r, 0) + [Plain(0x07, 0), Plain(0x03, 0)], ExprCode(l, 1));
    Joined(ExprCode(r, 0) + [Plain(0x07, 0), Plain(0x03, 0)] + ExprCode(l, 1), [Plain(0x61, 0)]);
  }

  /** Jumps out of the code of a condition go at most `t` or `e` instructions behind it. */
  lemma {:induction false} CondFits(c: Cond, t: nat, e: nat, beyond: nat)
    requires CondCompilable(c) && CondSize(c) + t + e + 1 < MAX_SIZE && t <= beyond && e <= beyond
    ensures Fits(CondCode(c, t, e), beyond)
  {
    hide Fits, JumpCode, Fork;
    match c
    case Cmp(compare, l, r) =>
      ForkFits(compare, 0, t, e, beyond);
      if Simple(r) {
        LoadXFits(r);
        ExprFits(l, 0);
        Joined(ExprCode(l, 0), [LoadX(r)]);
        Ended(ExprCode(l, 0) + [LoadX(r)], Fork(WithX(JumpCode(compare)), 0, t, e), beyond);
      } else {
        BothOperandsFit(l, r);
        Ended(ExprCode(r, 0) + [Plain(0x07, 0), Plain(0x03, 0)] + ExprCode(l, 1) + [Plain(0x61, 0)],
              Fork(WithX(JumpCode(compare)), 0, t, e), beyond);
      }
    case CmpK(compare, d, k) =>
      ExprFits(d, 0);
      ForkFits(compare, k, t, e, beyond);
      Ended(ExprCode(d, 0), Fork(JumpCode(compare), k, t, e), beyond);
    case Not(d) => CondFits(d, e, t, beyond);
    case Both(c1, c2) =>
      CondFits(c1, 0, CondSize(c2) + e, CondSize(c2) + beyond);
      CondFits(c2, t, e, beyond);
      FitsFollowed(CondCode(c1, 0, CondSize(c2) + e), CondCode(c2, t, e), beyond);
    case Either(c1, c2) =>
      CondFits(c1, CondSize(c2) + t, 0, CondSize(c2) + beyond);
      CondFits(c2, t, e, beyond);
      FitsFollowed(CondCode(c1, CondSize(c2) + t, 0), CondCode(c2, t, e), beyond);
  }

  lemma EndsFit(n: U32)
    ensures Fits([Plain(0x06, n), Plain(0x06, 0)], 0) && Fits([Plain(0x16, 0)], 0)
    ensures ClassOf(0x06) == RET && ClassOf(0x16) == RET
  {
  }

  lemma FitsChecked(f: seq<Insn>)
    requires 1 <= |f| < 0x8000_0000 && ClassOf(f[|f| - 1].code) == RET
    requires forall i | 0 <= i < |f| :: RoomOk(f[i], |f| - i - 1)
    ensures Accepted(f)
  {
    hide RoomOk, InsnOk, ClassOf;
    forall i | 0 <= i < |f| ensures InsnOk(f[i], i, |f|) {
      FitsAccepted(f, f[i], i);
    }
  }

  /** `code` is followed by returns. */
  lemma ReturnsFollow(code: seq<Insn>, ends: seq<Insn>)
    requires |ends| >= 1 && Fits(code, |ends| - 1) && |code| + |ends| < 0x8000_0000
    requires forall i | 0 <= i < |ends| :: ends[i].code in {0x06, 0x16}
    ensures Accepted(code + ends)
  {
    var f := code + ends;
    EndsFit(0);
    forall i | 0 <= i < |f| ensures RoomOk(f[i], |f| - i - 1) {
      if i >= |code| {
        assert f[i] == ends[i - |code|];
      }
    }
    hide RoomOk, ClassOf, OpOf;
    FitsChecked(f);
  }

  /** The checker accepts the programs of conditions and of expressions. */
  lemma FiltersAreAccepted(c: Cond, n: U32, e: Expr)
    ensures CondCompilable(c) && CondSize(c) + 2 < MAX_SIZE ==> Accepted(FilterCode(c, n))
    ensures Compilable(e, 0) && |ExprCode(e, 0)| + 1 < 0x8000_0000 ==> Accepted(ValueCode(e))
  {
    hide Accepted, Fits, CondCode, ExprCode;
    if CondCompilable(c) && CondSize(c) + 2 < MAX_SIZE {
      CondFits(c, 0, 1, 1);
      ReturnsFollow(CondCode(c, 0, 1), [Plain(0x06, n), Plain(0x06, 0)]);
    }
    if Compilable(e, 0) && |ExprCode(e, 0)| + 1 < 0x8000_0000 {
      ExprFits(e, 0);
      ReturnsFollow(ExprCode(e, 0), [Plain(0x16, 0)]);
    }
  }
}
