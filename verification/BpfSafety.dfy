/** What the static checker of `bpf_filter.c` guarantees about every run of the interpreter. */
module BpfSafety {
  import opened Words
  import opened Bits
  import opened Bpf

  // ---------------------------------------------------------------------------------------------
  // Codes
  // ---------------------------------------------------------------------------------------------

  lemma ScratchCodes(code: U16)
    ensures Decode(code) in {LoadMem, LoadXMem} ==> ClassOf(code) in {LD, LDX} && ModeOf(code) == 0x60
    ensures Decode(code) in {Store, StoreX} ==> ClassOf(code) in {ST, STX}
  {
  }

  lemma JumpCodes(code: U16)
    ensures Decode(code).Jump? ==> ClassOf(code) == JMP && OpOf(code) == 0x00
    ensures Decode(code).Branch? ==> ClassOf(code) == JMP && OpOf(code) in {0x10, 0x20, 0x30, 0x40}
  {
  }

  lemma LoadCodes(code: U16)
    ensures (Decode(code).LoadAbs? || Decode(code).LoadInd? ||
             Decode(code) in {LoadLen, LoadXLen, LoadXMsh, LoadImm, LoadXImm}) ==>
              ClassOf(code) in {LD, LDX} && ModeOf(code) in {0x00, 0x20, 0x40, 0x80, 0xa0}
  {
  }

  lemma ArithmeticCodes(code: U16)
    ensures Decode(code).Arith? || Decode(code).Neg? ==>
              ClassOf(code) == ALU && OpOf(code) in {0x00, 0x10, 0x20, 0x30, 0x40, 0x50, 0x60, 0x70, 0x80, 0x90, 0xa0}
    ensures Decode(code).Arith? ==>
              (OpOf(code) in {0x30, 0x90} <==> Decode(code).alu in {DIV, MOD}) &&
              (SrcOf(code) == 0x00 <==> Decode(code).source.FromK?)
    ensures Decode(code).Neg? ==> OpOf(code) == 0x80
  {
  }

  lemma ReturnCodes(code: U16)
    ensures ClassOf(code) == RET ==> Decode(code) in {RetK, RetA, Unknown}
    ensures Decode(code) in {RetK, RetA} ==> ClassOf(code) == RET
    ensures Decode(code) in {Tax, Txa} ==> ClassOf(code) == MISC
  {
  }

  // ---------------------------------------------------------------------------------------------
  // Soundness of the checker
  // ---------------------------------------------------------------------------------------------

  ghost predicate InProgram(f: seq<Insn>, vm: Vm) {
    0 <= vm.pc < |f| && |vm.mem| == BPF_MEMWORDS
  }

  /** The unsigned wrapping check on a jump offset puts the sign-extended jump inside the program. */
  lemma JumpLandsInside(i: nat, k: U32, len: nat)
    requires i < len < 0x8000_0000
    ensures Wrap32(i + 1 + k) < len <==> 0 <= i + 1 + Signed32(k) < len
  {
  }

  /** The codes the checker lets through but the interpreter has no defined behaviour for. */
  ghost predicate Undefined(insn: Insn) {
    match Decode(insn.code)
    case Unknown => true
    case Arith(alu, FromK) => alu in {LSH, RSH} && insn.k >= 32
    case _ => false
  }

  /** How such an instruction fails. */
  function UndefinedFault(insn: Insn): Fault {
    if Decode(insn.code).Unknown? then Abort else UndefinedShift
  }

  lemma UndefinedFails(insn: Insn, env: Env, vm: Vm)
    requires env.Valid() && |vm.mem| == BPF_MEMWORDS && Undefined(insn)
    ensures Execute(insn, env, vm) == Fails(UndefinedFault(insn))
  {
    hide Decode;
  }

  lemma LoadAbsShape(env: Env, vm: Vm, size: Size, k: U32)
    requires env.Valid()
    ensures var r := StepLoadAbs(env, vm, size, k); r.Next? || r.Return?
    ensures var r := StepLoadAbs(env, vm, size, k); r.Next? ==> r.vm.pc == vm.pc + 1 && r.vm.mem == vm.mem
  {
    hide Extract, Wrap32;
  }

  lemma LoadIndShape(env: Env, vm: Vm, size: Size, k: U32)
    requires env.Valid()
    ensures var r := StepLoadInd(env, vm, size, k); r.Next? || r.Return?
    ensures var r := StepLoadInd(env, vm, size, k); r.Next? ==> r.vm.pc == vm.pc + 1 && r.vm.mem == vm.mem
  {
    hide Extract, Wrap32;
  }

  lemma ScratchShape(vm: Vm, operation: Operation, k: U32)
    requires operation in {LoadMem, LoadXMem, Store, StoreX} && |vm.mem| == BPF_MEMWORDS
    ensures match StepScratch(vm, operation, k)
            case Next(vm') => vm'.pc == vm.pc + 1 && |vm'.mem| == BPF_MEMWORDS
            case Return(_) => false
            case Fails(fault) => fault == ScratchOutOfRange && k >= BPF_MEMWORDS
  {
  }

  lemma ArithShape(vm: Vm, alu: Alu, source: Source, k: U32)
    ensures match StepArith(vm, alu, source, k)
            case Next(vm') => vm'.pc == vm.pc + 1 && vm'.mem == vm.mem
            case Return(_) => true
            case Fails(fault) =>
              || (fault == DivisionByZero && alu in {DIV, MOD} && source == FromK && k == 0)
              || (fault == UndefinedShift && alu in {LSH, RSH} && source == FromK && k >= 32)
  {
    hide BitAnd, BitOr, BitXor, ShiftLeft, ShiftRight, Product, Quotient, Remainder, Wrap32;
  }

  /** Where an instruction continues and how it can fail, read off the interpreter alone. */
  lemma ExecuteShape(insn: Insn, env: Env, vm: Vm)
    requires env.Valid() && |vm.mem| == BPF_MEMWORDS
    ensures var operation := Decode(insn.code);
            match Execute(insn, env, vm)
            case Next(vm') =>
              && |vm'.mem| == BPF_MEMWORDS && !operation.RetK? && !operation.RetA? && !operation.Unknown?
              && (if operation.Jump? then vm'.pc == vm.pc + 1 + Signed32(insn.k)
                  else if operation.Branch? then vm'.pc == vm.pc + 1 + insn.jt || vm'.pc == vm.pc + 1 + insn.jf
                  else vm'.pc == vm.pc + 1)
            case Return(_) => true
            case Fails(fault) =>
              && (fault in {Abort, UndefinedShift} ==> Undefined(insn) && fault == UndefinedFault(insn))
              && !fault.OutsideProgram?
              && (fault.ScratchOutOfRange? ==>
                   operation in {LoadMem, LoadXMem, Store, StoreX} && insn.k >= BPF_MEMWORDS)
              && (fault.DivisionByZero? ==> operation in {Arith(DIV, FromK), Arith(MOD, FromK)} && insn.k == 0)
  {
    hide Decode, Holds, Wrap32, Signed32, StepLoadAbs, StepLoadInd, StepScratch, StepArith;
    match Decode(insn.code)
    case LoadAbs(size) => LoadAbsShape(env, vm, size, insn.k);
    case LoadInd(size) => LoadIndShape(env, vm, size, insn.k);
    case LoadMem => ScratchShape(vm, LoadMem, insn.k);
    case LoadXMem => ScratchShape(vm, LoadXMem, insn.k);
    case Store => ScratchShape(vm, Store, insn.k);
    case StoreX => ScratchShape(vm, StoreX, insn.k);
    case Arith(alu, source) => ArithShape(vm, alu, source, insn.k);
    case _ =>
  }

  /** An instruction that passes the checks fails only for want of a meaning, and leaves the program
      only by running off its end. */
  lemma CheckedInsn(f: seq<Insn>, env: Env, vm: Vm)
    requires |f| < 0x8000_0000 && env.Valid() && InProgram(f, vm) && InsnOk(f[vm.pc], vm.pc, |f|)
    ensures match Execute(f[vm.pc], env, vm)
            case Next(vm') =>
              || InProgram(f, vm')
              || (vm'.pc == vm.pc + 1 == |f| && !Decode(f[vm.pc].code).Jump? && !Decode(f[vm.pc].code).Branch?)
            case Return(_) => true
            case Fails(fault) => Undefined(f[vm.pc]) && fault == UndefinedFault(f[vm.pc])
  {
    hide Decode, ClassOf, ModeOf, OpOf, SrcOf, Execute, Undefined;
    var insn := f[vm.pc];
    ExecuteShape(insn, env, vm);
    ScratchCodes(insn.code);
    JumpCodes(insn.code);
    ArithmeticCodes(insn.code);
    JumpLandsInside(vm.pc, insn.k, |f|);
    hide Signed32;
  }

  lemma StepIsSafe(f: seq<Insn>, env: Env, vm: Vm)
    requires Accepted(f) && |f| < 0x8000_0000 && env.Valid() && InProgram(f, vm)
    ensures match Step(f, env, vm)
            case Next(vm') => InProgram(f, vm') && !Undefined(f[vm.pc])
            case Return(_) => !Undefined(f[vm.pc])
            case Fails(fault) => Undefined(f[vm.pc]) && fault == UndefinedFault(f[vm.pc])
  {
    hide Decode, ClassOf, InsnOk, Execute, Undefined, UndefinedFault;
    assert InsnOk(f[vm.pc], vm.pc, |f|);
    CheckedInsn(f, env, vm);
    ReturnCodes(f[|f| - 1].code);
    ExecuteShape(f[vm.pc], env, vm);
    if Undefined(f[vm.pc]) {
      UndefinedFails(f[vm.pc], env, vm);
    }
  }

  /** Every state a run of an accepted program reaches is inside the program, and no run leaves the
      program, misses the scratch memory or divides by a constant zero. */
  lemma {:induction false} AcceptedRunsAreSafe(f: seq<Insn>, env: Env, vm: Vm, steps: nat)
    requires Accepted(f) && |f| < 0x8000_0000 && env.Valid() && InProgram(f, vm)
    ensures match Run(f, env, vm, steps)
            case Running(vm') => InProgram(f, vm')
            case Returned(_) => true
            case Failed(fault) => fault in {Abort, UndefinedShift}
    decreases steps
  {
    hide Accepted, Step;
    if steps == 0 {
    } else {
      StepIsSafe(f, env, vm);
      var effect := Step(f, env, vm);
      if effect.Next? {
        AcceptedRunsAreSafe(f, env, effect.vm, steps - 1);
      }
    }
  }

  /** After `n` steps the run stands at an instruction without a meaning. */
  ghost predicate ReachesUndefined(f: seq<Insn>, env: Env, vm: Vm, n: nat)
    requires env.Valid() && |vm.mem| == BPF_MEMWORDS
  {
    var r := Run(f, env, vm, n);
    r.Running? && 0 <= r.vm.pc < |f| && Undefined(f[r.vm.pc])
  }

  lemma ReachesNext(f: seq<Insn>, env: Env, vm: Vm, n: nat)
    requires env.Valid() && |vm.mem| == BPF_MEMWORDS
    ensures ReachesUndefined(f, env, vm, 0) <==> 0 <= vm.pc < |f| && Undefined(f[vm.pc])
    ensures Step(f, env, vm).Next? ==>
              |Step(f, env, vm).vm.mem| == BPF_MEMWORDS &&
              Run(f, env, vm, n + 1) == Run(f, env, Step(f, env, vm).vm, n) &&
              (ReachesUndefined(f, env, vm, n + 1) <==> ReachesUndefined(f, env, Step(f, env, vm).vm, n))
    ensures !Step(f, env, vm).Next? ==> !ReachesUndefined(f, env, vm, n + 1)
  {
    RunNext(f, env, vm, n + 1);
    hide Step, Undefined;
  }

  /** A run of an accepted program that reaches an instruction without a meaning fails there, in the
      way that instruction fails. */
  lemma {:induction false} UndefinedEndsTheRun(f: seq<Insn>, env: Env, vm: Vm, n: nat, steps: nat)
    requires Accepted(f) && |f| < 0x8000_0000 && env.Valid() && InProgram(f, vm)
    requires n < steps && ReachesUndefined(f, env, vm, n)
    ensures Run(f, env, vm, steps) == Failed(UndefinedFault(f[Run(f, env, vm, n).vm.pc]))
    decreases n
  {
    hide Accepted, Step, Undefined, UndefinedFault, Run;
    StepIsSafe(f, env, vm);
    RunNext(f, env, vm, steps);
    RunNothing(f, env, vm);
    ReachesNext(f, env, vm, if n > 0 then n - 1 else 0);
    if n == 0 {
    } else {
      hide ReachesUndefined;
      UndefinedEndsTheRun(f, env, Step(f, env, vm).vm, n - 1, steps - 1);
    }
  }

  lemma {:induction false} FailureIsReached(f: seq<Insn>, env: Env, vm: Vm, steps: nat) returns (n: nat)
    requires Accepted(f) && |f| < 0x8000_0000 && env.Valid() && InProgram(f, vm)
    requires Run(f, env, vm, steps).Failed?
    ensures n < steps && ReachesUndefined(f, env, vm, n)
    decreases steps
  {
    hide Accepted, Step, Undefined, ReachesUndefined;
    StepIsSafe(f, env, vm);
    if Step(f, env, vm).Next? {
      RunNext(f, env, vm, steps);
      n := FailureIsReached(f, env, Step(f, env, vm).vm, steps - 1);
      ReachesNext(f, env, vm, n);
      n := n + 1;
    } else {
      ReachesNext(f, env, vm, 0);
      n := 0;
    }
  }

  /** A run of an accepted program fails exactly if it reaches an instruction without a meaning, and
      then as that instruction fails. */
  lemma AcceptedRunsFailOnlyAtUndefined(f: seq<Insn>, env: Env, vm: Vm, steps: nat)
    requires Accepted(f) && |f| < 0x8000_0000 && env.Valid() && InProgram(f, vm)
    ensures Run(f, env, vm, steps).Failed? <==> exists n | 0 <= n < steps :: ReachesUndefined(f, env, vm, n)
    ensures forall n | 0 <= n < steps && ReachesUndefined(f, env, vm, n) ::
              Run(f, env, vm, steps) == Failed(UndefinedFault(f[Run(f, env, vm, n).vm.pc]))
  {
    hide Accepted, Run;
    forall n | 0 <= n < steps && ReachesUndefined(f, env, vm, n)
      ensures Run(f, env, vm, steps) == Failed(UndefinedFault(f[Run(f, env, vm, n).vm.pc]))
    {
      UndefinedEndsTheRun(f, env, vm, n, steps);
    }
    if Run(f, env, vm, steps).Failed? {
      var n := FailureIsReached(f, env, vm, steps);
    }
  }

  ghost predicate CanFail(f: seq<Insn>, env: Env, vm: Vm, steps: nat)
    requires env.Valid()
  {
    InProgram(f, vm) && Run(f, env, vm, steps).Failed?
  }

  /** An accepted program never fails, from any state inside it and on any packet, exactly if it has no
      instruction without a meaning. */
  lemma NeverFailsExactly(f: seq<Insn>)
    requires Accepted(f) && |f| < 0x8000_0000
    ensures (forall env: Env, vm: Vm, steps: nat | env.Valid() :: !CanFail(f, env, vm, steps)) <==>
            (forall i | 0 <= i < |f| :: !Undefined(f[i]))
  {
    hide Accepted, Undefined, Run;
    forall env: Env, vm: Vm, steps: nat | env.Valid() && CanFail(f, env, vm, steps)
      ensures exists i | 0 <= i < |f| :: Undefined(f[i])
    {
      var n := FailureIsReached(f, env, vm, steps);
      assert Undefined(f[Run(f, env, vm, n).vm.pc]);
    }
    forall i: nat | i < |f| && Undefined(f[i])
      ensures exists env: Env, vm: Vm, steps: nat :: env.Valid() && CanFail(f, env, vm, steps)
    {
      var env, vm := Env([], 0, 0, NoAux), Vm(0, 0, i, seq(BPF_MEMWORDS, j => 0));
      RunNothing(f, env, vm);
      UndefinedEndsTheRun(f, env, vm, 0, 1);
      assert CanFail(f, env, vm, 1);
    }
  }

  /** The checker accepts LDX|ABS, for which the interpreter has no case. */
  lemma AcceptedProgramCanAbort(env: Env, mem: seq<U32>)
    requires env.Valid() && |mem| == BPF_MEMWORDS
    ensures var f := [Insn(0x21, 0, 0, 0), Insn(0x06, 0, 0, 0)];
            Accepted(f) && Run(f, env, Start(mem), 1) == Failed(Abort)
  {
    var f := [Insn(0x21, 0, 0, 0), Insn(0x06, 0, 0, 0)];
    RunNext(f, env, Start(mem), 1);
    assert Undefined(f[0]);
    UndefinedFails(f[0], env, Start(mem));
    hide Run, Execute;
  }

  /** The checker accepts a shift by a constant of 32 or more. */
  lemma AcceptedProgramCanShiftTooFar(env: Env, mem: seq<U32>)
    requires env.Valid() && |mem| == BPF_MEMWORDS
    ensures var f := [Insn(0x64, 0, 0, 32), Insn(0x06, 0, 0, 0)];
            Accepted(f) && Run(f, env, Start(mem), 1) == Failed(UndefinedShift)
  {
    var f := [Insn(0x64, 0, 0, 32), Insn(0x06, 0, 0, 0)];
    RunNext(f, env, Start(mem), 1);
    assert Undefined(f[0]);
    UndefinedFails(f[0], env, Start(mem));
    hide Run, Execute;
  }

  // ---------------------------------------------------------------------------------------------
  // What the checker rejects
  // ---------------------------------------------------------------------------------------------

  /** Executing instruction `i` from `vm` fails or leaves the program. */
  ghost predicate GoesWrong(f: seq<Insn>, env: Env, vm: Vm)
    requires env.Valid()
  {
    && |vm.mem| == BPF_MEMWORDS
    && match Step(f, env, vm)
       case Next(vm') => !(0 <= vm'.pc < |f|)
       case Return(_) => false
       case Fails(_) => true
  }

  /** The branch side that leaves the program is one no comparison can choose. */
  ghost predicate OutsideTargetIsDead(insn: Insn, i: nat, len: nat) {
    match Decode(insn.code)
    case Branch(JGT, FromK) => insn.k == 0xFFFF_FFFF && i + 1 + insn.jf < len
    case Branch(JGE, FromK) => insn.k == 0 && i + 1 + insn.jt < len
    case Branch(JSET, FromK) => insn.k == 0 && i + 1 + insn.jf < len
    case _ => false
  }

  lemma RejectedCodes(insn: Insn, i: nat, len: nat)
    requires i < len < 0x8000_0000 && !InsnOk(insn, i, len)
    ensures match Decode(insn.code)
            case Unknown => true
            case LoadMem | LoadXMem | Store | StoreX => insn.k >= BPF_MEMWORDS
            case Arith(alu, source) => alu in {DIV, MOD} && source == FromK && insn.k == 0
            case Jump => !(0 <= i + 1 + Signed32(insn.k) < len)
            case Branch(_, _) => i + 1 + insn.jt >= len || i + 1 + insn.jf >= len
            case _ => false
  {
    hide Decode, ClassOf, ModeOf, OpOf, SrcOf;
    ScratchCodes(insn.code);
    JumpCodes(insn.code);
    LoadCodes(insn.code);
    ArithmeticCodes(insn.code);
    ReturnCodes(insn.code);
    JumpLandsInside(i, insn.k, len);
    hide Signed32;
  }

  /** Codes that the checker cannot tell apart: it looks at the class alone, at the operation of an
      arithmetic or jump code, and at the mode of a load. */
  predicate Twins(c: U16, code: U16) {
    match code % 8
    case 2 | 3 | 6 | 7 => c % 8 == code % 8
    case 4 | 5 => c % 8 == code % 8 && c / 16 % 16 == code / 16 % 16
    case _ => c % 8 in {0, 1} && c / 32 % 8 == code / 32 % 8
  }

  lemma TwinsByParts(c: U16, code: U16)
    ensures Twins(c, code) <==>
            match ClassOf(code)
            case ST | STX | RET | MISC => ClassOf(c) == ClassOf(code)
            case ALU | JMP => ClassOf(c) == ClassOf(code) && OpOf(c) == OpOf(code)
            case LD | LDX => ClassOf(c) in {LD, LDX} && ModeOf(c) == ModeOf(code)
  {
  }

  /** The interpreter knows the code, or one that the checker cannot tell from it. */
  ghost predicate Recognised(code: U16) {
    exists c: U16 :: Twins(c, code) && Decode(c) != Unknown
  }

  /** What the operands must be for an operation of the interpreter. */
  predicate OperandsFit(operation: Operation, insn: Insn, i: nat, len: nat) {
    match operation
    case LoadMem | LoadXMem | Store | StoreX => insn.k < 16
    case Arith(DIV, _) | Arith(MOD, _) => insn.code / 8 % 2 == 0 ==> insn.k != 0
    case Jump => 0 <= i + 1 + Signed32(insn.k) < len
    case Branch(_, _) => i + 1 + insn.jt < len && i + 1 + insn.jf < len
    case _ => true
  }

  lemma KnownArithmetic(code: U16)
    requires ClassOf(code) in {ALU, JMP}
    requires if ClassOf(code) == ALU
             then OpOf(code) in {0x00, 0x10, 0x20, 0x30, 0x40, 0x50, 0x60, 0x70, 0x80, 0x90, 0xa0}
             else OpOf(code) in {0x00, 0x10, 0x20, 0x30, 0x40}
    ensures Recognised(code)
  {
    var c := (if ClassOf(code) == ALU then 0x04 else 0x05) + OpOf(code);
    assert Twins(c, code) && Decode(c) != Unknown;
  }

  lemma KnownLoad(code: U16)
    requires ClassOf(code) in {LD, LDX} && ModeOf(code) in {0x00, 0x20, 0x40, 0x60, 0x80, 0xa0}
    ensures Recognised(code)
  {
    var c := if ModeOf(code) == 0xa0 then 0xb1 else ModeOf(code);
    assert Twins(c, code) && Decode(c) != Unknown;
  }

  lemma KnownClass(code: U16)
    requires ClassOf(code) in {ST, STX, RET, MISC}
    ensures Recognised(code)
  {
    var c := match ClassOf(code) case ST => 0x02 case STX => 0x03 case RET => 0x06 case _ => 0x07;
    assert Twins(c, code) && Decode(c) != Unknown;
  }

  /** The groups of known codes. */
  lemma GroupOf(c: U16)
    requires Decode(c) != Unknown
    ensures ClassOf(c) == ALU ==> OpOf(c) in {0x00, 0x10, 0x20, 0x30, 0x40, 0x50, 0x60, 0x70, 0x80, 0x90, 0xa0}
    ensures ClassOf(c) == JMP ==> OpOf(c) in {0x00, 0x10, 0x20, 0x30, 0x40}
    ensures ClassOf(c) in {LD, LDX} ==> ModeOf(c) in {0x00, 0x20, 0x40, 0x60, 0x80, 0xa0}
    ensures ClassOf(c) in {LD, LDX} && Decode(c) in {LoadMem, LoadXMem} <==>
            ClassOf(c) in {LD, LDX} && ModeOf(c) == 0x60
    ensures ClassOf(c) == ALU ==> (Decode(c).Arith? && Decode(c).alu in {DIV, MOD} <==> OpOf(c) in {0x30, 0x90})
    ensures ClassOf(c) == JMP ==> (Decode(c).Jump? <==> OpOf(c) == 0x00) && (Decode(c).Branch? <==> OpOf(c) != 0x00)
    ensures ClassOf(c) in {ST, STX} ==> Decode(c) in {Store, StoreX}
    ensures ClassOf(c) in {RET, MISC} ==> Decode(c) in {RetK, RetA, Tax, Txa}
  {
    hide Decode, ClassOf, ModeOf, OpOf, SrcOf;
    ScratchCodes(c);
    JumpCodes(c);
    LoadCodes(c);
    ArithmeticCodes(c);
    ReturnCodes(c);
  }

  lemma JumpTwinPasses(insn: Insn, i: nat, len: nat, c: U16)
    requires i < len < 0x8000_0000 && Twins(c, insn.code) && Decode(c) != Unknown && ClassOf(insn.code) == JMP
    ensures InsnOk(insn, i, len) <==> OperandsFit(Decode(c), insn, i, len)
  {
    GroupOf(c);
    TwinsByParts(c, insn.code);
    JumpLandsInside(i, insn.k, len);
    hide Decode, ClassOf, ModeOf, OpOf, SrcOf, Signed32, Twins;
  }

  lemma OtherTwinPasses(insn: Insn, i: nat, len: nat, c: U16)
    requires i < len < 0x8000_0000 && Twins(c, insn.code) && Decode(c) != Unknown && ClassOf(insn.code) != JMP
    ensures InsnOk(insn, i, len) <==> OperandsFit(Decode(c), insn, i, len)
  {
    GroupOf(c);
    TwinsByParts(c, insn.code);
    hide Decode, ClassOf, ModeOf, OpOf, Signed32, Wrap32, Twins;
  }

  lemma TwinPasses(insn: Insn, i: nat, len: nat, c: U16)
    requires i < len < 0x8000_0000 && Twins(c, insn.code) && Decode(c) != Unknown
    ensures InsnOk(insn, i, len) <==> OperandsFit(Decode(c), insn, i, len)
  {
    hide *;
    if ClassOf(insn.code) == JMP {
      JumpTwinPasses(insn, i, len, c);
    } else {
      OtherTwinPasses(insn, i, len, c);
    }
  }

  lemma PassesRecognised(insn: Insn, i: nat, len: nat)
    requires InsnOk(insn, i, len)
    ensures Recognised(insn.code)
  {
    hide Decode, OpOf, ModeOf, SrcOf, Recognised;
    match ClassOf(insn.code)
    case ALU | JMP => KnownArithmetic(insn.code);
    case LD | LDX => KnownLoad(insn.code);
    case _ => KnownClass(insn.code);
  }

  /** An instruction passes exactly if the interpreter knows a code that the checker cannot tell from its
      code, and the operands are what all such codes need. */
  lemma CheckedExactly(insn: Insn, i: nat, len: nat)
    requires i < len < 0x8000_0000
    ensures InsnOk(insn, i, len) <==>
            && Recognised(insn.code)
            && forall c: U16 | Twins(c, insn.code) && Decode(c) != Unknown :: OperandsFit(Decode(c), insn, i, len)
  {
    hide Decode, InsnOk, Twins, OperandsFit;
    forall c: U16 | Twins(c, insn.code) && Decode(c) != Unknown
      ensures InsnOk(insn, i, len) <==> OperandsFit(Decode(c), insn, i, len)
    {
      TwinPasses(insn, i, len, c);
    }
    if InsnOk(insn, i, len) {
      PassesRecognised(insn, i, len);
    }
  }

  /** A code can pass for some operands exactly if the interpreter knows one of its twins. */
  lemma CheckedCodesExactly(code: U16)
    ensures (exists jt: U8, jf: U8, k: U32, i: nat, len: nat | i < len < 0x8000_0000 ::
              InsnOk(Insn(code, jt, jf, k), i, len)) <==> Recognised(code)
  {
    hide InsnOk, Twins, Decode;
    if Recognised(code) {
      var c: U16 :| Twins(c, code) && Decode(c) != Unknown;
      TwinPasses(Insn(code, 0, 0, 1), 0, 3, c);
      OperandsCanFit(Decode(c), code);
      assert InsnOk(Insn(code, 0, 0, 1), 0, 3);
    } else {
      hide Recognised;
      forall jt: U8, jf: U8, k: U32, i: nat, len: nat
        ensures !InsnOk(Insn(code, jt, jf, k), i, len)
      {
        if InsnOk(Insn(code, jt, jf, k), i, len) {
          PassesRecognised(Insn(code, jt, jf, k), i, len);
        }
      }
    }
  }

  lemma OperandsCanFit(operation: Operation, code: U16)
    ensures OperandsFit(operation, Insn(code, 0, 0, 1), 0, 3)
  {
  }

  lemma {:induction false} BitwiseBasics(a: nat, n: nat)
    requires a < Power2(n)
    ensures Bitwise(BIT_AND, a, 0, n) == 0 && Bitwise(BIT_AND, 0, a, n) == 0 && Bitwise(BIT_AND, a, a, n) == a
    decreases n
  {
    if n == 0 {
    } else {
      BitwiseBasics(a / 2, n - 1);
    }
  }

  lemma BitAndIs(a: U32, b: U32)
    ensures BitAnd(a, b) == Bitwise(BIT_AND, a, b, 32)
  {
    hide And32, IntOf, Bitwise;
    VectorsAreBitwise(BIT_AND, a, b);
  }

  lemma BitAndBasics(a: U32)
    ensures BitAnd(a, 0) == 0 && BitAnd(0, a) == 0
    ensures a != 0 ==> BitAnd(a, a) != 0
  {
    hide BitAnd, Bitwise;
    Power2Of31();
    BitwiseBasics(a, 32);
    BitAndIs(a, 0);
    BitAndIs(0, a);
    BitAndIs(a, a);
  }

  /** A register pair that sends a branch to its first (`taken`) or second target. */
  lemma BranchCanGo(insn: Insn, i: int, taken: bool) returns (a: U32, x: U32)
    requires Decode(insn.code).Branch?
    requires taken && Decode(insn.code) == Branch(JGT, FromK) ==> insn.k < 0xFFFF_FFFF
    requires !taken && Decode(insn.code) == Branch(JGE, FromK) ==> insn.k > 0
    requires taken && Decode(insn.code) == Branch(JSET, FromK) ==> insn.k > 0
    ensures Holds(Decode(insn.code).compare, a, if Decode(insn.code).operand.FromX? then x else insn.k) == taken
  {
    hide Decode;
    BitAndBasics(insn.k);
    BitAndBasics(1);
    hide BitAnd;
    x := if taken then 1 else 0;
    match Decode(insn.code)
    case Branch(JGT, FromK) => a := if taken then insn.k + 1 else 0;
    case Branch(JGE, FromK) => a := if taken then insn.k else 0;
    case Branch(JEQ, FromK) => a := if taken then insn.k else if insn.k == 0 then 1 else 0;
    case Branch(JSET, FromK) =>
      a := if taken then insn.k else 0;
    case Branch(JGT, FromX) =>
      a := if taken then 2 else 0;
    case Branch(JGE, FromX) =>
      a, x := 0, if taken then 0 else 1;
    case Branch(JEQ, FromX) =>
      a, x := 0, if taken then 0 else 1;
    case Branch(JSET, FromX) =>
      a, x := 1, if taken then 1 else 0;
  }

  /** Every rejected instruction has registers from which it fails or leaves the program, unless its
      only fault is a branch target that no register value can select. */
  lemma RejectionIsJustified(f: seq<Insn>, i: nat, env: Env, mem: seq<U32>) returns (vm: Vm)
    requires i < |f| < 0x8000_0000 && !InsnOk(f[i], i, |f|)
    requires env.Valid() && |mem| == BPF_MEMWORDS
    requires !OutsideTargetIsDead(f[i], i, |f|)
    ensures vm.pc == i && vm.mem == mem && GoesWrong(f, env, vm)
  {
    hide Decode, InsnOk, Signed32, Holds, BitAnd;
    var insn := f[i];
    RejectedCodes(insn, i, |f|);
    vm := Vm(0, 0, i, mem);
    if Decode(insn.code).Branch? {
      var taken := if i + 1 + insn.jt >= |f| && !DeadWhenTaken(insn) then true else false;
      var a, x := BranchCanGo(insn, i, taken);
      vm := Vm(a, x, i, mem);
    }
  }

  ghost predicate DeadWhenTaken(insn: Insn) {
    match Decode(insn.code)
    case Branch(JGT, FromK) => insn.k == 0xFFFF_FFFF
    case Branch(JSET, FromK) => insn.k == 0
    case _ => false
  }

  /** The exception is exact: a rejected instruction whose outside target is dead cannot go wrong. */
  lemma DeadTargetIsHarmless(f: seq<Insn>, env: Env, vm: Vm)
    requires |f| < 0x8000_0000 && env.Valid() && InProgram(f, vm)
    requires OutsideTargetIsDead(f[vm.pc], vm.pc, |f|)
    ensures !GoesWrong(f, env, vm)
  {
    hide Decode, BitAnd;
    var insn := f[vm.pc];
    BitAndBasics(vm.a);
  }

  // ---------------------------------------------------------------------------------------------
  // Which programs can go wrong at all
  // ---------------------------------------------------------------------------------------------

  /** Some packet and registers make the instruction continue behind itself. */
  predicate CanGoOn(insn: Insn) {
    match Decode(insn.code)
    case RetK | RetA | Jump | Branch(_, _) | Unknown => false
    case LoadAbs(size) =>
      || insn.k + SizeBytes(size) <= 0xFFFF_FFFF
      || (size.Byte? && insn.k in {SKF_AD_VLAN_TAG_K, SKF_AD_VLAN_TAG_PRESENT_K})
    case LoadInd(size) => insn.k + SizeBytes(size) <= 0xFFFF_FFFF
    case LoadXMsh => insn.k < 0xFFFF_FFFF
    case LoadMem | LoadXMem | Store | StoreX => insn.k < BPF_MEMWORDS
    case Arith(alu, FromK) => if alu in {DIV, MOD} then insn.k != 0 else alu in {LSH, RSH} ==> insn.k < 32
    case _ => true
  }

  lemma GoesOn(insn: Insn, i: nat, mem: seq<U32>) returns (env: Env, vm: Vm)
    requires CanGoOn(insn) && |mem| == BPF_MEMWORDS
    ensures env.Valid() && vm.pc == i && vm.mem == mem
    ensures Execute(insn, env, vm).Next? && Execute(insn, env, vm).vm.pc == i + 1
  {
    hide Decode, Extract, BitAnd, BitOr, BitXor, ShiftLeft, ShiftRight, Product, Quotient, Remainder;
    env := Env(seq(0xFFFF_FFFF, j => 0), 0, 0xFFFF_FFFF, Aux(0, 0));
    vm := Vm(0, if Decode(insn.code).LoadInd? then 0 else 1, i, mem);
  }

  lemma WentOn(insn: Insn, env: Env, vm: Vm)
    requires env.Valid() && |vm.mem| == BPF_MEMWORDS && Execute(insn, env, vm).Next?
    requires !Decode(insn.code).Jump? && !Decode(insn.code).Branch?
    ensures CanGoOn(insn)
  {
    hide Decode, Extract, BitAnd, BitOr, BitXor, ShiftLeft, ShiftRight, Product, Quotient, Remainder;
  }

  /** The ways instruction `i` can be at fault: a check it fails, unless only a dead branch side does,
      no meaning, or nothing behind it. */
  ghost predicate BadInsn(f: seq<Insn>, i: nat)
    requires i < |f|
  {
    || (!InsnOk(f[i], i, |f|) && !OutsideTargetIsDead(f[i], i, |f|))
    || Undefined(f[i])
    || (i + 1 == |f| && CanGoOn(f[i]))
  }

  lemma BadGoesWrong(f: seq<Insn>, i: nat, mem: seq<U32>) returns (env: Env, vm: Vm)
    requires i < |f| < 0x8000_0000 && BadInsn(f, i) && |mem| == BPF_MEMWORDS
    ensures env.Valid() && InProgram(f, vm) && GoesWrong(f, env, vm)
  {
    hide InsnOk, OutsideTargetIsDead, Undefined, CanGoOn, Execute;
    env, vm := Env([], 0, 0, NoAux), Vm(0, 0, i, mem);
    if Undefined(f[i]) {
      UndefinedFails(f[i], env, vm);
    } else if !InsnOk(f[i], i, |f|) && !OutsideTargetIsDead(f[i], i, |f|) {
      vm := RejectionIsJustified(f, i, env, mem);
    } else {
      env, vm := GoesOn(f[i], i, mem);
    }
  }

  lemma WrongIsBad(f: seq<Insn>, env: Env, vm: Vm)
    requires |f| < 0x8000_0000 && env.Valid() && InProgram(f, vm) && GoesWrong(f, env, vm)
    ensures BadInsn(f, vm.pc)
  {
    hide InsnOk, OutsideTargetIsDead, Undefined, CanGoOn, Execute, Decode;
    if OutsideTargetIsDead(f[vm.pc], vm.pc, |f|) {
      DeadTargetIsHarmless(f, env, vm);
    } else if InsnOk(f[vm.pc], vm.pc, |f|) {
      CheckedInsn(f, env, vm);
      if Execute(f[vm.pc], env, vm).Next? {
        WentOn(f[vm.pc], env, vm);
      }
    }
  }

  lemma {:induction false} FailureGoesWrong(f: seq<Insn>, env: Env, vm: Vm, steps: nat) returns (at: Vm)
    requires env.Valid() && CanFail(f, env, vm, steps)
    ensures InProgram(f, at) && GoesWrong(f, env, at)
    decreases steps
  {
    hide Step;
    StepKeepsScratch(f, env, vm);
    var effect := Step(f, env, vm);
    if effect.Next? && 0 <= effect.vm.pc < |f| {
      RunNext(f, env, vm, steps);
      at := FailureGoesWrong(f, env, effect.vm, steps - 1);
    } else {
      at := vm;
    }
  }

  /** For every program, accepted or not: no run from any state inside it fails or leaves it, on any
      packet, exactly if it has no instruction at fault. */
  lemma SafeProgramsExactly(f: seq<Insn>)
    requires |f| < 0x8000_0000
    ensures (forall env: Env, vm: Vm, steps: nat | env.Valid() :: !CanFail(f, env, vm, steps)) <==>
            (forall i | 0 <= i < |f| :: !BadInsn(f, i))
  {
    hide BadInsn, Step;
    forall env: Env, vm: Vm, steps: nat | env.Valid() && CanFail(f, env, vm, steps)
      ensures exists i | 0 <= i < |f| :: BadInsn(f, i)
    {
      var at := FailureGoesWrong(f, env, vm, steps);
      WrongIsBad(f, env, at);
    }
    forall i: nat | i < |f| && BadInsn(f, i)
      ensures exists env: Env, vm: Vm, steps: nat :: env.Valid() && CanFail(f, env, vm, steps)
    {
      var env, vm := BadGoesWrong(f, i, seq(BPF_MEMWORDS, j => 0));
      RunNext(f, env, vm, 2);
      if Step(f, env, vm).Next? {
        RunNext(f, env, Step(f, env, vm).vm, 1);
        OutsideFails(f, env, Step(f, env, vm).vm);
      }
      assert CanFail(f, env, vm, 2);
    }
  }

  lemma OutsideFails(f: seq<Insn>, env: Env, vm: Vm)
    requires env.Valid() && |vm.mem| == BPF_MEMWORDS && !(0 <= vm.pc < |f|)
    ensures Step(f, env, vm) == Fails(OutsideProgram)
  {
  }

  /** The checker also rejects programs that cannot go wrong: each instruction of this one passes and
      none is at fault, but the last one is not a return. */
  lemma HarmlessButRejected()
    ensures var f := [Insn(0x06, 0, 0, 0), Insn(0x05, 0, 0, 0xFFFF_FFFE)];
            (forall i | 0 <= i < |f| :: InsnOk(f[i], i, |f|) && !BadInsn(f, i)) && !Accepted(f)
  {
  }

  // ---------------------------------------------------------------------------------------------
  // Packet confinement
  // ---------------------------------------------------------------------------------------------

  /** The environment with nothing behind the packet. */
  function Confined(env: Env): (r: Env)
    requires env.Valid()
    ensures r.Valid()
  {
    env.(p := env.p[..env.buflen])
  }

  lemma ExtractConfined(p: seq<U8>, n: nat, k: nat, size: Size)
    requires n <= |p| && k + SizeBytes(size) <= n
    ensures Extract(p, k, size) == Extract(p[..n], k, size)
  {
  }

  lemma LoadAbsConfined(env: Env, vm: Vm, size: Size, k: U32)
    requires env.Valid()
    ensures StepLoadAbs(env, vm, size, k) == StepLoadAbs(Confined(env), vm, size, k)
  {
    if k + SizeBytes(size) <= env.buflen {
      ExtractConfined(env.p, env.buflen, k, size);
    }
    hide Extract;
  }

  lemma LoadIndConfined(env: Env, vm: Vm, size: Size, k: U32)
    requires env.Valid()
    ensures StepLoadInd(env, vm, size, k) == StepLoadInd(Confined(env), vm, size, k)
  {
    hide Extract, Wrap32;
    if StepLoadInd(env, vm, size, k).Next? {
      IndirectFits(env, vm.x, k, size);
      ExtractConfined(env.p, env.buflen, Wrap32(vm.x + k), size);
    }
  }

  lemma StepConfined(f: seq<Insn>, env: Env, vm: Vm)
    requires env.Valid() && |vm.mem| == BPF_MEMWORDS
    ensures Step(f, env, vm) == Step(f, Confined(env), vm)
  {
    if 0 <= vm.pc < |f| {
      var insn := f[vm.pc];
      match Decode(insn.code) {
        case LoadAbs(size) => LoadAbsConfined(env, vm, size, insn.k);
        case LoadInd(size) => LoadIndConfined(env, vm, size, insn.k);
        case _ =>
      }
      hide Decode, StepLoadAbs, StepLoadInd;
    }
  }

  lemma {:induction false} RunConfined(f: seq<Insn>, env: Env, vm: Vm, steps: nat)
    requires env.Valid() && |vm.mem| == BPF_MEMWORDS
    ensures Run(f, env, vm, steps) == Run(f, Confined(env), vm, steps)
    decreases steps
  {
    hide Step, Confined;
    if steps == 0 {
    } else {
      StepConfined(f, env, vm);
      var effect := Step(f, env, vm);
      if effect.Next? {
        StepKeepsScratch(f, env, vm);
        RunConfined(f, env, effect.vm, steps - 1);
      }
    }
  }

  /** No byte outside the packet influences a run, whatever the program computes as an offset: two
      memories that agree on the packet give the same outcome. */
  lemma OnlyThePacketMatters(f: seq<Insn>, env: Env, other: Env, vm: Vm, steps: nat)
    requires env.Valid() && other.Valid() && |vm.mem| == BPF_MEMWORDS
    requires env.buflen == other.buflen && env.wirelen == other.wirelen && env.aux == other.aux
    requires env.p[..env.buflen] == other.p[..other.buflen]
    ensures Run(f, env, vm, steps) == Run(f, other, vm, steps)
  {
    hide Run;
    RunConfined(f, env, vm, steps);
    RunConfined(f, other, vm, steps);
    assert Confined(env) == Confined(other);
  }

  // ---------------------------------------------------------------------------------------------
  // Termination
  // ---------------------------------------------------------------------------------------------

  ghost predicate OnlyForwardJumps(f: seq<Insn>) {
    forall i | 0 <= i < |f| :: Decode(f[i].code).Jump? ==> Signed32(f[i].k) >= 0
  }

  lemma StepGoesForward(f: seq<Insn>, env: Env, vm: Vm)
    requires Accepted(f) && |f| < 0x8000_0000 && OnlyForwardJumps(f) && env.Valid() && InProgram(f, vm)
    ensures match Step(f, env, vm)
            case Next(vm') => vm.pc < vm'.pc && InProgram(f, vm')
            case _ => true
  {
    StepIsSafe(f, env, vm);
    ExecuteShape(f[vm.pc], env, vm);
    hide Accepted, Execute, Decode, Signed32;
    assert Decode(f[vm.pc].code).Jump? ==> Signed32(f[vm.pc].k) >= 0;
  }

  /** An accepted program without backward jumps ends within as many steps as it has instructions
      left, on every packet. */
  lemma {:induction false} ForwardProgramsTerminate(f: seq<Insn>, env: Env, vm: Vm, steps: nat)
    requires Accepted(f) && |f| < 0x8000_0000 && OnlyForwardJumps(f) && env.Valid() && InProgram(f, vm)
    requires steps >= |f| - vm.pc
    ensures !Run(f, env, vm, steps).Running?
    decreases steps
  {
    hide Accepted, OnlyForwardJumps, Step;
    StepGoesForward(f, env, vm);
    var effect := Step(f, env, vm);
    if effect.Next? {
      ForwardProgramsTerminate(f, env, effect.vm, steps - 1);
    }
  }

  /** With a backward jump an accepted program can run for ever. */
  lemma {:induction false} BackwardJumpCanLoop(env: Env, mem: seq<U32>, steps: nat)
    requires env.Valid() && |mem| == BPF_MEMWORDS
    ensures var f := [Insn(0x05, 0, 0, 0xFFFF_FFFF), Insn(0x06, 0, 0, 0)];
            Accepted(f) && Run(f, env, Start(mem), steps) == Running(Start(mem))
    decreases steps
  {
    var f := [Insn(0x05, 0, 0, 0xFFFF_FFFF), Insn(0x06, 0, 0, 0)];
    if steps == 0 {
    } else {
      assert Step(f, env, Start(mem)) == Next(Start(mem));
      BackwardJumpCanLoop(env, mem, steps - 1);
    }
  }
}
