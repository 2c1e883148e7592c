/** What BPF programs compute: expressions and conditions over packets, with a meaning of their own, and
    programs for them that the checker accepts and the interpreter runs to that meaning. */
module BpfCompile {
  import opened Words
  import opened Wrappers
  import opened Bits
  import opened Bpf
  import opened BpfSafety

  // ---------------------------------------------------------------------------------------------
  // Expressions and what they mean
  // ---------------------------------------------------------------------------------------------

  /** `At` is a field of the packet at a fixed offset, `AtOf` one at a computed offset plus `k`, and
      `HeaderLength` four times the low half of a byte. */
  datatype Expr =
    | Const(k: U32) | Length | HeaderLength(k: U32) | VlanTag | VlanPresent
    | At(size: Size, k: U32) | AtOf(size: Size, base: Expr, k: U32)
    | Minus(e: Expr) | Apply(alu: Alu, left: Expr, right: Expr) | ApplyK(alu: Alu, e: Expr, k: U32)

  datatype Cond =
    | Cmp(compare: Compare, left: Expr, right: Expr) | CmpK(compare: Compare, e: Expr, k: U32)
    | Not(c: Cond) | Both(c1: Cond, c2: Cond) | Either(c1: Cond, c2: Cond)

  /** The bytes at `i` in network order, if the packet has them. */
  function Field(env: Env, size: Size, i: nat): Option<nat>
    requires env.Valid()
  {
    match size
    case Word =>
      if i + 4 <= env.buflen then
        Some((env.p[i] as int) * 0x100_0000 + (env.p[i + 1] as int) * 0x1_0000 + (env.p[i + 2] as int) * 0x100 +
             env.p[i + 3])
      else None
    case Half => if i + 2 <= env.buflen then Some((env.p[i] as int) * 0x100 + env.p[i + 1]) else None
    case Byte => if i < env.buflen then Some(env.p[i] as nat) else None
  }

  function Divided(a: nat, b: nat): (q: nat)
    requires b > 0
    ensures q <= a
  {
    QuotientBounds(a, b, a / b, a % b);
    a / b
  }

  /** The ten operations; None is a division by zero. */
  function Result(alu: Alu, a: nat, b: nat): Option<nat> {
    match alu
    case ADD => Some((a + b) % 0x1_0000_0000)
    case SUB => Some((a - b) % 0x1_0000_0000)
    case MUL => Some((a * b) % 0x1_0000_0000)
    case DIV => if b == 0 then None else Some(Divided(a, b))
    case MOD => if b == 0 then None else Some(a % b)
    case AND => Some(Bitwise(BIT_AND, a, b, 32))
    case OR => Some(Bitwise(BIT_OR, a, b, 32))
    case XOR => Some(Bitwise(BIT_XOR, a, b, 32))
    case LSH => if b < 32 then Some((a * Power2(b)) % 0x1_0000_0000) else Some(0)
    case RSH => if b < 32 then Some(Divided(a, Power2(b))) else Some(0)
  }

  /** The value of an expression; None if it needs bytes that the packet does not have, VLAN data that
      was not given, or a division by zero. */
  function Value(e: Expr, env: Env): Option<nat>
    requires env.Valid()
  {
    match e
    case Const(k) => Some(k as nat)
    case Length => Some(env.wirelen as nat)
    case HeaderLength(k) => if k < env.buflen then Some((env.p[k] as int) % 16 * 4) else None
    case VlanTag => if env.aux.NoAux? then None else Some(env.aux.vlanTag as nat)
    case VlanPresent => if env.aux.NoAux? then None else Some(env.aux.vlanTagPresent as nat)
    case At(size, k) => Field(env, size, k)
    case AtOf(size, base, k) =>
      var i := Value(base, env);
      if i.None? then None else Field(env, size, i.value + k)
    case Minus(d) =>
      var v := Value(d, env);
      if v.None? then None else Some((0x1_0000_0000 - v.value) % 0x1_0000_0000)
    case Apply(alu, l, r) =>
      var a, b := Value(l, env), Value(r, env);
      if a.None? || b.None? then None else Result(alu, a.value, b.value)
    case ApplyK(alu, d, k) =>
      var a := Value(d, env);
      if a.None? then None else Result(alu, a.value, k)
  }

  function Compared(compare: Compare, a: nat, b: nat): bool {
    match compare
    case JGT => a > b
    case JGE => a >= b
    case JEQ => a == b
    case JSET => Bitwise(BIT_AND, a, b, 32) != 0
  }

  /** Whether a condition holds; None if what decides it has no value. */
  function Truth(c: Cond, env: Env): Option<bool>
    requires env.Valid()
  {
    match c
    case Cmp(compare, l, r) =>
      var a, b := Value(l, env), Value(r, env);
      if a.None? || b.None? then None else Some(Compared(compare, a.value, b.value))
    case CmpK(compare, e, k) =>
      var a := Value(e, env);
      if a.None? then None else Some(Compared(compare, a.value, k))
    case Not(d) =>
      var t := Truth(d, env);
      if t.None? then None else Some(!t.value)
    case Both(c1, c2) =>
      var t := Truth(c1, env);
      if t == Some(true) then Truth(c2, env) else t
    case Either(c1, c2) =>
      var t := Truth(c1, env);
      if t == Some(false) then Truth(c2, env) else t
  }

  // ---------------------------------------------------------------------------------------------
  // Programs for them
  // ---------------------------------------------------------------------------------------------

  /** Constants that the instructions can take, and offsets that mean the packet. */
  predicate Encodable(e: Expr) {
    match e
    case At(size, k) => size.Byte? ==> k != 0xFFFF_F02C && k != 0xFFFF_F030
    case AtOf(_, base, _) => Encodable(base)
    case Minus(d) => Encodable(d)
    case Apply(_, l, r) => Encodable(l) && Encodable(r)
    case ApplyK(alu, d, k) =>
      Encodable(d) && (alu in {DIV, MOD} ==> k != 0) && (alu in {LSH, RSH} ==> k < 32)
    case _ => true
  }

  /** How many cells of the scratch memory the program needs. */
  function Cells(e: Expr): nat {
    match e
    case AtOf(_, base, _) => Cells(base)
    case Minus(d) => Cells(d)
    case Apply(_, l, r) => if Cells(l) > Cells(r) + 1 then Cells(l) else Cells(r) + 1
    case ApplyK(_, d, _) => Cells(d)
    case _ => 0
  }

  predicate Compilable(e: Expr, d: nat) {
    Encodable(e) && d + Cells(e) <= 16
  }

  function AluCode(alu: Alu): (code: U16)
    ensures code < 0x100
  {
    match alu
    case ADD => 0x04
    case SUB => 0x14
    case MUL => 0x24
    case DIV => 0x34
    case OR => 0x44
    case AND => 0x54
    case LSH => 0x64
    case RSH => 0x74
    case MOD => 0x94
    case XOR => 0xa4
  }

  function JumpCode(compare: Compare): (code: U16)
    ensures code < 0x100
  {
    match compare
    case JEQ => 0x15
    case JGT => 0x25
    case JGE => 0x35
    case JSET => 0x45
  }

  function WithX(code: U16): U16
    requires code < 0x100
  {
    (code as int) + 0x08
  }

  function SizeCode(size: Size): U16 {
    match size
    case Word => 0x00
    case Half => 0x08
    case Byte => 0x10
  }

  function Plain(code: U16, k: U32): Insn {
    Insn(code, 0, 0, k)
  }

  /** A program that leaves the value in A and uses the scratch cells from `d` on. */
  function ExprCode(e: Expr, d: nat): seq<Insn>
    requires Compilable(e, d)
  {
    match e
    case Const(k) => [Plain(0x00, k)]
    case Length => [Plain(0x80, 0)]
    case HeaderLength(k) => [Plain(0xb1, k), Plain(0x87, 0)]
    case VlanTag => [Plain(0x30, 0xFFFF_F02C)]
    case VlanPresent => [Plain(0x30, 0xFFFF_F030)]
    case At(size, k) => [Plain((SizeCode(size) as int) + 0x20, k)]
    case AtOf(size, base, k) => ExprCode(base, d) + [Plain(0x07, 0), Plain((SizeCode(size) as int) + 0x40, k)]
    case Minus(b) => ExprCode(b, d) + [Plain(0x84, 0)]
    case Apply(alu, l, r) =>
      ExprCode(l, d) + [Plain(0x02, d)] + ExprCode(r, d + 1) +
      [Plain(0x07, 0), Plain(0x60, d), Plain(WithX(AluCode(alu)), 0)]
    case ApplyK(alu, b, k) => ExprCode(b, d) + [Plain(AluCode(alu), k)]
  }

  // ---------------------------------------------------------------------------------------------
  // Single instructions
  // ---------------------------------------------------------------------------------------------

  lemma FieldIsExtract(env: Env, size: Size, i: nat)
    requires env.Valid() && i + SizeBytes(size) <= env.buflen
    ensures Field(env, size, i) == Some(Extract(env.p, i, size) as nat)
  {
  }

  lemma AbsoluteIsField(env: Env, vm: Vm, size: Size, k: U32)
    requires env.Valid() && (size.Byte? ==> k != 0xFFFF_F02C && k != 0xFFFF_F030)
    ensures StepLoadAbs(env, vm, size, k) ==
            if Field(env, size, k).None? then Return(0) else SetA(vm, Field(env, size, k).value)
  {
    if k + SizeBytes(size) <= env.buflen {
      FieldIsExtract(env, size, k);
    }
    hide Extract;
  }

  lemma IndirectRoom(env: Env, x: U32, k: U32, size: Size)
    requires x + k + SizeBytes(size) <= env.buflen
    ensures Wrap32(x + k) == x + k
    ensures Wrap32(env.buflen - x) == env.buflen - x && Wrap32(env.buflen - k) == env.buflen - k
    ensures Wrap32(env.buflen - Wrap32(x + k)) == env.buflen - x - k
  {
  }

  lemma NoIndirectRoom(env: Env, vm: Vm, size: Size, k: U32)
    requires env.Valid() && vm.x + k + SizeBytes(size) > env.buflen
    ensures StepLoadInd(env, vm, size, k) == Return(0)
  {
    if StepLoadInd(env, vm, size, k).Next? {
      IndirectExact(env, vm.x, k, size);
    }
    hide Extract;
  }

  lemma IndirectExact(env: Env, x: U32, k: U32, size: Size)
    requires match size
             case Word =>
               && k <= env.buflen && x <= Wrap32(env.buflen - k)
               && 4 <= Wrap32(env.buflen - Wrap32(x + k))
             case Half =>
               && x <= env.buflen && k <= Wrap32(env.buflen - x)
               && 2 <= Wrap32(env.buflen - Wrap32(x + k))
             case Byte => k < env.buflen && x < Wrap32(env.buflen - k)
    ensures x + k + SizeBytes(size) <= env.buflen
  {
  }

  lemma IndirectIsField(env: Env, vm: Vm, size: Size, k: U32)
    requires env.Valid()
    ensures StepLoadInd(env, vm, size, k) ==
            if Field(env, size, vm.x + k).None? then Return(0) else SetA(vm, Field(env, size, vm.x + k).value)
  {
    hide Extract, Wrap32;
    if vm.x + k + SizeBytes(size) <= env.buflen {
      FieldIsExtract(env, size, vm.x + k);
      IndirectRoom(env, vm.x, k, size);
    } else {
      NoIndirectRoom(env, vm, size, k);
      hide StepLoadInd;
    }
  }

  lemma BitwiseOps(a: U32, b: U32)
    ensures BitAnd(a, b) == Bitwise(BIT_AND, a, b, 32)
    ensures BitOr(a, b) == Bitwise(BIT_OR, a, b, 32)
    ensures BitXor(a, b) == Bitwise(BIT_XOR, a, b, 32)
  {
    hide And32, Or32, Xor32, IntOf, Bitwise;
    VectorsAreBitwise(BIT_AND, a, b);
    VectorsAreBitwise(BIT_OR, a, b);
    VectorsAreBitwise(BIT_XOR, a, b);
  }

  lemma ResultIsWord(alu: Alu, a: U32, b: U32)
    ensures Result(alu, a, b).Some? ==> Result(alu, a, b).value < 0x1_0000_0000
  {
    Power2Of31();
    hide Bitwise, Divided, Power2;
  }

  lemma ArithIsResult(vm: Vm, alu: Alu, source: Source, k: U32)
    requires source.FromK? ==> (alu in {DIV, MOD} ==> k != 0) && (alu in {LSH, RSH} ==> k < 32)
    ensures var r := Result(alu, vm.a, if source.FromX? then vm.x else k);
            && (r.None? ==> StepArith(vm, alu, source, k) == Return(0))
            && (r.Some? ==> r.value < 0x1_0000_0000 && StepArith(vm, alu, source, k) == SetA(vm, r.value))
  {
    hide BitAnd, BitOr, BitXor, Bitwise, Power2;
    var b := if source.FromX? then vm.x else k;
    BitwiseOps(vm.a, b);
    ResultIsWord(alu, vm.a, b);
    match alu
    case ADD =>
    case SUB =>
    case MUL =>
    case DIV =>
    case MOD =>
    case AND =>
    case OR =>
    case XOR =>
    case LSH =>
    case RSH =>
  }

  lemma HoldsIsCompared(compare: Compare, a: U32, b: U32)
    ensures Holds(compare, a, b) == Compared(compare, a, b)
  {
    BitwiseOps(a, b);
    hide BitAnd, Bitwise;
  }

  lemma Codes()
    ensures Decode(0x00) == LoadImm && Decode(0x80) == LoadLen && Decode(0xb1) == LoadXMsh && Decode(0x87) == Txa
    ensures Decode(0x07) == Tax && Decode(0x84) == Neg && Decode(0x02) == Store && Decode(0x60) == LoadMem
    ensures Decode(0x01) == LoadXImm && Decode(0x81) == LoadXLen && Decode(0x03) == StoreX && Decode(0x61) == LoadXMem
    ensures Decode(0x05) == Jump && Decode(0x06) == RetK && Decode(0x16) == RetA
  {
  }

  lemma FamilyCodes(size: Size, alu: Alu, compare: Compare)
    ensures Decode((SizeCode(size) as int) + 0x20) == LoadAbs(size)
    ensures Decode((SizeCode(size) as int) + 0x40) == LoadInd(size)
    ensures Decode(AluCode(alu)) == Arith(alu, FromK) && Decode(WithX(AluCode(alu))) == Arith(alu, FromX)
    ensures Decode(JumpCode(compare)) == Branch(compare, FromK)
    ensures Decode(WithX(JumpCode(compare))) == Branch(compare, FromX)
  {
  }

  /** The program has `code` at `at`. */
  predicate Placed(f: seq<Insn>, at: int, code: seq<Insn>) {
    0 <= at && at + |code| <= |f| && f[at..at + |code|] == code
  }

  lemma PlacedParts(f: seq<Insn>, at: int, a: seq<Insn>, b: seq<Insn>)
    requires Placed(f, at, a + b)
    ensures Placed(f, at, a) && Placed(f, at + |a|, b)
  {
    var w := f[at..at + |a| + |b|];
    assert f[at..at + |a|] == w[..|a|] == a;
    assert f[at + |a|..at + |a| + |b|] == w[|a|..] == b;
  }

  lemma PlacedAt(f: seq<Insn>, at: int, code: seq<Insn>, i: nat)
    requires Placed(f, at, code) && i < |code|
    ensures f[at + i] == code[i]
  {
    assert f[at + i] == f[at..at + |code|][i];
  }

  lemma PlacedInside(f: seq<Insn>, at: int, code: seq<Insn>)
    requires Placed(f, at, code)
    ensures 0 <= at && at + |code| <= |f|
  {
  }

  // ---------------------------------------------------------------------------------------------
  // Expressions
  // ---------------------------------------------------------------------------------------------

  /** The run of one instruction. */
  lemma Runs(f: seq<Insn>, env: Env, vm: Vm, insn: Insn, steps: nat)
    requires env.Valid() && |vm.mem| == BPF_MEMWORDS && steps > 0 && 0 <= vm.pc < |f| && f[vm.pc] == insn
    ensures match Execute(insn, env, vm)
            case Next(vm') => |vm'.mem| == BPF_MEMWORDS && Run(f, env, vm, steps) == Run(f, env, vm', steps - 1)
            case Return(value) => Run(f, env, vm, steps) == Returned(value)
            case Fails(fault) => Run(f, env, vm, steps) == Failed(fault)
  {
    RunNext(f, env, vm, steps);
    hide Run, Execute;
  }

  /** After `size` instructions from `vm` the value is in A and the cells below `d` are as they were. */
  ghost predicate Leaves(vm: Vm, vm': Vm, size: nat, v: nat, d: nat) {
    && |vm.mem| == |vm'.mem| == BPF_MEMWORDS && d <= BPF_MEMWORDS
    && vm'.pc == vm.pc + size && vm'.a == v && vm'.mem[..d] == vm.mem[..d]
  }

  /** What a run of the code of an expression comes to. */
  ghost predicate Computes(f: seq<Insn>, env: Env, vm: Vm, vm': Vm, size: nat, v: Option<nat>, d: nat, steps: nat)
    requires env.Valid() && |vm.mem| == BPF_MEMWORDS && size <= steps
  {
    if v.None? then Run(f, env, vm, steps) == Returned(0)
    else Leaves(vm, vm', size, v.value, d) && Run(f, env, vm, steps) == Run(f, env, vm', steps - size)
  }

  // Executing the instructions of the programs, one kind at a time.

  lemma LoadsExecute(env: Env, vm: Vm, k: U32)
    requires env.Valid() && |vm.mem| == BPF_MEMWORDS
    ensures Execute(Plain(0x00, k), env, vm) == SetA(vm, k) && Execute(Plain(0x01, k), env, vm) == SetX(vm, k)
    ensures Execute(Plain(0x80, 0), env, vm) == SetA(vm, env.wirelen)
    ensures Execute(Plain(0x81, 0), env, vm) == SetX(vm, env.wirelen)
  {
    Codes();
    hide Decode;
  }

  lemma MovesExecute(env: Env, vm: Vm)
    requires env.Valid() && |vm.mem| == BPF_MEMWORDS
    ensures Execute(Plain(0x07, 0), env, vm) == SetX(vm, vm.a) && Execute(Plain(0x87, 0), env, vm) == SetA(vm, vm.x)
    ensures Execute(Plain(0x84, 0), env, vm) == SetA(vm, (0x1_0000_0000 - vm.a) % 0x1_0000_0000)
  {
    Codes();
    hide Decode;
  }

  lemma HeaderLengthExecutes(env: Env, vm: Vm, k: U32)
    requires env.Valid() && |vm.mem| == BPF_MEMWORDS
    ensures Execute(Plain(0xb1, k), env, vm) ==
            if k < env.buflen then SetX(vm, (env.p[k] as int) % 16 * 4) else Return(0)
  {
    Codes();
    hide Decode;
  }

  lemma ScratchExecutes(env: Env, vm: Vm, d: U32)
    requires env.Valid() && |vm.mem| == BPF_MEMWORDS && d < BPF_MEMWORDS
    ensures Execute(Plain(0x02, d), env, vm) == Next(Advance(vm.(mem := vm.mem[d := vm.a])))
    ensures Execute(Plain(0x03, d), env, vm) == Next(Advance(vm.(mem := vm.mem[d := vm.x])))
    ensures Execute(Plain(0x60, d), env, vm) == SetA(vm, vm.mem[d])
    ensures Execute(Plain(0x61, d), env, vm) == SetX(vm, vm.mem[d])
  {
    Codes();
    hide Decode;
  }

  lemma VlanExecutes(env: Env, vm: Vm)
    requires env.Valid() && |vm.mem| == BPF_MEMWORDS
    ensures Execute(Plain(0x30, 0xFFFF_F02C), env, vm) ==
            if env.aux.NoAux? then Return(0) else SetA(vm, env.aux.vlanTag)
    ensures Execute(Plain(0x30, 0xFFFF_F030), env, vm) ==
            if env.aux.NoAux? then Return(0) else SetA(vm, env.aux.vlanTagPresent)
  {
    FamilyCodes(Byte, ADD, JEQ);
    hide Decode;
  }

  lemma FieldsExecute(env: Env, vm: Vm, size: Size, k: U32)
    requires env.Valid() && |vm.mem| == BPF_MEMWORDS
    ensures (size.Byte? ==> k != 0xFFFF_F02C && k != 0xFFFF_F030) ==>
            Execute(Plain((SizeCode(size) as int) + 0x20, k), env, vm) ==
            if Field(env, size, k).None? then Return(0) else SetA(vm, Field(env, size, k).value)
    ensures Execute(Plain((SizeCode(size) as int) + 0x40, k), env, vm) ==
            if Field(env, size, vm.x + k).None? then Return(0) else SetA(vm, Field(env, size, vm.x + k).value)
  {
    FamilyCodes(size, ADD, JEQ);
    if size.Byte? ==> k != 0xFFFF_F02C && k != 0xFFFF_F030 {
      AbsoluteIsField(env, vm, size, k);
    }
    IndirectIsField(env, vm, size, k);
    hide Decode, Field, StepLoadAbs, StepLoadInd;
  }

  lemma AluExecutes(env: Env, vm: Vm, alu: Alu, k: U32)
    requires env.Valid() && |vm.mem| == BPF_MEMWORDS
    ensures var r := Result(alu, vm.a, vm.x); var e := Execute(Plain(WithX(AluCode(alu)), 0), env, vm);
            if r.None? then e == Return(0) else r.value < 0x1_0000_0000 && e == SetA(vm, r.value)
    ensures (alu in {DIV, MOD} ==> k != 0) && (alu in {LSH, RSH} ==> k < 32) ==>
            var r := Result(alu, vm.a, k); var e := Execute(Plain(AluCode(alu), k), env, vm);
            if r.None? then e == Return(0) else r.value < 0x1_0000_0000 && e == SetA(vm, r.value)
  {
    FamilyCodes(Byte, alu, JEQ);
    ArithIsResult(vm, alu, FromX, 0);
    if (alu in {DIV, MOD} ==> k != 0) && (alu in {LSH, RSH} ==> k < 32) {
      ArithIsResult(vm, alu, FromK, k);
    }
    hide Decode, Result, StepArith, AluCode;
  }

  lemma LeafRuns(f: seq<Insn>, env: Env, vm: Vm, e: Expr, d: nat, steps: nat) returns (vm': Vm)
    requires env.Valid() && |vm.mem| == BPF_MEMWORDS && Compilable(e, d)
    requires Placed(f, vm.pc, ExprCode(e, d)) && |ExprCode(e, d)| <= steps
    requires e.Const? || e.Length? || e.VlanTag? || e.VlanPresent? || e.At?
    ensures Computes(f, env, vm, vm', |ExprCode(e, d)|, Value(e, env), d, steps)
  {
    hide Decode, Run, Field, Execute, Placed;
    var insn := ExprCode(e, d)[0];
    PlacedAt(f, vm.pc, ExprCode(e, d), 0);
    assert 0 <= vm.pc < |f| by {
      PlacedInside(f, vm.pc, ExprCode(e, d));
    }
    Runs(f, env, vm, insn, steps);
    match e {
      case Const(k) => LoadsExecute(env, vm, k);
      case Length => LoadsExecute(env, vm, 0);
      case VlanTag => VlanExecutes(env, vm);
      case VlanPresent => VlanExecutes(env, vm);
      case At(size, k) => FieldsExecute(env, vm, size, k);
    }
    var effect := Execute(insn, env, vm);
    vm' := if effect.Next? then effect.vm else vm;
  }

  lemma HeaderLengthRuns(f: seq<Insn>, env: Env, vm: Vm, e: Expr, d: nat, steps: nat) returns (vm': Vm)
    requires env.Valid() && |vm.mem| == BPF_MEMWORDS && Compilable(e, d) && e.HeaderLength?
    requires Placed(f, vm.pc, ExprCode(e, d)) && |ExprCode(e, d)| <= steps
    ensures Computes(f, env, vm, vm', |ExprCode(e, d)|, Value(e, env), d, steps)
  {
    hide Decode, Run, Execute;
    PlacedAt(f, vm.pc, ExprCode(e, d), 0);
    PlacedAt(f, vm.pc, ExprCode(e, d), 1);
    Runs(f, env, vm, Plain(0xb1, e.k), steps);
    HeaderLengthExecutes(env, vm, e.k);
    vm' := vm;
    if e.k < env.buflen {
      var loaded := Execute(Plain(0xb1, e.k), env, vm).vm;
      Runs(f, env, loaded, Plain(0x87, 0), steps - 1);
      MovesExecute(env, loaded);
      vm' := Execute(Plain(0x87, 0), env, loaded).vm;
    }
  }

  /** A run of the code of an expression computes its value. */
  lemma {:induction false} ExprRuns(f: seq<Insn>, env: Env, vm: Vm, e: Expr, d: nat, steps: nat) returns (vm': Vm)
    requires env.Valid() && |vm.mem| == BPF_MEMWORDS && Compilable(e, d)
    requires Placed(f, vm.pc, ExprCode(e, d)) && |ExprCode(e, d)| <= steps
    ensures Computes(f, env, vm, vm', |ExprCode(e, d)|, Value(e, env), d, steps)
    decreases e, 1
  {
    hide Run, Value, Decode;
    match e
    case AtOf(size, base, k) =>
      PlacedParts(f, vm.pc, ExprCode(base, d), ExprCode(e, d)[|ExprCode(base, d)|..]);
      var based := ExprRuns(f, env, vm, base, d, steps);
      vm' := AfterBase(f, env, vm, based, e, d, steps);
    case Minus(b) =>
      PlacedParts(f, vm.pc, ExprCode(b, d), [Plain(0x84, 0)]);
      var based := ExprRuns(f, env, vm, b, d, steps);
      vm' := AfterBase(f, env, vm, based, e, d, steps);
    case ApplyK(alu, b, k) =>
      PlacedParts(f, vm.pc, ExprCode(b, d), [Plain(AluCode(alu), k)]);
      var based := ExprRuns(f, env, vm, b, d, steps);
      vm' := AfterBase(f, env, vm, based, e, d, steps);
    case Apply(alu, l, r) =>
      vm' := ApplyRuns(f, env, vm, alu, l, r, d, steps);
    case HeaderLength(k) =>
      vm' := HeaderLengthRuns(f, env, vm, e, d, steps);
    case _ =>
      vm' := LeafRuns(f, env, vm, e, d, steps);
  }

  function BaseOf(e: Expr): Expr
    requires e.AtOf? || e.Minus? || e.ApplyK?
  {
    match e
    case AtOf(_, base, _) => base
    case Minus(b) => b
    case ApplyK(_, b, _) => b
  }

  /** The instructions behind the code of the one operand. */
  lemma AfterBase(f: seq<Insn>, env: Env, vm: Vm, based: Vm, e: Expr, d: nat, steps: nat) returns (vm': Vm)
    requires env.Valid() && |vm.mem| == BPF_MEMWORDS && Compilable(e, d) && (e.AtOf? || e.Minus? || e.ApplyK?)
    requires Placed(f, vm.pc, ExprCode(e, d)) && |ExprCode(e, d)| <= steps
    requires Computes(f, env, vm, based, |ExprCode(BaseOf(e), d)|, Value(BaseOf(e), env), d, steps)
    ensures Computes(f, env, vm, vm', |ExprCode(e, d)|, Value(e, env), d, steps)
  {
    hide Decode, Run, Execute, Field, Result;
    var n := |ExprCode(BaseOf(e), d)|;
    vm' := vm;
    if Value(BaseOf(e), env).Some? {
      PlacedAt(f, vm.pc, ExprCode(e, d), n);
      var insn := ExprCode(e, d)[n];
      Runs(f, env, based, insn, steps - n);
      match e {
        case AtOf(size, base, k) =>
          MovesExecute(env, based);
          var moved := Execute(Plain(0x07, 0), env, based).vm;
          PlacedAt(f, vm.pc, ExprCode(e, d), n + 1);
          Runs(f, env, moved, ExprCode(e, d)[n + 1], steps - n - 1);
          FieldsExecute(env, moved, size, k);
          var effect := Execute(ExprCode(e, d)[n + 1], env, moved);
          vm' := if effect.Next? then effect.vm else vm;
        case Minus(_) =>
          MovesExecute(env, based);
          vm' := Execute(insn, env, based).vm;
        case ApplyK(alu, _, k) =>
          AluExecutes(env, based, alu, k);
          var effect := Execute(insn, env, based);
          vm' := if effect.Next? then effect.vm else vm;
      }
    }
  }

  lemma ApplyRuns(f: seq<Insn>, env: Env, vm: Vm, alu: Alu, l: Expr, r: Expr, d: nat, steps: nat) returns (vm': Vm)
    requires env.Valid() && |vm.mem| == BPF_MEMWORDS && Compilable(Apply(alu, l, r), d)
    requires Placed(f, vm.pc, ExprCode(Apply(alu, l, r), d)) && |ExprCode(Apply(alu, l, r), d)| <= steps
    ensures Computes(f, env, vm, vm', |ExprCode(Apply(alu, l, r), d)|, Value(Apply(alu, l, r), env), d, steps)
    decreases Apply(alu, l, r), 0
  {
    hide ExprCode, Value, Placed, Computes, Run, AluCode, Compilable, Result, ResultOf;
    ApplyParts(f, vm.pc, alu, l, r, d);
    var n, m := |ExprCode(l, d)|, |ExprCode(r, d + 1)|;
    var va, vb := Value(l, env), Value(r, env);
    ApplyValue(alu, l, r, env);
    var a := ExprRuns(f, env, vm, l, d, steps);
    var saved, b := vm, vm;
    vm' := vm;
    if va.Some? {
      Computed(f, env, vm, a, n, va, d, steps);
      saved := SaveRuns(f, env, a, d, steps - n);
      b := ExprRuns(f, env, saved, r, d + 1, steps - n - 1);
      if vb.Some? {
        Computed(f, env, saved, b, m, vb, d + 1, steps - n - 1);
        vm' := TailRuns(f, env, b, alu, d, steps - n - 1 - m);
      }
    }
    Combined(f, env, vm, a, saved, b, vm', n, m, va, vb, alu, d, steps);
  }

  lemma ApplyValue(alu: Alu, l: Expr, r: Expr, env: Env)
    requires env.Valid()
    ensures Value(Apply(alu, l, r), env) == ResultOf(alu, Value(l, env), Value(r, env))
  {
  }

  function ResultOf(alu: Alu, a: Option<nat>, b: Option<nat>): Option<nat> {
    if a.None? || b.None? then None else Result(alu, a.value, b.value)
  }

  lemma Computed(f: seq<Insn>, env: Env, vm: Vm, vm': Vm, size: nat, v: Option<nat>, d: nat, steps: nat)
    requires env.Valid() && |vm.mem| == BPF_MEMWORDS && size <= steps
    requires Computes(f, env, vm, vm', size, v, d, steps) && v.Some?
    ensures |vm'.mem| == BPF_MEMWORDS && vm'.pc == vm.pc + size && vm'.a == v.value && d <= BPF_MEMWORDS
  {
    hide Run;
  }

  lemma Combined(f: seq<Insn>, env: Env, vm: Vm, a: Vm, saved: Vm, b: Vm, vm': Vm, n: nat, m: nat,
                 va: Option<nat>, vb: Option<nat>, alu: Alu, d: nat, steps: nat)
    requires env.Valid() && |vm.mem| == |saved.mem| == BPF_MEMWORDS && n + m + 4 <= steps
    requires d < BPF_MEMWORDS && Computes(f, env, vm, a, n, va, d, steps)
    requires va.Some? ==>
      && |a.mem| == BPF_MEMWORDS && saved.pc == a.pc + 1 && saved.mem[..d] == a.mem[..d] && saved.mem[d] == a.a
      && Run(f, env, a, steps - n) == Run(f, env, saved, steps - n - 1)
      && Computes(f, env, saved, b, m, vb, d + 1, steps - n - 1)
    requires va.Some? && vb.Some? ==>
      |b.mem| == BPF_MEMWORDS && Computes(f, env, b, vm', 3, Result(alu, b.mem[d], b.a), d, steps - n - 1 - m)
    ensures Computes(f, env, vm, vm', n + 1 + m + 3, ResultOf(alu, va, vb), d, steps)
  {
    hide Run, Result;
    if va.Some? && vb.Some? {
      KeptBelow(vm, a, saved, b, d);
    }
  }

  lemma ApplyCode(alu: Alu, l: Expr, r: Expr, d: nat)
    requires Compilable(Apply(alu, l, r), d)
    ensures Compilable(l, d) && Compilable(r, d + 1)
    ensures ExprCode(Apply(alu, l, r), d) == ExprCode(l, d) + [Plain(0x02, d)] + ExprCode(r, d + 1) +
              [Plain(0x07, 0), Plain(0x60, d), Plain(WithX(AluCode(alu)), 0)]
  {
    hide AluCode;
  }

  lemma ApplyParts(f: seq<Insn>, at: int, alu: Alu, l: Expr, r: Expr, d: nat)
    requires Compilable(Apply(alu, l, r), d) && Placed(f, at, ExprCode(Apply(alu, l, r), d))
    ensures Compilable(l, d) && Compilable(r, d + 1) && d < BPF_MEMWORDS
    ensures var n, m := |ExprCode(l, d)|, |ExprCode(r, d + 1)|;
            && Placed(f, at, ExprCode(l, d)) && Placed(f, at + n, [Plain(0x02, d)])
            && Placed(f, at + n + 1, ExprCode(r, d + 1))
            && Placed(f, at + n + 1 + m, [Plain(0x07, 0), Plain(0x60, d), Plain(WithX(AluCode(alu)), 0)])
            && |ExprCode(Apply(alu, l, r), d)| == n + 1 + m + 3
  {
    hide Placed, ExprCode, AluCode;
    var left, right := ExprCode(l, d), ExprCode(r, d + 1);
    var tail := [Plain(0x07, 0), Plain(0x60, d), Plain(WithX(AluCode(alu)), 0)];
    ApplyCode(alu, l, r, d);
    PlacedParts(f, at, left + [Plain(0x02, d)] + right, tail);
    PlacedParts(f, at, left + [Plain(0x02, d)], right);
    PlacedParts(f, at, left, [Plain(0x02, d)]);
  }

  /** The cells below the saved one survive both operands, and the saved one the right operand. */
  lemma KeptBelow(vm: Vm, a: Vm, saved: Vm, b: Vm, d: nat)
    requires |vm.mem| == |a.mem| == |saved.mem| == |b.mem| == BPF_MEMWORDS && d < BPF_MEMWORDS
    requires a.mem[..d] == vm.mem[..d] && saved.mem[..d] == a.mem[..d] && saved.mem[d] == a.a
    requires b.mem[..d + 1] == saved.mem[..d + 1]
    ensures b.mem[d] == a.a && b.mem[..d] == vm.mem[..d]
  {
    assert b.mem[d] == b.mem[..d + 1][d] == saved.mem[..d + 1][d];
    assert b.mem[..d] == b.mem[..d + 1][..d] == saved.mem[..d + 1][..d] == saved.mem[..d];
  }

  lemma SaveRuns(f: seq<Insn>, env: Env, a: Vm, d: nat, steps: nat) returns (saved: Vm)
    requires env.Valid() && |a.mem| == BPF_MEMWORDS && d < BPF_MEMWORDS && steps > 0
    requires Placed(f, a.pc, [Plain(0x02, d)])
    ensures |saved.mem| == BPF_MEMWORDS && saved.pc == a.pc + 1 && saved.mem[..d] == a.mem[..d] && saved.mem[d] == a.a
    ensures Run(f, env, a, steps) == Run(f, env, saved, steps - 1)
  {
    hide Run, Execute;
    PlacedAt(f, a.pc, [Plain(0x02, d)], 0);
    Runs(f, env, a, Plain(0x02, d), steps);
    ScratchExecutes(env, a, d);
    saved := Execute(Plain(0x02, d), env, a).vm;
  }

  /** The end of the code of a binary operation: the left operand is in cell `d`, the right one in A. */
  lemma TailRuns(f: seq<Insn>, env: Env, b: Vm, alu: Alu, d: nat, steps: nat) returns (vm': Vm)
    requires env.Valid() && |b.mem| == BPF_MEMWORDS && d < BPF_MEMWORDS && 3 <= steps
    requires Placed(f, b.pc, [Plain(0x07, 0), Plain(0x60, d), Plain(WithX(AluCode(alu)), 0)])
    ensures Computes(f, env, b, vm', 3, Result(alu, b.mem[d], b.a), d, steps)
  {
    hide Decode, Run, Execute, Result;
    var tail := [Plain(0x07, 0), Plain(0x60, d), Plain(WithX(AluCode(alu)), 0)];
    PlacedAt(f, b.pc, tail, 0);
    PlacedAt(f, b.pc, tail, 1);
    PlacedAt(f, b.pc, tail, 2);
    Runs(f, env, b, tail[0], steps);
    MovesExecute(env, b);
    var moved := Execute(tail[0], env, b).vm;
    Runs(f, env, moved, tail[1], steps - 1);
    ScratchExecutes(env, moved, d);
    var loaded := Execute(tail[1], env, moved).vm;
    Runs(f, env, loaded, tail[2], steps - 2);
    AluExecutes(env, loaded, alu, 0);
    var effect := Execute(tail[2], env, loaded);
    vm' := if effect.Next? then effect.vm else b;
  }
}
