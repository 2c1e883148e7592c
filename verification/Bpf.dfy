/** The BPF virtual machine and the static checker of `bpf_filter.c`. */
module Bpf {
  import opened Words
  import opened Bits

  // ---------------------------------------------------------------------------------------------
  // Instructions
  // ---------------------------------------------------------------------------------------------

  const BPF_MEMWORDS := 16

  datatype Insn = Insn(code: U16, jt: U8, jf: U8, k: U32)

  datatype Class = LD | LDX | ST | STX | ALU | JMP | RET | MISC

  function ClassOf(code: U16): Class {
    match code % 8
    case 0 => LD
    case 1 => LDX
    case 2 => ST
    case 3 => STX
    case 4 => ALU
    case 5 => JMP
    case 6 => RET
    case _ => MISC
  }

  /** BPF_MODE, BPF_OP and BPF_SRC: the masks 0xe0, 0xf0 and 0x08. */
  function ModeOf(code: U16): int {
    code / 32 % 8 * 32
  }

  function OpOf(code: U16): int {
    code / 16 % 16 * 16
  }

  function SrcOf(code: U16): int {
    code / 8 % 2 * 8
  }

  datatype Size = Word | Half | Byte
  datatype Source = FromK | FromX
  datatype Compare = JGT | JGE | JEQ | JSET
  datatype Alu = ADD | SUB | MUL | DIV | MOD | AND | OR | XOR | LSH | RSH

  /** What the interpreter does for a code; `Unknown` is its `default` label. */
  datatype Operation =
    | RetK | RetA
    | LoadAbs(size: Size) | LoadInd(size: Size) | LoadLen | LoadXLen | LoadXMsh
    | LoadImm | LoadXImm | LoadMem | LoadXMem | Store | StoreX
    | Jump | Branch(compare: Compare, operand: Source)
    | Arith(alu: Alu, source: Source) | Neg | Tax | Txa
    | Unknown

  function Decode(code: U16): Operation {
    match code
    case 0x06 => RetK
    case 0x16 => RetA
    case 0x20 => LoadAbs(Word)
    case 0x28 => LoadAbs(Half)
    case 0x30 => LoadAbs(Byte)
    case 0x80 => LoadLen
    case 0x81 => LoadXLen
    case 0x40 => LoadInd(Word)
    case 0x48 => LoadInd(Half)
    case 0x50 => LoadInd(Byte)
    case 0xb1 => LoadXMsh
    case 0x00 => LoadImm
    case 0x01 => LoadXImm
    case 0x60 => LoadMem
    case 0x61 => LoadXMem
    case 0x02 => Store
    case 0x03 => StoreX
    case 0x05 => Jump
    case 0x25 => Branch(JGT, FromK)
    case 0x35 => Branch(JGE, FromK)
    case 0x15 => Branch(JEQ, FromK)
    case 0x45 => Branch(JSET, FromK)
    case 0x2d => Branch(JGT, FromX)
    case 0x3d => Branch(JGE, FromX)
    case 0x1d => Branch(JEQ, FromX)
    case 0x4d => Branch(JSET, FromX)
    case 0x0c => Arith(ADD, FromX)
    case 0x1c => Arith(SUB, FromX)
    case 0x2c => Arith(MUL, FromX)
    case 0x3c => Arith(DIV, FromX)
    case 0x9c => Arith(MOD, FromX)
    case 0x5c => Arith(AND, FromX)
    case 0x4c => Arith(OR, FromX)
    case 0xac => Arith(XOR, FromX)
    case 0x6c => Arith(LSH, FromX)
    case 0x7c => Arith(RSH, FromX)
    case 0x04 => Arith(ADD, FromK)
    case 0x14 => Arith(SUB, FromK)
    case 0x24 => Arith(MUL, FromK)
    case 0x34 => Arith(DIV, FromK)
    case 0x94 => Arith(MOD, FromK)
    case 0x54 => Arith(AND, FromK)
    case 0x44 => Arith(OR, FromK)
    case 0xa4 => Arith(XOR, FromK)
    case 0x64 => Arith(LSH, FromK)
    case 0x74 => Arith(RSH, FromK)
    case 0x84 => Neg
    case 0x07 => Tax
    case 0x87 => Txa
    case _ => Unknown
  }

  // ---------------------------------------------------------------------------------------------
  // One step of the interpreter
  // ---------------------------------------------------------------------------------------------

  const SKF_AD_VLAN_TAG_K: U32 := 0xFFFF_F02C
  const SKF_AD_VLAN_TAG_PRESENT_K: U32 := 0xFFFF_F030

  datatype AuxData = NoAux | Aux(vlanTag: U16, vlanTagPresent: U16)

  /** What a run is given besides the program: memory at the packet pointer, of which the first
      `buflen` bytes are the packet. */
  datatype Env = Env(p: seq<U8>, wirelen: U32, buflen: U32, aux: AuxData) {
    predicate Valid() {
      buflen <= |p|
    }
  }

  datatype Vm = Vm(a: U32, x: U32, pc: int, mem: seq<U32>)

  /** Ways a step can leave the defined behaviour of the C code; `Abort` is the call to abort(). */
  datatype Fault = OutsideProgram | ScratchOutOfRange | DivisionByZero | UndefinedShift | Abort

  datatype Effect = Next(vm: Vm) | Return(value: U32) | Fails(fault: Fault)

  function BitAnd(a: U32, b: U32): U32 {
    IntOf(And32(a as bv32, b as bv32))
  }

  function BitOr(a: U32, b: U32): U32 {
    IntOf(Or32(a as bv32, b as bv32))
  }

  function BitXor(a: U32, b: U32): U32 {
    IntOf(Xor32(a as bv32, b as bv32))
  }

  /** Shifting multiplies and divides by powers of two. */
  function ShiftLeft(a: U32, n: nat): U32
    requires n < 32
  {
    Wrap32(a * Power2(n))
  }

  function ShiftRight(a: U32, n: nat): U32
    requires n < 32
  {
    QuotientBounds(a, Power2(n), a / Power2(n), a % Power2(n));
    a / Power2(n)
  }

  function Product(a: U32, b: U32): U32 {
    Wrap32(a * b)
  }

  function Quotient(a: U32, b: U32): U32
    requires b != 0
  {
    QuotientBounds(a, b, a / b, a % b);
    a / b
  }

  function Remainder(a: U32, b: U32): U32
    requires b != 0
  {
    a % b
  }

  function Holds(compare: Compare, a: U32, b: U32): bool {
    match compare
    case JGT => a > b
    case JGE => a >= b
    case JEQ => a == b
    case JSET => BitAnd(a, b) != 0
  }

  function Advance(vm: Vm): Vm {
    vm.(pc := vm.pc + 1)
  }

  function SetA(vm: Vm, v: U32): Effect {
    Next(Advance(vm.(a := v)))
  }

  function SetX(vm: Vm, v: U32): Effect {
    Next(Advance(vm.(x := v)))
  }

  function SizeBytes(size: Size): nat {
    match size
    case Word => 4
    case Half => 2
    case Byte => 1
  }

  /** EXTRACT_LONG, EXTRACT_SHORT or a plain byte. */
  function Extract(p: seq<U8>, k: nat, size: Size): U32
    requires k + SizeBytes(size) <= |p|
  {
    match size
    case Word => GetBe32(p, k)
    case Half => GetBe16(p, k)
    case Byte => p[k]
  }

  function StepLoadAbs(env: Env, vm: Vm, size: Size, k: U32): Effect
    requires env.Valid()
  {
    match size
    case Byte =>
      if k == SKF_AD_VLAN_TAG_K then
        if env.aux.NoAux? then Return(0) else SetA(vm, env.aux.vlanTag)
      else if k == SKF_AD_VLAN_TAG_PRESENT_K then
        if env.aux.NoAux? then Return(0) else SetA(vm, env.aux.vlanTagPresent)
      else if k >= env.buflen then Return(0)
      else SetA(vm, env.p[k])
    case _ =>
      if k > env.buflen || SizeBytes(size) > Wrap32(env.buflen - k) then Return(0)
      else SetA(vm, Extract(env.p, k, size))
  }

  function StepLoadInd(env: Env, vm: Vm, size: Size, insnK: U32): Effect
    requires env.Valid()
  {
    var k := Wrap32(vm.x + insnK);
    match size
    case Word =>
      if insnK > env.buflen || vm.x > Wrap32(env.buflen - insnK) || 4 > Wrap32(env.buflen - k) then Return(0)
      else SetA(vm, Extract(env.p, k, Word))
    case Half =>
      if vm.x > env.buflen || insnK > Wrap32(env.buflen - vm.x) || 2 > Wrap32(env.buflen - k) then Return(0)
      else SetA(vm, Extract(env.p, k, Half))
    case Byte =>
      if insnK >= env.buflen || vm.x >= Wrap32(env.buflen - insnK) then Return(0)
      else SetA(vm, Extract(env.p, k, Byte))
  }

  function StepArith(vm: Vm, alu: Alu, source: Source, insnK: U32): Effect {
    var v := if source.FromX? then vm.x else insnK;
    match alu
    case ADD => SetA(vm, Wrap32(vm.a + v))
    case SUB => SetA(vm, Wrap32(vm.a - v))
    case MUL => SetA(vm, Product(vm.a, v))
    case DIV =>
      if v != 0 then SetA(vm, Quotient(vm.a, v)) else if source.FromX? then Return(0) else Fails(DivisionByZero)
    case MOD =>
      if v != 0 then SetA(vm, Remainder(vm.a, v)) else if source.FromX? then Return(0) else Fails(DivisionByZero)
    case AND => SetA(vm, BitAnd(vm.a, v))
    case OR => SetA(vm, BitOr(vm.a, v))
    case XOR => SetA(vm, BitXor(vm.a, v))
    case LSH =>
      if v < 32 then SetA(vm, ShiftLeft(vm.a, v)) else if source.FromX? then SetA(vm, 0) else Fails(UndefinedShift)
    case RSH =>
      if v < 32 then SetA(vm, ShiftRight(vm.a, v)) else if source.FromX? then SetA(vm, 0) else Fails(UndefinedShift)
  }

  /** An indirect load that passes its checks stays inside the packet, whatever wraps. */
  lemma IndirectFits(env: Env, x: U32, insnK: U32, size: Size)
    requires match size
             case Word =>
               && insnK <= env.buflen && x <= Wrap32(env.buflen - insnK)
               && 4 <= Wrap32(env.buflen - Wrap32(x + insnK))
             case Half =>
               && x <= env.buflen && insnK <= Wrap32(env.buflen - x)
               && 2 <= Wrap32(env.buflen - Wrap32(x + insnK))
             case Byte => insnK < env.buflen && x < Wrap32(env.buflen - insnK)
    ensures Wrap32(x + insnK) + SizeBytes(size) <= env.buflen
  {
  }

  /** LD|MEM, LDX|MEM, ST and STX. */
  function StepScratch(vm: Vm, operation: Operation, k: U32): Effect
    requires operation in {LoadMem, LoadXMem, Store, StoreX} && |vm.mem| == BPF_MEMWORDS
  {
    if k >= BPF_MEMWORDS then Fails(ScratchOutOfRange)
    else if operation == LoadMem then SetA(vm, vm.mem[k])
    else if operation == LoadXMem then SetX(vm, vm.mem[k])
    else if operation == Store then Next(Advance(vm.(mem := vm.mem[k := vm.a])))
    else Next(Advance(vm.(mem := vm.mem[k := vm.x])))
  }

  /** The instruction at vm.pc, executed. */
  function Execute(insn: Insn, env: Env, vm: Vm): Effect
    requires env.Valid() && |vm.mem| == BPF_MEMWORDS
  {
    match Decode(insn.code)
    case RetK => Return(insn.k)
    case RetA => Return(vm.a)
    case LoadAbs(size) => StepLoadAbs(env, vm, size, insn.k)
    case LoadInd(size) => StepLoadInd(env, vm, size, insn.k)
    case LoadLen => SetA(vm, env.wirelen)
    case LoadXLen => SetX(vm, env.wirelen)
    case LoadXMsh => if insn.k >= env.buflen then Return(0) else SetX(vm, env.p[insn.k] % 16 * 4)
    case LoadImm => SetA(vm, insn.k)
    case LoadXImm => SetX(vm, insn.k)
    case LoadMem => StepScratch(vm, LoadMem, insn.k)
    case LoadXMem => StepScratch(vm, LoadXMem, insn.k)
    case Store => StepScratch(vm, Store, insn.k)
    case StoreX => StepScratch(vm, StoreX, insn.k)
    case Jump => Next(Advance(vm.(pc := vm.pc + Signed32(insn.k))))
    case Branch(compare, operand) =>
      var taken := Holds(compare, vm.a, if operand.FromX? then vm.x else insn.k);
      Next(Advance(vm.(pc := vm.pc + if taken then insn.jt else insn.jf)))
    case Arith(alu, source) => StepArith(vm, alu, source, insn.k)
    case Neg => SetA(vm, Wrap32(0 - vm.a))
    case Tax => SetX(vm, vm.a)
    case Txa => SetA(vm, vm.x)
    case Unknown => Fails(Abort)
  }

  function Step(f: seq<Insn>, env: Env, vm: Vm): Effect
    requires env.Valid() && |vm.mem| == BPF_MEMWORDS
  {
    if 0 <= vm.pc < |f| then Execute(f[vm.pc], env, vm) else Fails(OutsideProgram)
  }

  // ---------------------------------------------------------------------------------------------
  // Runs
  // ---------------------------------------------------------------------------------------------

  /** `Running` is a run that has not ended within the steps it was given. */
  datatype Outcome = Running(vm: Vm) | Returned(value: U32) | Failed(fault: Fault)

  function Run(f: seq<Insn>, env: Env, vm: Vm, steps: nat): Outcome
    requires env.Valid() && |vm.mem| == BPF_MEMWORDS
    decreases steps
  {
    if steps == 0 then Running(vm)
    else match Step(f, env, vm)
         case Next(vm') => Run(f, env, vm', steps - 1)
         case Return(value) => Returned(value)
         case Fails(fault) => Failed(fault)
  }

  lemma RunNext(f: seq<Insn>, env: Env, vm: Vm, steps: nat)
    requires env.Valid() && |vm.mem| == BPF_MEMWORDS && steps > 0
    ensures var effect := Step(f, env, vm);
            match effect
            case Next(vm') => |vm'.mem| == BPF_MEMWORDS && Run(f, env, vm, steps) == Run(f, env, vm', steps - 1)
            case Return(value) => Run(f, env, vm, steps) == Returned(value)
            case Fails(fault) => Run(f, env, vm, steps) == Failed(fault)
  {
    StepKeepsScratch(f, env, vm);
    hide Step;
  }

  lemma StepKeepsScratch(f: seq<Insn>, env: Env, vm: Vm)
    requires env.Valid() && |vm.mem| == BPF_MEMWORDS
    ensures Step(f, env, vm).Next? ==> |Step(f, env, vm).vm.mem| == BPF_MEMWORDS
  {
    hide Decode, Holds, Extract, Signed32, Wrap32;
    hide Product, Quotient, Remainder, BitAnd, BitOr, BitXor, ShiftLeft, ShiftRight;
  }

  lemma RunNothing(f: seq<Insn>, env: Env, vm: Vm)
    requires env.Valid() && |vm.mem| == BPF_MEMWORDS
    ensures Run(f, env, vm, 0) == Running(vm)
  {
  }

  function Start(mem: seq<U32>): Vm {
    Vm(0, 0, 0, mem)
  }

  // ---------------------------------------------------------------------------------------------
  // The static checker
  // ---------------------------------------------------------------------------------------------

  /** What `pcap_validate_filter` asks of instruction `i` of a program of `len` instructions. */
  predicate InsnOk(insn: Insn, i: nat, len: nat) {
    match ClassOf(insn.code)
    case LD | LDX =>
      var mode := ModeOf(insn.code);
      if mode == 0x60 then insn.k < BPF_MEMWORDS else mode in {0x00, 0x20, 0x40, 0x80, 0xa0}
    case ST | STX => insn.k < BPF_MEMWORDS
    case ALU =>
      var op := OpOf(insn.code);
      if op == 0x30 || op == 0x90 then !(SrcOf(insn.code) == 0x00 && insn.k == 0)
      else op in {0x00, 0x10, 0x20, 0x40, 0x50, 0xa0, 0x60, 0x70, 0x80}
    case JMP =>
      var from := i + 1;
      var op := OpOf(insn.code);
      if op == 0x00 then Wrap32(from + insn.k) < len
      else op in {0x10, 0x20, 0x30, 0x40} && Wrap32(from + insn.jt) < len && Wrap32(from + insn.jf) < len
    case RET => true
    case MISC => true
  }

  predicate Accepted(f: seq<Insn>) {
    && |f| >= 1
    && (forall i | 0 <= i < |f| :: InsnOk(f[i], i, |f|))
    && ClassOf(f[|f| - 1].code) == RET
  }

  /** The body of the loop of `pcap_validate_filter`. */
  method CheckInsn(p: Insn, i: U32, len: nat) returns (ok: bool)
    requires i < len < 0x8000_0000
    ensures ok == InsnOk(p, i, len)
  {
    hide ClassOf, ModeOf, OpOf, SrcOf;
    match ClassOf(p.code) {
      case LD | LDX =>
        match ModeOf(p.code) {
          case 0x00 | 0x20 | 0x40 | 0xa0 =>
          case 0x60 =>
            if p.k >= BPF_MEMWORDS {
              return false;
            }
          case 0x80 =>
          case _ =>
            return false;
        }
      case ST | STX =>
        if p.k >= BPF_MEMWORDS {
          return false;
        }
      case ALU =>
        match OpOf(p.code) {
          case 0x00 | 0x10 | 0x20 | 0x40 | 0x50 | 0xa0 | 0x60 | 0x70 | 0x80 =>
          case 0x30 | 0x90 =>
            if SrcOf(p.code) == 0x00 && p.k == 0 {
              return false;
            }
          case _ =>
            return false;
        }
      case JMP =>
        var from := Wrap32(i + 1);
        match OpOf(p.code) {
          case 0x00 =>
            if Wrap32(from + p.k) >= len {
              return false;
            }
          case 0x10 | 0x20 | 0x30 | 0x40 =>
            if Wrap32(from + p.jt) >= len || Wrap32(from + p.jf) >= len {
              return false;
            }
          case _ =>
            return false;
        }
      case RET =>
      case MISC =>
    }
    ok := true;
  }

  /** `pcap_validate_filter`; its parameter `len` is a signed int. */
  method ValidateFilter(f: seq<Insn>) returns (ok: bool)
    requires |f| < 0x8000_0000
    ensures ok == Accepted(f)
  {
    hide InsnOk, ClassOf;
    if |f| < 1 {
      return false;
    }
    var i: U32 := 0;
    while i < |f|
      invariant i <= |f|
      invariant forall j | 0 <= j < i :: InsnOk(f[j], j, |f|)
    {
      var fine := CheckInsn(f[i], i, |f|);
      if !fine {
        return false;
      }
      i := i + 1;
    }
    ok := ClassOf(f[|f| - 1].code) == RET;
  }

  // ---------------------------------------------------------------------------------------------
  // The interpreter loop
  // ---------------------------------------------------------------------------------------------

  /** A filter is a pointer to instructions; the null pointer accepts every packet. */
  datatype Filter = NoFilter | Code(insns: seq<Insn>)

  function FilterOutcome(filter: Filter, env: Env, mem: seq<U32>, steps: nat): Outcome
    requires env.Valid() && |mem| == BPF_MEMWORDS
  {
    match filter
    case NoFilter => Returned(0xFFFF_FFFF)
    case Code(insns) => Run(insns, env, Start(mem), steps)
  }

  datatype Control = Continue | Stop(outcome: Outcome)

  /** The registers and scratch memory of the interpreter; `mem` is the uninitialised array. */
  class Machine {
    const f: seq<Insn>
    const env: Env
    const mem: array<U32>
    var A: U32
    var X: U32
    var pc: int

    ghost predicate Valid() {
      env.Valid() && mem.Length == BPF_MEMWORDS
    }

    ghost function State(): Vm
      reads this, mem
    {
      Vm(A, X, pc, mem[..])
    }

    /** `control` and the new state are what `effect` says. */
    ghost predicate Does(effect: Effect, control: Control)
      reads this, mem
    {
      match effect
      case Next(vm) => control.Continue? && State() == vm
      case Return(value) => control == Stop(Returned(value))
      case Fails(fault) => control == Stop(Failed(fault))
    }

    constructor (f: seq<Insn>, env: Env, mem: array<U32>)
      requires env.Valid() && mem.Length == BPF_MEMWORDS
      ensures Valid() && this.f == f && this.env == env && this.mem == mem && State() == Start(mem[..])
    {
      this.f, this.env, this.mem := f, env, mem;
      A, X, pc := 0, 0, 0;
    }

    method LoadAbsolute(size: Size, insnK: U32) returns (control: Control)
      requires Valid()
      modifies this
      ensures Does(StepLoadAbs(env, old(State()), size, insnK), control)
    {
      control := Continue;
      if size.Byte? {
        if insnK == SKF_AD_VLAN_TAG_K {
          if env.aux.NoAux? {
            return Stop(Returned(0));
          }
          A := env.aux.vlanTag;
        } else if insnK == SKF_AD_VLAN_TAG_PRESENT_K {
          if env.aux.NoAux? {
            return Stop(Returned(0));
          }
          A := env.aux.vlanTagPresent;
        } else {
          if insnK >= env.buflen {
            return Stop(Returned(0));
          }
          A := env.p[insnK];
        }
      } else {
        if insnK > env.buflen || SizeBytes(size) > Wrap32(env.buflen - insnK) {
          return Stop(Returned(0));
        }
        A := Extract(env.p, insnK, size);
      }
      pc := pc + 1;
    }

    method LoadIndirect(size: Size, insnK: U32) returns (control: Control)
      requires Valid()
      modifies this
      ensures Does(StepLoadInd(env, old(State()), size, insnK), control)
    {
      hide Extract, Wrap32;
      control := Continue;
      var k := Wrap32(X + insnK);
      match size {
        case Word =>
          if insnK > env.buflen || X > Wrap32(env.buflen - insnK) || 4 > Wrap32(env.buflen - k) {
            return Stop(Returned(0));
          }
        case Half =>
          if X > env.buflen || insnK > Wrap32(env.buflen - X) || 2 > Wrap32(env.buflen - k) {
            return Stop(Returned(0));
          }
        case Byte =>
          if insnK >= env.buflen || X >= Wrap32(env.buflen - insnK) {
            return Stop(Returned(0));
          }
      }
      IndirectFits(env, X, insnK, size);
      A := Extract(env.p, k, size);
      pc := pc + 1;
    }

    method Arithmetic(alu: Alu, source: Source, insnK: U32) returns (control: Control)
      requires Valid()
      modifies this
      ensures Does(StepArith(old(State()), alu, source, insnK), control)
    {
      hide Wrap32, Product, Quotient, Remainder, BitAnd, BitOr, BitXor, ShiftLeft, ShiftRight;
      control := Continue;
      var v := if source.FromX? then X else insnK;
      match alu {
        case ADD => A := Wrap32(A + v);
        case SUB => A := Wrap32(A - v);
        case MUL => A := Product(A, v);
        case DIV =>
          if v == 0 {
            return if source.FromX? then Stop(Returned(0)) else Stop(Failed(DivisionByZero));
          }
          A := Quotient(A, v);
        case MOD =>
          if v == 0 {
            return if source.FromX? then Stop(Returned(0)) else Stop(Failed(DivisionByZero));
          }
          A := Remainder(A, v);
        case AND => A := BitAnd(A, v);
        case OR => A := BitOr(A, v);
        case XOR => A := BitXor(A, v);
        case LSH =>
          if v < 32 {
            A := ShiftLeft(A, v);
          } else if source.FromX? {
            A := 0;
          } else {
            return Stop(Failed(UndefinedShift));
          }
        case RSH =>
          if v < 32 {
            A := ShiftRight(A, v);
          } else if source.FromX? {
            A := 0;
          } else {
            return Stop(Failed(UndefinedShift));
          }
      }
      pc := pc + 1;
    }

    method Scratch(operation: Operation, insnK: U32) returns (control: Control)
      requires Valid()
      requires operation in {LoadMem, LoadXMem, Store, StoreX}
      modifies this, mem
      ensures Does(StepScratch(old(State()), operation, insnK), control)
    {
      if insnK >= BPF_MEMWORDS {
        return Stop(Failed(ScratchOutOfRange));
      }
      if operation.LoadMem? {
        A := mem[insnK];
      } else if operation.LoadXMem? {
        X := mem[insnK];
      } else if operation.Store? {
        mem[insnK] := A;
      } else {
        mem[insnK] := X;
      }
      pc := pc + 1;
      control := Continue;
    }

    /** One turn of the interpreter loop. */
    method Turn() returns (control: Control)
      requires Valid()
      modifies this, mem
      ensures Does(Step(f, env, old(State())), control)
    {
      if !(0 <= pc < |f|) {
        return Stop(Failed(OutsideProgram));
      }
      var insn := f[pc];
      match Decode(insn.code) {
        case Unknown =>
          return Stop(Failed(Abort));
        case RetK =>
          return Stop(Returned(insn.k));
        case RetA =>
          return Stop(Returned(A));
        case LoadAbs(size) =>
          control := LoadAbsolute(size, insn.k);
          return;
        case LoadInd(size) =>
          control := LoadIndirect(size, insn.k);
          return;
        case Arith(alu, source) =>
          control := Arithmetic(alu, source, insn.k);
          return;
        case LoadMem | LoadXMem | Store | StoreX =>
          control := Scratch(Decode(insn.code), insn.k);
          return;
        case LoadLen =>
          A := env.wirelen;
        case LoadXLen =>
          X := env.wirelen;
        case LoadXMsh =>
          if insn.k >= env.buflen {
            return Stop(Returned(0));
          }
          X := env.p[insn.k] % 16 * 4;
        case LoadImm =>
          A := insn.k;
        case LoadXImm =>
          X := insn.k;
        case Jump =>
          pc := pc + Signed32(insn.k);
        case Branch(compare, operand) =>
          var taken := Holds(compare, A, if operand.FromX? then X else insn.k);
          pc := pc + if taken then insn.jt else insn.jf;
        case Neg =>
          A := Wrap32(0 - A);
        case Tax =>
          X := A;
        case Txa =>
          A := X;
      }
      pc := pc + 1;
      control := Continue;
    }

    /** The interpreter loop.  The C loop has no bound; this one makes at most `steps` turns. */
    method Loop(steps: nat) returns (outcome: Outcome)
      requires Valid()
      modifies this, mem
      ensures outcome == Run(f, env, old(State()), steps)
    {
      hide Step, Run, Does;
      ghost var start := State();
      var turns := 0;
      while turns < steps
        invariant turns <= steps && Valid()
        invariant Run(f, env, State(), steps - turns) == Run(f, env, start, steps)
      {
        ghost var before := State();
        RunNext(f, env, before, steps - turns);
        var control := Turn();
        DoesIs(Step(f, env, before), control);
        if control.Stop? {
          return control.outcome;
        }
        turns := turns + 1;
      }
      RunNothing(f, env, State());
      outcome := Running(Vm(A, X, pc, mem[..]));
    }

    lemma DoesIs(effect: Effect, control: Control)
      requires Does(effect, control)
      ensures match effect
              case Next(vm) => control.Continue? && State() == vm
              case Return(value) => control == Stop(Returned(value))
              case Fails(fault) => control == Stop(Failed(fault))
    {
    }
  }

  /** `pcap_filter_with_aux_data` */
  method FilterWithAuxData(filter: Filter, env: Env, mem: array<U32>, steps: nat) returns (outcome: Outcome)
    requires env.Valid() && mem.Length == BPF_MEMWORDS
    modifies mem
    ensures outcome == FilterOutcome(filter, env, old(mem[..]), steps)
    ensures filter.NoFilter? ==> outcome == Returned(0xFFFF_FFFF)
  {
    hide Run;
    if filter.NoFilter? {
      return Returned(0xFFFF_FFFF);
    }
    var machine := new Machine(filter.insns, env, mem);
    outcome := machine.Loop(steps);
  }
}
