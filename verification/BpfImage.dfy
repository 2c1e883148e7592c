/** The disassembler of `bpf_image.c`. */
module BpfImage {
  import opened Words
  import opened Bpf

  // ---------------------------------------------------------------------------------------------
  // Formatting
  // ---------------------------------------------------------------------------------------------

  function DigitChar(d: nat): char
    requires d < 16
  {
    if d < 10 then '0' + d as char else 'a' + (d - 10) as char
  }

  function LeadingPart(base: nat, n: nat): (q: nat)
    requires 2 <= base
    ensures n >= base ==> q < n
  {
    n / base
  }

  function LastPart(base: nat, n: nat): (r: nat)
    requires 2 <= base
    ensures r < base && (n < base ==> r == n)
    ensures n == LeadingPart(base, n) * base + r
  {
    n % base
  }

  function Digits(base: nat, n: nat): (s: string)
    requires 2 <= base <= 16
    ensures |s| >= 1
    decreases n
  {
    if n < base then [DigitChar(n)] else Digits(base, LeadingPart(base, n)) + [DigitChar(LastPart(base, n))]
  }

  /** %x */
  function Hex(n: nat): string {
    Digits(16, n)
  }

  /** %d */
  function Decimal(n: int): string {
    if n < 0 then "-" + Digits(10, -n) else Digits(10, n)
  }

  /** %d given an unsigned argument */
  function DecimalOfWord(k: U32): string {
    Decimal(Signed32(k))
  }

  function Spaces(n: nat): (s: string)
    ensures |s| == n && forall i | 0 <= i < n :: s[i] == ' '
  {
    seq(n, i => ' ')
  }

  /** %-8s and %-16s */
  function PadRight(s: string, width: nat): string {
    if |s| < width then s + Spaces(width - |s|) else s
  }

  /** %03d */
  function Index(n: nat): string {
    var s := Digits(10, n);
    if |s| == 1 then "00" + s else if |s| == 2 then "0" + s else s
  }

  // ---------------------------------------------------------------------------------------------
  // The text of an instruction
  // ---------------------------------------------------------------------------------------------

  datatype Mnemonic =
    | UNIMP | M_RET | M_LD | M_LDH | M_LDB | M_LDX | M_LDXB | M_ST | M_STX | M_JA
    | M_JGT | M_JGE | M_JEQ | M_JSET
    | M_ADD | M_SUB | M_MUL | M_DIV | M_MOD | M_AND | M_OR | M_XOR | M_LSH | M_RSH
    | M_NEG | M_TAX | M_TXA

  function Name(m: Mnemonic): (s: string)
    ensures 2 <= |s| <= 5
  {
    match m
    case UNIMP => "unimp"
    case M_RET => "ret"
    case M_LD => "ld"
    case M_LDH => "ldh"
    case M_LDB => "ldb"
    case M_LDX => "ldx"
    case M_LDXB => "ldxb"
    case M_ST => "st"
    case M_STX => "stx"
    case M_JA => "ja"
    case M_JGT => "jgt"
    case M_JGE => "jge"
    case M_JEQ => "jeq"
    case M_JSET => "jset"
    case M_ADD => "add"
    case M_SUB => "sub"
    case M_MUL => "mul"
    case M_DIV => "div"
    case M_MOD => "mod"
    case M_AND => "and"
    case M_OR => "or"
    case M_XOR => "xor"
    case M_LSH => "lsh"
    case M_RSH => "rsh"
    case M_NEG => "neg"
    case M_TAX => "tax"
    case M_TXA => "txa"
  }

  /** The text of a special Linux offset, by its distance from SKF_AD_OFF; empty if it has none. */
  function OffsetSymbol(i: nat): string {
    match i
    case 0 => "proto"
    case 4 => "type"
    case 8 => "ifidx"
    case 12 => "nla"
    case 16 => "nlan"
    case 20 => "mark"
    case 24 => "queue"
    case 28 => "hatype"
    case 32 => "rxhash"
    case 36 => "cpu"
    case 40 => "xor_x"
    case 44 => "vlan_tci"
    case 48 => "vlanp"
    case 52 => "poff"
    case 56 => "random"
    case 60 => "vlan_tpid"
    case _ => ""
  }

  const SKF_AD_OFF: U32 := 0xFFFF_F000
  const SKF_AD_MAX := 64

  /** `bpf_print_abs_load_operand` */
  function AbsOperand(k: U32): string {
    if SKF_AD_OFF <= k < SKF_AD_OFF + SKF_AD_MAX && OffsetSymbol(k - SKF_AD_OFF) != "" then
      "[" + OffsetSymbol(k - SKF_AD_OFF) + "]"
    else
      "[" + DecimalOfWord(k) + "]"
  }

  /** The formats operands are printed with. */
  datatype Format = Nothing | HashDecimal | HashHex | PacketLength | Absolute | Indirect | HeaderLength | Memory
                  | Target | RegisterX | CodeHex

  function OperandText(format: Format, insn: Insn, n: nat): string {
    match format
    case Nothing => ""
    case HashDecimal => "#" + DecimalOfWord(insn.k)
    case HashHex => "#0x" + Hex(insn.k)
    case PacketLength => "#pktlen"
    case Absolute => AbsOperand(insn.k)
    case Indirect => "[x + " + DecimalOfWord(insn.k) + "]"
    case HeaderLength => "4*([" + DecimalOfWord(insn.k) + "]&0xf)"
    case Memory => "M[" + DecimalOfWord(insn.k) + "]"
    case Target => DecimalOfWord(Wrap32(n + 1 + insn.k))
    case RegisterX => "x"
    case CodeHex => "0x" + Hex(insn.code)
  }

  function MnemonicOf(operation: Operation): Mnemonic {
    match operation
    case RetK | RetA => M_RET
    case LoadAbs(Word) | LoadInd(Word) | LoadLen | LoadImm | LoadMem => M_LD
    case LoadAbs(Half) | LoadInd(Half) => M_LDH
    case LoadAbs(Byte) | LoadInd(Byte) => M_LDB
    case LoadXImm | LoadXMem => M_LDX
    case LoadXMsh => M_LDXB
    case Store => M_ST
    case StoreX => M_STX
    case Jump => M_JA
    case Branch(JGT, _) => M_JGT
    case Branch(JGE, _) => M_JGE
    case Branch(JEQ, _) => M_JEQ
    case Branch(JSET, _) => M_JSET
    case Arith(ADD, _) => M_ADD
    case Arith(SUB, _) => M_SUB
    case Arith(MUL, _) => M_MUL
    case Arith(DIV, _) => M_DIV
    case Arith(MOD, _) => M_MOD
    case Arith(AND, _) => M_AND
    case Arith(OR, _) => M_OR
    case Arith(XOR, _) => M_XOR
    case Arith(LSH, _) => M_LSH
    case Arith(RSH, _) => M_RSH
    case Neg => M_NEG
    case Tax => M_TAX
    case Txa => M_TXA
    case LoadXLen | Unknown => UNIMP
  }

  function FormatOf(operation: Operation): Format {
    match operation
    case RetK => HashDecimal
    case RetA | Neg | Tax | Txa => Nothing
    case LoadAbs(_) => Absolute
    case LoadInd(_) => Indirect
    case LoadLen => PacketLength
    case LoadImm | LoadXImm => HashHex
    case LoadMem | LoadXMem | Store | StoreX => Memory
    case LoadXMsh => HeaderLength
    case Jump => Target
    case Branch(_, FromK) => HashHex
    case Branch(_, FromX) => RegisterX
    case Arith(alu, FromK) => if alu in {AND, OR, XOR} then HashHex else HashDecimal
    case Arith(_, FromX) => RegisterX
    case LoadXLen | Unknown => CodeHex
  }

  /** The second test of the source: a conditional jump shows its targets, even an unknown one. */
  predicate ShowsTargets(code: U16) {
    ClassOf(code) == JMP && OpOf(code) != 0x00
  }

  function Targets(insn: Insn, n: nat): string {
    " jt " + Decimal(n + 1 + insn.jt) + "\tjf " + Decimal(n + 1 + insn.jf)
  }

  function Tail(operand: string, insn: Insn, n: nat): string {
    if ShowsTargets(insn.code) then PadRight(operand, 16) + Targets(insn, n) else operand
  }

  function Operand(insn: Insn, n: nat): string {
    OperandText(FormatOf(Decode(insn.code)), insn, n)
  }

  /** The text of `bpf_image` for instruction `insn` at index `n`. */
  function Image(insn: Insn, n: nat): string {
    "(" + Index(n) + ") " + PadRight(Name(MnemonicOf(Decode(insn.code))), 8) + " " + Tail(Operand(insn, n), insn, n)
  }

  // ---------------------------------------------------------------------------------------------
  // Numbers are printed injectively
  // ---------------------------------------------------------------------------------------------

  /** The digits '0' to '9' and 'a' to 'f'. */
  ghost predicate IsDigit(c: char) {
    '0' <= c <= '9' || 'a' <= c <= 'f'
  }

  lemma DigitCharIsDigit(d: nat)
    requires d < 16
    ensures IsDigit(DigitChar(d)) && (d < 10 ==> '0' <= DigitChar(d) <= '9')
  {
  }

  lemma DigitCharInjective(d: nat, e: nat)
    requires d < 16 && e < 16 && DigitChar(d) == DigitChar(e)
    ensures d == e
  {
  }

  lemma {:induction false} DigitsAreDigits(base: nat, n: nat, i: nat)
    requires 2 <= base <= 16 && i < |Digits(base, n)|
    ensures IsDigit(Digits(base, n)[i]) && (base == 10 ==> '0' <= Digits(base, n)[i] <= '9')
    decreases n
  {
    hide DigitChar, IsDigit, LeadingPart, LastPart;
    DigitCharIsDigit(LastPart(base, n));
    if n >= base && i < |Digits(base, LeadingPart(base, n))| {
      DigitsAreDigits(base, LeadingPart(base, n), i);
    }
  }

  lemma LastDigit(base: nat, n: nat)
    requires 2 <= base <= 16
    ensures var s := Digits(base, n);
            s[|s| - 1] == DigitChar(LastPart(base, n)) && (n < base <==> |s| == 1) &&
            (n >= base ==> s[..|s| - 1] == Digits(base, LeadingPart(base, n)))
  {
    hide DigitChar, LeadingPart, LastPart;
  }

  lemma {:induction false} DigitsInjective(base: nat, m: nat, n: nat)
    requires 2 <= base <= 16 && Digits(base, m) == Digits(base, n)
    ensures m == n
    decreases m
  {
    hide Digits, DigitChar, LeadingPart, LastPart;
    LastDigit(base, m);
    LastDigit(base, n);
    DigitCharInjective(LastPart(base, m), LastPart(base, n));
    if m >= base {
      DigitsInjective(base, LeadingPart(base, m), LeadingPart(base, n));
    }
  }

  lemma DecimalInjective(m: int, n: int)
    requires Decimal(m) == Decimal(n)
    ensures m == n
  {
    hide Digits;
    if m < 0 && n < 0 {
      assert Digits(10, -m) == Decimal(m)[1..] && Digits(10, -n) == Decimal(n)[1..];
      DigitsInjective(10, -m, -n);
    } else if m >= 0 && n >= 0 {
      DigitsInjective(10, m, n);
    } else {
      DigitsAreDigits(10, if m < 0 then n else m, 0);
    }
  }

  lemma DecimalChars(n: int, i: nat)
    requires i < |Decimal(n)|
    ensures Decimal(n)[i] == '-' || '0' <= Decimal(n)[i] <= '9'
  {
    hide Digits;
    if n < 0 {
      if i > 0 {
        DigitsAreDigits(10, -n, i - 1);
      }
    } else {
      DigitsAreDigits(10, n, i);
    }
  }

  // ---------------------------------------------------------------------------------------------
  // The text determines mnemonic, operand and targets
  // ---------------------------------------------------------------------------------------------

  lemma NameInjective(a: Mnemonic, b: Mnemonic)
    requires Name(a) == Name(b)
    ensures a == b
  {
  }

  lemma NameHasNoSpace(m: Mnemonic)
    ensures ' ' !in Name(m)
  {
  }

  function IndexOf(s: string, c: char): nat {
    if s == [] || s[0] == c then 0 else 1 + IndexOf(s[1..], c)
  }

  lemma {:induction false} IndexOfSeparator(a: string, s: string, c: char)
    requires c !in a
    ensures IndexOf(a + [c] + s, c) == |a|
  {
    if a == [] {
      assert a + [c] + s == [c] + s;
    } else {
      assert (a + [c] + s)[1..] == a[1..] + [c] + s;
      IndexOfSeparator(a[1..], s, c);
    }
  }

  /** Texts up to a separator they do not contain are determined by the whole. */
  lemma SplitAt(a: string, b: string, s: string, t: string, c: char)
    requires a + [c] + s == b + [c] + t
    requires c !in a && c !in b
    ensures a == b && s == t
  {
    IndexOfSeparator(a, s, c);
    IndexOfSeparator(b, t, c);
    var x, y := a + [c] + s, b + [c] + t;
    assert x[..|a|] == a && y[..|b|] == b && x[|a| + 1..] == s && y[|b| + 1..] == t;
  }

  lemma PaddingInjective(a: string, b: string, width: nat)
    requires PadRight(a, width) == PadRight(b, width)
    requires ' ' !in a && ' ' !in b && |a| <= width && |b| <= width
    ensures a == b
  {
    assert PadRight(a, width) + " " == a + [' '] + Spaces(width - |a|);
    assert PadRight(b, width) + " " == b + [' '] + Spaces(width - |b|);
    SplitAt(a, b, Spaces(width - |a|), Spaces(width - |b|), ' ');
  }

  /** Equal images name the same mnemonic and go on with the same text. */
  lemma ImageParts(i1: Insn, i2: Insn, n: nat)
    requires Image(i1, n) == Image(i2, n)
    ensures MnemonicOf(Decode(i1.code)) == MnemonicOf(Decode(i2.code))
    ensures Tail(Operand(i1, n), i1, n) == Tail(Operand(i2, n), i2, n)
  {
    hide Decode, MnemonicOf, Operand, Tail, Name;
    var m1, m2 := MnemonicOf(Decode(i1.code)), MnemonicOf(Decode(i2.code));
    var prefix := "(" + Index(n) + ") ";
    var p1, p2 := PadRight(Name(m1), 8), PadRight(Name(m2), 8);
    var t1, t2 := " " + Tail(Operand(i1, n), i1, n), " " + Tail(Operand(i2, n), i2, n);
    assert |p1| == 8 && |p2| == 8;
    assert Image(i1, n) == prefix + (p1 + t1) && Image(i2, n) == prefix + (p2 + t2);
    assert Image(i1, n)[|prefix|..] == p1 + t1 && Image(i2, n)[|prefix|..] == p2 + t2;
    assert (p1 + t1)[..8] == p1 && (p2 + t2)[..8] == p2;
    assert (p1 + t1)[9..] == t1[1..] && (p2 + t2)[9..] == t2[1..];
    NameHasNoSpace(m1);
    NameHasNoSpace(m2);
    PaddingInjective(Name(m1), Name(m2), 8);
    NameInjective(m1, m2);
  }

  lemma DigitsContain(base: nat, n: nat, c: char)
    requires 2 <= base <= 16 && !IsDigit(c)
    ensures c !in Digits(base, n)
  {
    hide Digits, IsDigit;
    var s := Digits(base, n);
    forall i | 0 <= i < |s|
      ensures s[i] != c
    {
      DigitsAreDigits(base, n, i);
    }
  }

  lemma DecimalHasNoTab(n: int)
    ensures '\t' !in Decimal(n)
  {
    DigitsContain(10, if n < 0 then -n else n, '\t');
    hide Digits;
  }

  lemma TargetsInjective(i1: Insn, i2: Insn, n: nat)
    requires Targets(i1, n) == Targets(i2, n)
    ensures i1.jt == i2.jt && i1.jf == i2.jf
  {
    hide Decimal;
    var t1, t2 := Decimal(n + 1 + i1.jt), Decimal(n + 1 + i2.jt);
    var f1, f2 := Decimal(n + 1 + i1.jf), Decimal(n + 1 + i2.jf);
    DecimalHasNoTab(n + 1 + i1.jt);
    DecimalHasNoTab(n + 1 + i2.jt);
    assert Targets(i1, n)[4..] == t1 + ['\t'] + ("jf " + f1);
    assert Targets(i2, n)[4..] == t2 + ['\t'] + ("jf " + f2);
    SplitAt(t1, t2, "jf " + f1, "jf " + f2, '\t');
    assert ("jf " + f1)[3..] == f1 && ("jf " + f2)[3..] == f2;
    DecimalInjective(n + 1 + i1.jt, n + 1 + i2.jt);
    DecimalInjective(n + 1 + i1.jf, n + 1 + i2.jf);
  }

  lemma DecimalOfWordInjective(k: U32, l: U32)
    requires DecimalOfWord(k) == DecimalOfWord(l)
    ensures k == l
  {
    hide Decimal;
    DecimalInjective(Signed32(k), Signed32(l));
  }

  lemma SymbolsDiffer(i: nat, j: nat)
    requires OffsetSymbol(i) == OffsetSymbol(j) != ""
    ensures i == j
  {
  }

  lemma SymbolChars(i: nat)
    requires OffsetSymbol(i) != ""
    ensures 'a' <= OffsetSymbol(i)[0] <= 'z' && |OffsetSymbol(i)| >= 2 && OffsetSymbol(i)[1] != ' '
  {
  }

  function AbsBody(k: U32): string {
    if SKF_AD_OFF <= k < SKF_AD_OFF + SKF_AD_MAX && OffsetSymbol(k - SKF_AD_OFF) != "" then OffsetSymbol(k - SKF_AD_OFF)
    else DecimalOfWord(k)
  }

  lemma AbsBodyChars(k: U32)
    ensures AbsOperand(k) == "[" + AbsBody(k) + "]"
    ensures |AbsBody(k)| >= 1 && (|AbsBody(k)| >= 2 ==> AbsBody(k)[1] != ' ')
    ensures ('a' <= AbsBody(k)[0] <= 'z') <==>
              (SKF_AD_OFF <= k < SKF_AD_OFF + SKF_AD_MAX && OffsetSymbol(k - SKF_AD_OFF) != "")
  {
    hide Decimal, OffsetSymbol;
    if SKF_AD_OFF <= k < SKF_AD_OFF + SKF_AD_MAX && OffsetSymbol(k - SKF_AD_OFF) != "" {
      SymbolChars(k - SKF_AD_OFF);
    } else {
      DecimalNotEmpty(Signed32(k));
      DecimalChars(Signed32(k), 0);
      if |DecimalOfWord(k)| >= 2 {
        DecimalChars(Signed32(k), 1);
      }
    }
  }

  lemma DecimalNotEmpty(n: int)
    ensures |Decimal(n)| >= 1
  {
  }

  lemma AbsOperandInjective(k: U32, l: U32)
    requires AbsOperand(k) == AbsOperand(l)
    ensures k == l
  {
    hide AbsOperand, OffsetSymbol, DecimalOfWord;
    AbsBodyChars(k);
    AbsBodyChars(l);
    var x, y := AbsOperand(k), AbsOperand(l);
    assert x[1..|x| - 1] == AbsBody(k) && y[1..|y| - 1] == AbsBody(l);
    if 'a' <= AbsBody(k)[0] <= 'z' {
      SymbolsDiffer(k - SKF_AD_OFF, l - SKF_AD_OFF);
    } else {
      DecimalOfWordInjective(k, l);
    }
  }

  /** What tells the formats of one mnemonic apart. */
  lemma FormatMarks(format: Format, insn: Insn, n: nat)
    ensures var t := OperandText(format, insn, n);
            match format
            case Nothing => |t| == 0
            case HashDecimal => |t| >= 2 && t[0] == '#'
            case HashHex => |t| >= 4 && t[0] == '#' && t[1] == '0'
            case PacketLength => |t| >= 4 && t[0] == '#' && t[1] == 'p'
            case Absolute => |t| >= 3 && t[0] == '[' && t[2] != ' '
            case Indirect => |t| >= 3 && t[0] == '[' && t[2] == ' '
            case Memory => |t| >= 3 && t[0] == 'M'
            case RegisterX => |t| >= 1 && t[0] == 'x'
            case _ => true
  {
    hide AbsOperand, AbsBody, Decimal, Digits, Wrap32, Signed32;
    AbsBodyChars(insn.k);
    DecimalNotEmpty(Signed32(insn.k));
  }

  lemma FormatsOfMnemonic(o1: Operation, o2: Operation)
    requires MnemonicOf(o1) == MnemonicOf(o2) != UNIMP && FormatOf(o1) == FormatOf(o2)
    ensures o1 == o2
  {
  }

  lemma OperandNamesOperation(i1: Insn, i2: Insn, n: nat)
    requires MnemonicOf(Decode(i1.code)) == MnemonicOf(Decode(i2.code)) != UNIMP
    requires Operand(i1, n) == Operand(i2, n)
    ensures Decode(i1.code) == Decode(i2.code)
  {
    hide Decode, OperandText;
    FormatMarks(FormatOf(Decode(i1.code)), i1, n);
    FormatMarks(FormatOf(Decode(i2.code)), i2, n);
    FormatsOfMnemonic(Decode(i1.code), Decode(i2.code));
  }

  lemma OperandNamesK(format: Format, i1: Insn, i2: Insn, n: nat)
    requires OperandText(format, i1, n) == OperandText(format, i2, n)
    ensures format !in {Nothing, PacketLength, RegisterX, CodeHex} ==> i1.k == i2.k
    ensures format == CodeHex ==> i1.code == i2.code
  {
    hide DecimalOfWord, AbsOperand, Digits, Wrap32;
    var t1, t2 := OperandText(format, i1, n), OperandText(format, i2, n);
    var d1, d2 := DecimalOfWord(i1.k), DecimalOfWord(i2.k);
    match format
    case Nothing | PacketLength | RegisterX =>
    case HashDecimal =>
      assert t1[1..] == d1 && t2[1..] == d2;
      DecimalOfWordInjective(i1.k, i2.k);
    case HashHex =>
      assert t1[3..] == Hex(i1.k) && t2[3..] == Hex(i2.k);
      DigitsInjective(16, i1.k, i2.k);
    case Absolute =>
      AbsOperandInjective(i1.k, i2.k);
    case Indirect =>
      assert t1[5..|t1| - 1] == d1 && t2[5..|t2| - 1] == d2;
      DecimalOfWordInjective(i1.k, i2.k);
    case HeaderLength =>
      assert t1[4..|t1| - 6] == d1 && t2[4..|t2| - 6] == d2;
      DecimalOfWordInjective(i1.k, i2.k);
    case Memory =>
      assert t1[2..|t1| - 1] == d1 && t2[2..|t2| - 1] == d2;
      DecimalOfWordInjective(i1.k, i2.k);
    case Target =>
      DecimalOfWordInjective(Wrap32(n + 1 + i1.k), Wrap32(n + 1 + i2.k));
      WrapInjective(n + 1, i1.k, i2.k);
    case CodeHex =>
      assert t1[2..] == Hex(i1.code) && t2[2..] == Hex(i2.code);
      DigitsInjective(16, i1.code, i2.code);
  }

  lemma WrapInjective(base: int, k: U32, l: U32)
    requires Wrap32(base + k) == Wrap32(base + l)
    ensures k == l
  {
  }

  // ---------------------------------------------------------------------------------------------
  // Faithfulness
  // ---------------------------------------------------------------------------------------------

  /** The two instructions differ at most in parts that their operation does not use. */
  ghost predicate Alike(i1: Insn, i2: Insn) {
    && Decode(i1.code) == Decode(i2.code)
    && match Decode(i1.code)
       case RetA | LoadLen | LoadXLen | Arith(_, FromX) | Neg | Tax | Txa | Unknown => true
       case Branch(_, FromX) => i1.jt == i2.jt && i1.jf == i2.jf
       case Branch(_, FromK) => i1.k == i2.k && i1.jt == i2.jt && i1.jf == i2.jf
       case _ => i1.k == i2.k
  }

  lemma AlikeExecute(i1: Insn, i2: Insn, env: Env, vm: Vm)
    requires Alike(i1, i2) && env.Valid() && |vm.mem| == BPF_MEMWORDS
    ensures Execute(i1, env, vm) == Execute(i2, env, vm)
  {
    hide Decode, StepLoadAbs, StepLoadInd, Holds, Signed32, Wrap32;
    hide Product, Quotient, Remainder, BitAnd, BitOr, BitXor, ShiftLeft, ShiftRight;
  }

  lemma BranchShowsTargets(code: U16)
    ensures Decode(code) !in {Unknown, LoadXLen} ==> (ShowsTargets(code) <==> Decode(code).Branch?)
    ensures Decode(code) == LoadXLen ==> !ShowsTargets(code) && code == 0x81
  {
  }

  function Power(base: nat, e: nat): nat {
    if e == 0 then 1 else base * Power(base, e - 1)
  }

  lemma PositiveFactor(a: nat, x: int)
    requires a * x > 0
    ensures x > 0
  {
  }

  lemma LeadingPartBound(base: nat, n: nat, p: nat)
    requires 2 <= base && n < base * p
    ensures LeadingPart(base, n) < p
  {
    var q := LeadingPart(base, n);
    assert base * q <= n;
    assert base * (p - q) == base * p - base * q;
    PositiveFactor(base, p - q);
  }

  lemma {:induction false} DigitsLength(base: nat, n: nat, e: nat)
    requires 2 <= base <= 16 && e >= 1 && n < Power(base, e)
    ensures |Digits(base, n)| <= e
    decreases e
  {
    hide LeadingPart, LastPart, DigitChar;
    assert Power(base, 1) == base;
    if n >= base {
      LeadingPartBound(base, n, Power(base, e - 1));
      DigitsLength(base, LeadingPart(base, n), e - 1);
    }
  }

  lemma WordLengths(k: U32)
    ensures |Hex(k)| <= 8 && |DecimalOfWord(k)| <= 11
  {
    assert Power(16, 8) == 0x1_0000_0000;
    assert Power(10, 10) == 10_000_000_000;
    DigitsLength(16, k, 8);
    DigitsLength(10, if Signed32(k) < 0 then -Signed32(k) else Signed32(k), 10);
    hide Digits;
  }

  /** Operands that are padded have no space and fit the column. */
  lemma PaddedOperand(format: Format, insn: Insn, n: nat)
    requires format in {HashHex, RegisterX, CodeHex}
    ensures var t := OperandText(format, insn, n); |t| <= 16 && ' ' !in t
  {
    WordLengths(insn.k);
    WordLengths(insn.code);
    DigitsContain(16, insn.k, ' ');
    DigitsContain(16, insn.code, ' ');
    hide Digits;
  }

  lemma TailParts(i1: Insn, i2: Insn, n: nat)
    requires ShowsTargets(i1.code) && ShowsTargets(i2.code)
    requires Tail(Operand(i1, n), i1, n) == Tail(Operand(i2, n), i2, n)
    requires FormatOf(Decode(i1.code)) in {HashHex, RegisterX, CodeHex}
    requires FormatOf(Decode(i2.code)) in {HashHex, RegisterX, CodeHex}
    ensures Operand(i1, n) == Operand(i2, n) && i1.jt == i2.jt && i1.jf == i2.jf
  {
    hide Decode, OperandText, Targets, ShowsTargets;
    PaddedOperand(FormatOf(Decode(i1.code)), i1, n);
    PaddedOperand(FormatOf(Decode(i2.code)), i2, n);
    var t1, t2 := Tail(Operand(i1, n), i1, n), Tail(Operand(i2, n), i2, n);
    assert t1[..16] == PadRight(Operand(i1, n), 16) && t2[..16] == PadRight(Operand(i2, n), 16);
    assert t1[16..] == Targets(i1, n) && t2[16..] == Targets(i2, n);
    PaddingInjective(Operand(i1, n), Operand(i2, n), 16);
    TargetsInjective(i1, i2, n);
  }

  lemma KnownTextsAreAlike(i1: Insn, i2: Insn, n: nat)
    requires MnemonicOf(Decode(i1.code)) == MnemonicOf(Decode(i2.code)) != UNIMP
    requires Tail(Operand(i1, n), i1, n) == Tail(Operand(i2, n), i2, n)
    ensures Alike(i1, i2)
  {
    hide Decode, ShowsTargets, OperandText, Targets, PadRight;
    BranchShowsTargets(i1.code);
    BranchShowsTargets(i2.code);
    if Decode(i1.code).Branch? {
      TailParts(i1, i2, n);
    }
    assert Operand(i1, n) == Operand(i2, n);
    OperandNamesOperation(i1, i2, n);
    OperandNamesK(FormatOf(Decode(i1.code)), i1, i2, n);
  }

  lemma TargetsFollowSpace(insn: Insn, n: nat)
    requires ShowsTargets(insn.code)
    ensures ' ' in Tail(Operand(insn, n), insn, n)
  {
    hide Operand, PadRight, Decimal;
    var o := PadRight(Operand(insn, n), 16);
    assert Tail(Operand(insn, n), insn, n)[|o|] == ' ';
  }

  lemma UnimplementedTextsAreAlike(i1: Insn, i2: Insn, n: nat)
    requires Decode(i1.code) == LoadXLen && Decode(i2.code) in {LoadXLen, Unknown}
    requires Tail(Operand(i1, n), i1, n) == Tail(Operand(i2, n), i2, n)
    ensures Alike(i1, i2)
  {
    BranchShowsTargets(i1.code);
    hide Decode, OperandText, ShowsTargets;
    PaddedOperand(CodeHex, i1, n);
    if ShowsTargets(i2.code) {
      TargetsFollowSpace(i2, n);
    } else {
      OperandNamesK(CodeHex, i1, i2, n);
    }
  }

  lemma ImageDeterminesInsn(i1: Insn, i2: Insn, n: nat)
    requires Image(i1, n) == Image(i2, n)
    ensures Alike(i1, i2)
  {
    hide Decode, Image, Tail, Operand;
    ImageParts(i1, i2, n);
    if MnemonicOf(Decode(i1.code)) != UNIMP {
      KnownTextsAreAlike(i1, i2, n);
    } else if Decode(i1.code) == LoadXLen {
      UnimplementedTextsAreAlike(i1, i2, n);
    } else if Decode(i2.code) == LoadXLen {
      UnimplementedTextsAreAlike(i2, i1, n);
    }
  }

  /** Instructions with the same image at the same index take the same step from every state. */
  lemma SameImageSameStep(i1: Insn, i2: Insn, n: nat, env: Env, vm: Vm)
    requires Image(i1, n) == Image(i2, n) && env.Valid() && |vm.mem| == BPF_MEMWORDS
    ensures Execute(i1, env, vm) == Execute(i2, env, vm)
  {
    hide Image, Alike, Execute;
    ImageDeterminesInsn(i1, i2, n);
    AlikeExecute(i1, i2, env, vm);
  }

  /** The targets shown for a conditional jump are the two indexes the interpreter can go to. */
  lemma BranchImageShowsSuccessors(insn: Insn, n: nat, env: Env, vm: Vm)
    requires Decode(insn.code).Branch? && vm.pc == n && env.Valid() && |vm.mem| == BPF_MEMWORDS
    ensures exists head: string, jt: int, jf: int ::
              Image(insn, n) == head + " jt " + Decimal(jt) + "\tjf " + Decimal(jf) &&
              Execute(insn, env, vm) ==
                Next(vm.(pc := if Holds(Decode(insn.code).compare, vm.a,
                                        if Decode(insn.code).operand.FromX? then vm.x else insn.k) then jt else jf))
  {
    BranchShowsTargets(insn.code);
    hide Decode, Holds, ShowsTargets, Decimal, PadRight, Operand;
    var jt: int, jf: int := n + 1 + insn.jt, n + 1 + insn.jf;
    var head := "(" + Index(n) + ") " + PadRight(Name(MnemonicOf(Decode(insn.code))), 8) + " "
                + PadRight(Operand(insn, n), 16);
    assert Image(insn, n) == head + " jt " + Decimal(jt) + "\tjf " + Decimal(jf);
  }

  /** In a program of `len` instructions that the checker accepts, the target shown for an
      unconditional jump is the index the interpreter goes to. */
  lemma JumpImageShowsSuccessor(insn: Insn, n: nat, len: nat, env: Env, vm: Vm)
    requires Decode(insn.code).Jump? && vm.pc == n && env.Valid() && |vm.mem| == BPF_MEMWORDS
    requires n < len < 0x8000_0000 && InsnOk(insn, n, len)
    ensures var pc := n + 1 + Signed32(insn.k);
            Execute(insn, env, vm) == Next(vm.(pc := pc)) &&
            Image(insn, n) == "(" + Index(n) + ") ja       " + Decimal(pc)
  {
    hide Decode, ShowsTargets, Decimal, Index, InsnOk, Operand, Signed32, Execute;
    JumpOperand(insn, n, len);
    BranchShowsTargets(insn.code);
    JumpExecutes(insn, env, vm);
    assert PadRight("ja", 8) + " " == "ja       ";
    assert ("(" + Index(n) + ") ") + (PadRight("ja", 8) + " ") == "(" + Index(n) + ") ja       ";
  }

  lemma JumpExecutes(insn: Insn, env: Env, vm: Vm)
    requires Decode(insn.code).Jump? && env.Valid() && |vm.mem| == BPF_MEMWORDS
    ensures Execute(insn, env, vm) == Next(vm.(pc := vm.pc + 1 + Signed32(insn.k)))
  {
    hide Decode, Signed32;
  }

  lemma JumpOperand(insn: Insn, n: nat, len: nat)
    requires Decode(insn.code).Jump? && n < len < 0x8000_0000 && InsnOk(insn, n, len)
    ensures Operand(insn, n) == Decimal(n + 1 + Signed32(insn.k))
  {
    JumpClass(insn.code);
    hide Decode, Decimal, ClassOf, OpOf, ModeOf, SrcOf, Signed32, Wrap32;
    JumpTarget(n, insn.k, len);
  }

  lemma JumpTarget(n: nat, k: U32, len: nat)
    requires n < len < 0x8000_0000 && Wrap32(n + 1 + k) < len
    ensures Signed32(Wrap32(n + 1 + k)) == n + 1 + Signed32(k)
  {
    if k < 0x8000_0000 {
    } else {
      assert Wrap32(n + 1 + k) == n + 1 + k - 0x1_0000_0000;
    }
  }

  lemma JumpClass(code: U16)
    requires Decode(code).Jump?
    ensures ClassOf(code) == JMP && OpOf(code) == 0x00
  {
  }

  /** The two buffers of the source, 64 and 256 bytes, are large enough for every text. */
  lemma OperandLength(format: Format, insn: Insn, n: nat)
    ensures |OperandText(format, insn, n)| < 30
  {
    WordLengths(insn.k);
    WordLengths(insn.code);
    WordLengths(Wrap32(n + 1 + insn.k));
    SymbolLength(if insn.k >= SKF_AD_OFF then insn.k - SKF_AD_OFF else 0);
    hide OffsetSymbol, Digits, DecimalOfWord, Wrap32, Hex;
  }

  lemma IndexLength(n: nat)
    requires n < 0x8000_0000
    ensures |Index(n)| <= 11 && |Decimal(n)| <= 11
  {
    WordLengths(n);
  }

  lemma TailLength(operand: string, insn: Insn, n: nat)
    requires n < 0x8000_0000 - 0x100 && |operand| < 30
    ensures |Tail(operand, insn, n)| < 80
  {
    IndexLength(n + 1 + insn.jt);
    IndexLength(n + 1 + insn.jf);
    hide ShowsTargets, Decimal, Index;
  }

  lemma BuffersSuffice(insn: Insn, n: nat)
    requires n < 0x8000_0000 - 0x100
    ensures |Operand(insn, n)| < 64 && |Image(insn, n)| < 256
  {
    OperandLength(FormatOf(Decode(insn.code)), insn, n);
    IndexLength(n);
    TailLength(Operand(insn, n), insn, n);
    hide Decode, OperandText, Tail, FormatOf, MnemonicOf, Decimal, Index, Name;
  }

  lemma SymbolLength(i: nat)
    ensures |OffsetSymbol(i)| <= 9
  {
  }

  // ---------------------------------------------------------------------------------------------
  // The function of the source
  // ---------------------------------------------------------------------------------------------

  method PrintAbsLoadOperand(p: Insn) returns (buf: string)
    ensures buf == OperandText(Absolute, p, 0)
  {
    if p.k >= SKF_AD_OFF && p.k < SKF_AD_OFF + SKF_AD_MAX {
      var sym := OffsetSymbol(p.k - SKF_AD_OFF);
      if sym != "" {
        return "[" + sym + "]";
      }
    }
    buf := "[" + DecimalOfWord(p.k) + "]";
  }

  /** The switch of the source, by the instruction groups of the interpreter: `op`. */
  method PrintMnemonic(p: Insn) returns (op: string)
    ensures op == Name(MnemonicOf(Decode(p.code)))
  {
    hide Decode;
    match Decode(p.code) {
      case LoadXLen | Unknown => op := "unimp";
      case RetK | RetA => op := "ret";
      case LoadAbs(size) => op := match size case Word => "ld" case Half => "ldh" case Byte => "ldb";
      case LoadInd(size) => op := match size case Word => "ld" case Half => "ldh" case Byte => "ldb";
      case LoadLen | LoadImm | LoadMem => op := "ld";
      case LoadXImm | LoadXMem => op := "ldx";
      case LoadXMsh => op := "ldxb";
      case Store => op := "st";
      case StoreX => op := "stx";
      case Jump => op := "ja";
      case Branch(compare, _) =>
        op := match compare case JGT => "jgt" case JGE => "jge" case JEQ => "jeq" case JSET => "jset";
      case Arith(alu, _) =>
        op := match alu
              case ADD => "add" case SUB => "sub" case MUL => "mul" case DIV => "div" case MOD => "mod"
              case AND => "and" case OR => "or" case XOR => "xor" case LSH => "lsh" case RSH => "rsh";
      case Neg => op := "neg";
      case Tax => op := "tax";
      case Txa => op := "txa";
    }
  }

  /** The same switch: `operand`. */
  method PrintOperand(p: Insn, n: nat) returns (operand: string)
    ensures operand == Operand(p, n)
  {
    hide Decode, DecimalOfWord, AbsOperand, Hex, Wrap32, OffsetSymbol;
    match Decode(p.code) {
      case LoadXLen | Unknown => operand := "0x" + Hex(p.code);
      case RetK => operand := "#" + DecimalOfWord(p.k);
      case LoadAbs(_) => operand := PrintAbsLoadOperand(p);
      case LoadLen => operand := "#pktlen";
      case LoadInd(_) => operand := "[x + " + DecimalOfWord(p.k) + "]";
      case LoadImm | LoadXImm => operand := "#0x" + Hex(p.k);
      case LoadXMsh => operand := "4*([" + DecimalOfWord(p.k) + "]&0xf)";
      case LoadMem | LoadXMem | Store | StoreX => operand := "M[" + DecimalOfWord(p.k) + "]";
      case Jump => operand := DecimalOfWord(Wrap32(n + 1 + p.k));
      case Branch(_, source) => operand := if source.FromX? then "x" else "#0x" + Hex(p.k);
      case Arith(alu, source) =>
        operand := if source.FromX? then "x"
                   else if alu in {AND, OR, XOR} then "#0x" + Hex(p.k)
                   else "#" + DecimalOfWord(p.k);
      case RetA | Neg | Tax | Txa => operand := "";
    }
  }

  method BpfImage(p: Insn, n: nat) returns (image: string)
    requires n < 0x8000_0000 - 0x100
    ensures image == Image(p, n) && |image| < 256
  {
    hide Decode, Name, MnemonicOf, Operand, Decimal, Index, PadRight;
    BuffersSuffice(p, n);
    var op := PrintMnemonic(p);
    var operand := PrintOperand(p, n);
    if ClassOf(p.code) == JMP && OpOf(p.code) != 0x00 {
      image := "(" + Index(n) + ") " + PadRight(op, 8) + " " +
               (PadRight(operand, 16) + (" jt " + Decimal(n + 1 + p.jt) + "\tjf " + Decimal(n + 1 + p.jf)));
    } else {
      image := "(" + Index(n) + ") " + PadRight(op, 8) + " " + operand;
    }
  }
}
