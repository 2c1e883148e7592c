/** The texts of the disassembler, code by code, and the numbers in them. */
module BpfText {
  import opened Words
  import opened Bpf
  import opened BpfImage
  import opened Scanner

  // ---------------------------------------------------------------------------------------------
  // The text of each code
  // ---------------------------------------------------------------------------------------------

  function OpText(code: U16): string {
    match code
    case 0x06 | 0x16 => "ret"
    case 0x00 | 0x20 | 0x40 | 0x60 | 0x80 => "ld"
    case 0x28 | 0x48 => "ldh"
    case 0x30 | 0x50 => "ldb"
    case 0x01 | 0x61 => "ldx"
    case 0xb1 => "ldxb"
    case 0x02 => "st"
    case 0x03 => "stx"
    case 0x05 => "ja"
    case 0x15 | 0x1d => "jeq"
    case 0x25 | 0x2d => "jgt"
    case 0x35 | 0x3d => "jge"
    case 0x45 | 0x4d => "jset"
    case 0x04 | 0x0c => "add"
    case 0x14 | 0x1c => "sub"
    case 0x24 | 0x2c => "mul"
    case 0x34 | 0x3c => "div"
    case 0x44 | 0x4c => "or"
    case 0x54 | 0x5c => "and"
    case 0x64 | 0x6c => "lsh"
    case 0x74 | 0x7c => "rsh"
    case 0x94 | 0x9c => "mod"
    case 0xa4 | 0xac => "xor"
    case 0x84 => "neg"
    case 0x07 => "tax"
    case 0x87 => "txa"
    case _ => "unimp"
  }

  /** The name of a special offset, if it has one. */
  function Special(k: U32): string {
    match k
    case 0xFFFF_F000 => "proto"
    case 0xFFFF_F004 => "type"
    case 0xFFFF_F008 => "ifidx"
    case 0xFFFF_F00C => "nla"
    case 0xFFFF_F010 => "nlan"
    case 0xFFFF_F014 => "mark"
    case 0xFFFF_F018 => "queue"
    case 0xFFFF_F01C => "hatype"
    case 0xFFFF_F020 => "rxhash"
    case 0xFFFF_F024 => "cpu"
    case 0xFFFF_F028 => "xor_x"
    case 0xFFFF_F02C => "vlan_tci"
    case 0xFFFF_F030 => "vlanp"
    case 0xFFFF_F034 => "poff"
    case 0xFFFF_F038 => "random"
    case 0xFFFF_F03C => "vlan_tpid"
    case _ => ""
  }

  function AbsText(k: U32): string {
    "[" + (if Special(k) != "" then Special(k) else DecimalOfWord(k)) + "]"
  }

  function OperandOf(insn: Insn, n: nat): string {
    match insn.code
    case 0x20 | 0x28 | 0x30 => AbsText(insn.k)
    case 0x40 | 0x48 | 0x50 => "[x + " + DecimalOfWord(insn.k) + "]"
    case 0x00 | 0x01 => "#0x" + Hex(insn.k)
    case 0x60 | 0x61 | 0x02 | 0x03 => "M[" + DecimalOfWord(insn.k) + "]"
    case 0x80 => "#pktlen"
    case 0xb1 => "4*([" + DecimalOfWord(insn.k) + "]&0xf)"
    case 0x05 => DecimalOfWord((n + 1 + insn.k) % 0x1_0000_0000)
    case 0x15 | 0x25 | 0x35 | 0x45 | 0x44 | 0x54 | 0xa4 => "#0x" + Hex(insn.k)
    case 0x06 | 0x04 | 0x14 | 0x24 | 0x34 | 0x64 | 0x74 | 0x94 => "#" + DecimalOfWord(insn.k)
    case 0x1d | 0x2d | 0x3d | 0x4d => "x"
    case 0x0c | 0x1c | 0x2c | 0x3c | 0x4c | 0x5c | 0x6c | 0x7c | 0x9c | 0xac => "x"
    case 0x16 | 0x84 | 0x07 | 0x87 => ""
    case _ => "0x" + Hex(insn.code)
  }

  lemma AluTexts(insn: Insn, n: nat)
    requires Decode(insn.code).Arith?
    ensures Name(MnemonicOf(Decode(insn.code))) == OpText(insn.code)
    ensures Operand(insn, n) == OperandOf(insn, n)
  {
    hide DecimalOfWord, Hex, AbsOperand, AbsText;
  }

  lemma OtherOpText(insn: Insn)
    requires !Decode(insn.code).Arith?
    ensures Name(MnemonicOf(Decode(insn.code))) == OpText(insn.code)
  {
  }

  lemma BranchOperand(insn: Insn, n: nat)
    requires Decode(insn.code).Branch?
    ensures Operand(insn, n) == OperandOf(insn, n)
  {
    hide DecimalOfWord, Hex, AbsOperand, AbsText;
  }

  lemma OtherOperand(insn: Insn, n: nat)
    requires !Decode(insn.code).Arith? && !Decode(insn.code).Branch?
    ensures Operand(insn, n) == OperandOf(insn, n)
  {
    AbsTextIs(insn.k);
    hide DecimalOfWord, Hex, AbsOperand, AbsText;
  }

  lemma AbsTextIs(k: U32)
    ensures AbsOperand(k) == AbsText(k)
  {
    SpecialIs(k);
    hide DecimalOfWord, Special, OffsetSymbol;
  }

  lemma SpecialIs(k: U32)
    ensures Special(k) == if SKF_AD_OFF <= k < SKF_AD_OFF + SKF_AD_MAX then OffsetSymbol(k - SKF_AD_OFF) else ""
  {
  }

  lemma TextsAre(insn: Insn, n: nat)
    ensures Name(MnemonicOf(Decode(insn.code))) == OpText(insn.code)
    ensures Operand(insn, n) == OperandOf(insn, n)
  {
    hide *;
    if Decode(insn.code).Arith? {
      AluTexts(insn, n);
    } else {
      OtherOpText(insn);
      if Decode(insn.code).Branch? {
        BranchOperand(insn, n);
      } else {
        OtherOperand(insn, n);
      }
    }
  }

  lemma Columns(s: string)
    ensures |s| <= 8 ==> PadRight(s, 8) == s + "        "[|s|..]
    ensures |s| <= 16 ==> PadRight(s, 16) == s + "                "[|s|..]
  {
  }

  /** The whole text of every instruction. */
  lemma ImageIs(insn: Insn, n: nat)
    ensures var op, operand := OpText(insn.code), OperandOf(insn, n);
            |op| <= 8 && Image(insn, n) ==
            "(" + Index(n) + ") " + (op + "        "[|op|..]) + " " +
            if insn.code % 8 == 5 && insn.code / 16 % 16 != 0 then
              PadRight(operand, 16) + (" jt " + Decimal(n + 1 + insn.jt) + "\tjf " + Decimal(n + 1 + insn.jf))
            else operand
  {
    hide Decode, Operand, OperandOf, OpText, Name, MnemonicOf, Index, Decimal, PadRight;
    TextsAre(insn, n);
    Columns(OpText(insn.code));
  }

  // ---------------------------------------------------------------------------------------------
  // The numbers in them
  // ---------------------------------------------------------------------------------------------

  predicate AllDecimal(s: string) {
    forall i | 0 <= i < |s| :: '0' <= s[i] <= '9'
  }

  lemma {:induction false} LeadingZero(s: string)
    requires AllDecimal(s)
    ensures Value(10, "0" + s) == Value(10, s)
    decreases |s|
  {
    if s == [] {
      assert "0"[..0] == [];
    } else {
      var n := |s| - 1;
      LeadingZero(s[..n]);
      assert ("0" + s)[..n + 1] == "0" + s[..n];
    }
  }

  lemma DigitsAreDecimal(n: nat)
    ensures var s := Digits(10, n); AllDecimal(s) && Value(10, s) == n
  {
    ReadsDigits(10, n);
    forall i | 0 <= i < |Digits(10, n)|
      ensures '0' <= Digits(10, n)[i] <= '9'
    {
      DigitsAreDigits(10, n, i);
    }
    hide Digits, Value;
  }

  /** The index between the parentheses has at least three digits, and their decimal value is the index. */
  lemma IndexShowsItsNumber(n: nat)
    ensures var s := Index(n); |s| >= 3 && AllDecimal(s) && Value(10, s) == n && (|s| > 3 ==> s == Digits(10, n))
  {
    hide Digits, Value;
    DigitsAreDecimal(n);
    LeadingZero(Digits(10, n));
    LeadingZero("0" + Digits(10, n));
    assert "0" + ("0" + Digits(10, n)) == "00" + Digits(10, n);
  }

  /** A decimal operand is the number, with a minus sign if it is negative as a signed word. */
  lemma DecimalShowsItsNumber(k: U32)
    ensures var s := DecimalOfWord(k);
            if k < 0x8000_0000 then AllDecimal(s) && Value(10, s) == k
            else s[..1] == "-" && AllDecimal(s[1..]) && Value(10, s[1..]) == 0x1_0000_0000 - k
  {
    hide Digits, Value;
    DigitsAreDecimal(if k < 0x8000_0000 then k else 0x1_0000_0000 - k);
  }
}
