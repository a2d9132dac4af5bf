/** The instruction table: opcode, argument count and width flag of every mnemonic. */
module InstructionSet {
  import opened Bytes

  datatype Mnemonic =
    | NOP | ADD | ADC | SUB | SBB | IMUL | MUL | IDIV | DIV | NEG | CMP | INC | DEC | AND | OR
    | XOR | NOT | SHL | SHR | ROL | ROR | RCL | RCR | MOV | XCHG | PUSH | POP | PUSHALL | POPALL
    | ENTER | LEAVE | MOVS | LEA | JMP | CALL | RET | JE | JNE | JB | JL | JBE | JLE | INT | INT3
    | IRET | JC | JNC | JO | JNO | HLT | IGNI | ALWI | IN | OUT | INS | OUTS | LOOP

  function Opcode(m: Mnemonic): byte {
    match m
    case NOP => 0x00
    case ADD => 0x01
    case ADC => 0x02
    case SUB => 0x03
    case SBB => 0x04
    case IMUL => 0x05
    case MUL => 0x06
    case IDIV => 0x07
    case DIV => 0x08
    case NEG => 0x09
    case CMP => 0x0A
    case INC => 0x0B
    case DEC => 0x0C
    case AND => 0x10
    case OR => 0x11
    case XOR => 0x12
    case NOT => 0x13
    case SHL => 0x14
    case SHR => 0x15
    case ROL => 0x16
    case ROR => 0x17
    case RCL => 0x18
    case RCR => 0x19
    case MOV => 0x20
    case XCHG => 0x21
    case PUSH => 0x22
    case POP => 0x23
    case PUSHALL => 0x24
    case POPALL => 0x25
    case ENTER => 0x26
    case LEAVE => 0x27
    case MOVS => 0x28
    case LEA => 0x29
    case JMP => 0x30
    case CALL => 0x31
    case RET => 0x32
    case JE => 0x33
    case JNE => 0x34
    case JB => 0x35
    case JL => 0x36
    case JBE => 0x37
    case JLE => 0x38
    case INT => 0x39
    case INT3 => 0x3A
    case IRET => 0x3B
    case JC => 0x3C
    case JNC => 0x3D
    case JO => 0x3E
    case JNO => 0x3F
    case HLT => 0x40
    case IGNI => 0x41
    case ALWI => 0x42
    case IN => 0x50
    case OUT => 0x51
    case INS => 0x52
    case OUTS => 0x53
    case LOOP => 0x60
  }

  function ArgumentCount(m: Mnemonic): (n: nat)
    ensures n <= 2
  {
    match m
    case NOP | PUSHALL | POPALL | LEAVE | MOVS | RET | INT3 | IRET | HLT | IGNI | ALWI => 0
    case IMUL | MUL | IDIV | DIV | NEG | INC | DEC | NOT | PUSH | POP | ENTER | INT | INS | OUTS => 1
    case _ => 2
  }

  predicate RequiresWidth(m: Mnemonic) {
    match m
    case NOP | PUSHALL | POPALL | LEAVE | MOVS | LEA | JMP | CALL | RET | JE | JNE | JB | JL | JBE
       | JLE | INT | INT3 | IRET | JC | JNC | JO | JNO | HLT | IGNI | ALWI | LOOP => false
    case _ => true
  }

  // The table read backwards, in the groups the opcodes come in.

  ghost function InverseArithmetic(b: byte): Mnemonic {
    match b
    case 0x00 => NOP
    case 0x01 => ADD
    case 0x02 => ADC
    case 0x03 => SUB
    case 0x04 => SBB
    case 0x05 => IMUL
    case 0x06 => MUL
    case 0x07 => IDIV
    case 0x08 => DIV
    case 0x09 => NEG
    case 0x0A => CMP
    case 0x0B => INC
    case _ => DEC
  }

  ghost function InverseBitwise(b: byte): Mnemonic {
    match b
    case 0x10 => AND
    case 0x11 => OR
    case 0x12 => XOR
    case 0x13 => NOT
    case 0x14 => SHL
    case 0x15 => SHR
    case 0x16 => ROL
    case 0x17 => ROR
    case 0x18 => RCL
    case _ => RCR
  }

  ghost function InverseDataTransfer(b: byte): Mnemonic {
    match b
    case 0x20 => MOV
    case 0x21 => XCHG
    case 0x22 => PUSH
    case 0x23 => POP
    case 0x24 => PUSHALL
    case 0x25 => POPALL
    case 0x26 => ENTER
    case 0x27 => LEAVE
    case 0x28 => MOVS
    case _ => LEA
  }

  ghost function InverseControlFlow(b: byte): Mnemonic {
    match b
    case 0x30 => JMP
    case 0x31 => CALL
    case 0x32 => RET
    case 0x33 => JE
    case 0x34 => JNE
    case 0x35 => JB
    case 0x36 => JL
    case 0x37 => JBE
    case 0x38 => JLE
    case 0x39 => INT
    case 0x3A => INT3
    case 0x3B => IRET
    case 0x3C => JC
    case 0x3D => JNC
    case 0x3E => JO
    case _ => JNO
  }

  ghost function InverseMisc(b: byte): Mnemonic {
    match b
    case 0x40 => HLT
    case 0x41 => IGNI
    case 0x42 => ALWI
    case 0x50 => IN
    case 0x51 => OUT
    case 0x52 => INS
    case 0x53 => OUTS
    case _ => LOOP
  }

  ghost function Inverse(b: byte): Mnemonic {
    if b < 0x10 then InverseArithmetic(b)
    else if b < 0x20 then InverseBitwise(b)
    else if b < 0x30 then InverseDataTransfer(b)
    else if b < 0x40 then InverseControlFlow(b)
    else InverseMisc(b)
  }

  lemma InverseOfLowOpcode(m: Mnemonic)
    requires Opcode(m) < 0x20
    ensures Inverse(Opcode(m)) == m
  {
  }

  lemma InverseOfMiddleOpcode(m: Mnemonic)
    requires 0x20 <= Opcode(m) < 0x36
    ensures Inverse(Opcode(m)) == m
  {
  }

  lemma InverseOfHighOpcode(m: Mnemonic)
    requires Opcode(m) >= 0x36
    ensures Inverse(Opcode(m)) == m
  {
  }

  lemma InverseOfOpcode(m: Mnemonic)
    ensures Inverse(Opcode(m)) == m
  {
    if Opcode(m) < 0x20 {
      InverseOfLowOpcode(m);
    } else if Opcode(m) < 0x36 {
      InverseOfMiddleOpcode(m);
    } else {
      InverseOfHighOpcode(m);
    }
  }

  /** No two entries share an opcode, so looking one up by opcode is unambiguous. */
  lemma OpcodesAreUnique(m: Mnemonic, n: Mnemonic)
    requires Opcode(m) == Opcode(n)
    ensures m == n
  {
    InverseOfOpcode(m);
    InverseOfOpcode(n);
  }

  /** The entry an opcode belongs to. */
  ghost function MnemonicOf(b: byte): (r: Option<Mnemonic>)
    ensures r.Some? ==> Opcode(r.value) == b
    ensures r.None? ==> forall m :: Opcode(m) != b
  {
    if exists m :: Opcode(m) == b then
      var m :| Opcode(m) == b;
      Some(m)
    else
      None
  }

  /** The decoders scan the whole table, in whatever order the hash map yields it. */
  method FindEntry(table: seq<Mnemonic>, b: byte) returns (r: Option<Mnemonic>)
    requires forall m: Mnemonic :: m in table
    ensures r == MnemonicOf(b)
  {
    for i := 0 to |table|
      invariant forall j :: 0 <= j < i ==> Opcode(table[j]) != b
    {
      if Opcode(table[i]) == b {
        OpcodesAreUnique(table[i], MnemonicOf(b).value);
        return Some(table[i]);
      }
    }
    assert forall m: Mnemonic :: m in table ==> Opcode(m) != b;
    return None;
  }
}
