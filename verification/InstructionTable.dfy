/** The instruction table written out, row by row, against the functions the project uses. */
module InstructionTable {
  import opened Bytes
  import opened InstructionSet

  datatype Row = Row(opcode: byte, arguments: nat, width: bool)

  function Entry(m: Mnemonic): Row {
    match m
    case NOP => Row(0x00, 0, false)
    case ADD => Row(0x01, 2, true)
    case ADC => Row(0x02, 2, true)
    case SUB => Row(0x03, 2, true)
    case SBB => Row(0x04, 2, true)
    case IMUL => Row(0x05, 1, true)
    case MUL => Row(0x06, 1, true)
    case IDIV => Row(0x07, 1, true)
    case DIV => Row(0x08, 1, true)
    case NEG => Row(0x09, 1, true)
    case CMP => Row(0x0A, 2, true)
    case INC => Row(0x0B, 1, true)
    case DEC => Row(0x0C, 1, true)
    case AND => Row(0x10, 2, true)
    case OR => Row(0x11, 2, true)
    case XOR => Row(0x12, 2, true)
    case NOT => Row(0x13, 1, true)
    case SHL => Row(0x14, 2, true)
    case SHR => Row(0x15, 2, true)
    case ROL => Row(0x16, 2, true)
    case ROR => Row(0x17, 2, true)
    case RCL => Row(0x18, 2, true)
    case RCR => Row(0x19, 2, true)
    case MOV => Row(0x20, 2, true)
    case XCHG => Row(0x21, 2, true)
    case PUSH => Row(0x22, 1, true)
    case POP => Row(0x23, 1, true)
    case PUSHALL => Row(0x24, 0, false)
    case POPALL => Row(0x25, 0, false)
    case ENTER => Row(0x26, 1, true)
    case LEAVE => Row(0x27, 0, false)
    case MOVS => Row(0x28, 0, false)
    case LEA => Row(0x29, 2, false)
    case JMP => Row(0x30, 2, false)
    case CALL => Row(0x31, 2, false)
    case RET => Row(0x32, 0, false)
    case JE => Row(0x33, 2, false)
    case JNE => Row(0x34, 2, false)
    case JB => Row(0x35, 2, false)
    case JL => Row(0x36, 2, false)
    case JBE => Row(0x37, 2, false)
    case JLE => Row(0x38, 2, false)
    case INT => Row(0x39, 1, false)
    case INT3 => Row(0x3A, 0, false)
    case IRET => Row(0x3B, 0, false)
    case JC => Row(0x3C, 2, false)
    case JNC => Row(0x3D, 2, false)
    case JO => Row(0x3E, 2, false)
    case JNO => Row(0x3F, 2, false)
    case HLT => Row(0x40, 0, false)
    case IGNI => Row(0x41, 0, false)
    case ALWI => Row(0x42, 0, false)
    case IN => Row(0x50, 2, true)
    case OUT => Row(0x51, 2, true)
    case INS => Row(0x52, 1, true)
    case OUTS => Row(0x53, 1, true)
    case LOOP => Row(0x60, 2, false)
  }

  /** Opcode, number of operands and need of a width of every mnemonic are those of its row. */
  lemma TableEntry(m: Mnemonic)
    ensures Entry(m) == Row(Opcode(m), ArgumentCount(m), RequiresWidth(m))
  {
  }
}
