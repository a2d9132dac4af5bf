/** The CPU's own decoder: it fetches through CB:IP and evaluates addresses as it goes. */
module CpuDecoder {
  import opened Bytes
  import opened InstructionSet
  import opened Operands
  import opened Registers
  import opened Memory

  /** Memory as one flat string; addresses just past its end do not wrap. */
  type FlatMemory = m: seq<byte> | |m| + 256 < TWO64 witness []

  datatype Fault = IllegalInstruction | StackOverflow | MemoryFault

  datatype Fetch<T> =
    | Got(value: T, file: RegisterFile)
    | Raised(fault: Fault, after: RegisterFile)

  datatype CpuOperand =
    | RegisterOperand(width: byte, index: byte)
    | ConstantOperand(value: u64, width: byte)
    | MemoryOperand(address: u64, width: byte)

  datatype CpuInstruction = CpuInstruction(mnemonic: Mnemonic, width: Option<Width>, operands: seq<CpuOperand>)

  function ReadFlat(m: FlatMemory, address: u64, n: nat): (r: Option<seq<byte>>)
    requires n <= 256
    ensures r.Some? ==> |r.value| == n
  {
    if Refuses(|m|, address, n) then None else Some(m[address..address + n])
  }

  /** The address the next code byte comes from. */
  function CodeAddress(f: RegisterFile): u64 {
    Wrap64(Load(f, CodeBase) + Load(f, InstructionPointer))
  }

  function Advance(f: RegisterFile, n: nat): RegisterFile {
    Store(f, InstructionPointer, Wrap64(Load(f, InstructionPointer) + n))
  }

  function PopCode(f: RegisterFile, m: FlatMemory, w: Width): (r: Fetch<nat>)
    ensures r.Got? ==> r.value < Pow256(w.Size())
  {
    match ReadFlat(m, CodeAddress(f), w.Size())
    case None => Raised(StackOverflow, f)
    case Some(bytes) =>
      FromLeBound(bytes);
      Got(FromLe(bytes), Advance(f, w.Size()))
  }

  function PopByte(f: RegisterFile, m: FlatMemory): (r: Fetch<byte>)
  {
    match PopCode(f, m, W8)
    case Raised(e, g) => Raised(e, g)
    case Got(v, g) => Pow256Values(); Got(v, g)
  }

  /** The register a width code and index select, when there is one. */
  function SelectRegister(width: byte, index: byte): (r: Option<Registers.Register>)
    ensures r.Some? ==> r.value.Exists() && WidthOf(width).Some?
  {
    match WidthOf(width)
    case None => None
    case Some(W8) => if index < 8 then Some(R(index)) else None
    case Some(W16) => if index < 8 then Some(EXR(index)) else None
    case Some(W32) => if index < 8 then Some(HER(index)) else None
    case Some(W64) =>
      if index < 16 then Some(FER(index))
      else
        match index
        case 0xA0 => Some(StackBase)
        case 0xA1 => Some(StackPointer)
        case 0xA2 => Some(CodeBase)
        case 0xA3 => Some(DataBase)
        case 0xA4 => Some(DataPointer)
        case 0xA5 => Some(ExtendedBase)
        case 0xA6 => Some(ExtendedPointer)
        case _ => None
  }

  /** The code bytes that select a register; some registers have none. */
  function SelectorOf(r: Registers.Register): Option<(byte, nat)> {
    match r
    case R(i) => Some((W8.Prefix(), i))
    case EXR(i) => Some((W16.Prefix(), i))
    case HER(i) => Some((W32.Prefix(), i))
    case FER(i) => Some((W64.Prefix(), i))
    case StackBase => Some((W64.Prefix(), 0xA0))
    case StackPointer => Some((W64.Prefix(), 0xA1))
    case CodeBase => Some((W64.Prefix(), 0xA2))
    case DataBase => Some((W64.Prefix(), 0xA3))
    case DataPointer => Some((W64.Prefix(), 0xA4))
    case ExtendedBase => Some((W64.Prefix(), 0xA5))
    case ExtendedPointer => Some((W64.Prefix(), 0xA6))
    case _ => None
  }

  /** Exactly the code bytes of a register select it; flags, IP and the control registers
      cannot be selected. */
  lemma SelectionIsExact(width: byte, index: byte, r: Registers.Register)
    requires r.Exists()
    ensures SelectRegister(width, index) == Some(r) <==> SelectorOf(r) == Some((width, index as nat))
  {
  }

  /** The all-ones word above the low bytes of a width. */
  function Compliment(w: Width): u64 {
    match w
    case W8 => 0xFFFF_FFFF_FFFF_FF00
    case W16 => 0xFFFF_FFFF_FFFF_0000
    case W32 => 0xFFFF_FFFF_0000_0000
    case W64 => 0
  }

  function LowBytes(v: nat, w: Width): nat {
    match w
    case W8 => v % 0x100
    case W16 => v % 0x1_0000
    case W32 => v % TWO32
    case W64 => v % TWO64
  }

  /** The sign bit of a width. */
  function SignBit(w: Width): nat {
    match w
    case W8 => 0x80
    case W16 => 0x8000
    case W32 => 0x8000_0000
    case W64 => 0x8000_0000_0000_0000
  }

  predicate CheckMsb(v: nat, w: Width) {
    LowBytes(v, w) >= SignBit(w)
  }

  /** Filling the upper bits with ones (they are zero, so the disjunction is a sum) and
      reading the word as signed. */
  function ConvertTo64BitSigned(v: nat, w: Width): int {
    LowBytes(v, w) + Compliment(w) - TWO64
  }

  function SecondOffset(v: u64, w: Width): int {
    if CheckMsb(v, w) then ConvertTo64BitSigned(v, w) else v
  }

  /** The two's-complement reading of a `w`-wide number. */
  function TwosComplement(v: nat, w: Width): int {
    if 2 * v < Pow256(w.Size()) then v else v - Pow256(w.Size())
  }

  lemma SecondOffsetIsTwosComplement(v: u64, w: Width)
    requires v < Pow256(w.Size())
    ensures SecondOffset(v, w) == TwosComplement(v, w)
    ensures SecondOffset(v, w) == if 2 * v < Pow256(w.Size()) then v else v - Pow256(w.Size())
  {
    hide LowBytes, Pow256;
    LowBytesOfSmall(v, w);
    Pow256Values();
    match w {
      case W8 =>
      case W16 =>
      case W32 =>
      case W64 =>
    }
  }

  lemma LowBytesOfSmall(v: nat, w: Width)
    requires v < Pow256(w.Size())
    ensures LowBytes(v, w) == v
  {
    hide Pow256;
    Pow256Values();
    match w {
      case W8 => DivModUnique(v, 0x100, 0, v);
      case W16 => DivModUnique(v, 0x1_0000, 0, v);
      case W32 => DivModUnique(v, TWO32, 0, v);
      case W64 => DivModUnique(v, TWO64, 0, v);
    }
  }

  function MakeAddress(base: u64, offset1: u64, offset2: int, ratio: Ratio): u64 {
    Wrap64(Wrap64(base + offset1 + offset2) * ratio.Factor())
  }

  // ---- fetching operands ----

  datatype RegisterCode = RegisterCode(width: byte, index: byte)
  datatype ConstantCode = ConstantCode(value: u64, width: Width)
  datatype ParameterValue = ParameterValue(value: u64, width: Width)

  function FetchRegister(f: RegisterFile, m: FlatMemory): Fetch<RegisterCode> {
    match PopByte(f, m)
    case Raised(e, g) => Raised(e, g)
    case Got(width, g) =>
      match PopByte(g, m)
      case Raised(e, h) => Raised(e, h)
      case Got(index, h) => Got(RegisterCode(width, index), h)
  }

  function FetchConstant(f: RegisterFile, m: FlatMemory): (r: Fetch<ConstantCode>)
    ensures r.Got? ==> r.value.value < Pow256(r.value.width.Size())
  {
    match PopByte(f, m)
    case Raised(e, g) => Raised(e, g)
    case Got(prefix, g) =>
      match WidthOf(prefix)
      case None => Raised(IllegalInstruction, g)
      case Some(w) =>
        match PopCode(g, m, w)
        case Raised(e, h) => Raised(e, h)
        case Got(v, h) => Pow256Values(); Got(ConstantCode(v, w), h)
  }

  /** A parameter of a memory operand, evaluated on the spot. */
  function FetchParameter(f: RegisterFile, m: FlatMemory): Fetch<ParameterValue> {
    match PopByte(f, m)
    case Raised(e, g) => Raised(e, g)
    case Got(prefix, g) =>
      if prefix == REGISTER_PREFIX then
        match FetchRegister(g, m)
        case Raised(e, h) => Raised(e, h)
        case Got(code, h) =>
          (match SelectRegister(code.width, code.index)
           case None => Raised(IllegalInstruction, h)
           case Some(r) => Got(ParameterValue(Load(h, r), WidthOf(code.width).value), h))
      else if prefix == CONSTANT_PREFIX then
        match FetchConstant(g, m)
        case Raised(e, h) => Raised(e, h)
        case Got(c, h) => Got(ParameterValue(c.value, c.width), h)
      else
        Raised(IllegalInstruction, g)
  }

  function FetchMemory(f: RegisterFile, m: FlatMemory): Fetch<CpuOperand> {
    match PopByte(f, m)
    case Raised(e, g) => Raised(e, g)
    case Got(width, g) =>
      match FetchParameter(g, m)
      case Raised(e, h) => Raised(e, h)
      case Got(base, h) =>
        match FetchParameter(h, m)
        case Raised(e, i) => Raised(e, i)
        case Got(offset1, i) =>
          match FetchParameter(i, m)
          case Raised(e, j) => Raised(e, j)
          case Got(offset2, j) =>
            match PopByte(j, m)
            case Raised(e, k) => Raised(e, k)
            case Got(code, k) => FinishMemory(width, base.value, offset1.value,
              SecondOffset(offset2.value, offset2.width), code, k)
  }

  /** The ratio is checked first, the width code last. */
  function FinishMemory(width: byte, base: u64, offset1: u64, offset2: int, code: byte,
                        f: RegisterFile): Fetch<CpuOperand> {
    match RatioOf(code)
    case None => Raised(IllegalInstruction, f)
    case Some(ratio) =>
      if WidthOf(width).None? then Raised(IllegalInstruction, f)
      else Got(MemoryOperand(MakeAddress(base, offset1, offset2, ratio), width), f)
  }

  function FetchOperand(f: RegisterFile, m: FlatMemory): Fetch<CpuOperand> {
    match PopByte(f, m)
    case Raised(e, g) => Raised(e, g)
    case Got(prefix, g) =>
      if prefix == REGISTER_PREFIX then
        match FetchRegister(g, m)
        case Raised(e, h) => Raised(e, h)
        case Got(code, h) => Got(RegisterOperand(code.width, code.index), h)
      else if prefix == CONSTANT_PREFIX then
        match FetchConstant(g, m)
        case Raised(e, h) => Raised(e, h)
        case Got(c, h) => Got(ConstantOperand(c.value, c.width.Prefix()), h)
      else if prefix == MEMORY_PREFIX then
        FetchMemory(g, m)
      else
        Raised(IllegalInstruction, g)
  }

  function FetchOperands(f: RegisterFile, m: FlatMemory, count: nat): Fetch<seq<CpuOperand>>
    decreases count
  {
    if count == 0 then Got([], f)
    else
      match FetchOperand(f, m)
      case Raised(e, g) => Raised(e, g)
      case Got(o, g) =>
        match FetchOperands(g, m, count - 1)
        case Raised(e, h) => Raised(e, h)
        case Got(os, h) => Got([o] + os, h)
  }

  ghost function FetchInstruction(f: RegisterFile, m: FlatMemory): Fetch<CpuInstruction> {
    match PopByte(f, m)
    case Raised(e, g) => Raised(e, g)
    case Got(opcode, g) =>
      match MnemonicOf(opcode)
      case None => Raised(IllegalInstruction, g)
      case Some(n) =>
        if !RequiresWidth(n) then FetchBody(n, None, g, m)
        else
          match PopByte(g, m)
          case Raised(e, h) => Raised(e, h)
          case Got(code, h) =>
            match WidthOf(code)
            case None => Raised(IllegalInstruction, h)
            case Some(w) => FetchBody(n, Some(w), h, m)
  }

  function FetchBody(n: Mnemonic, w: Option<Width>, f: RegisterFile, m: FlatMemory): Fetch<CpuInstruction> {
    match FetchOperands(f, m, ArgumentCount(n))
    case Raised(e, g) => Raised(e, g)
    case Got(os, g) => Got(CpuInstruction(n, w, os), g)
  }
}
