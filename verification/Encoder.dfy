/** The encoder: parsed operands and instructions to bytes. */
module Encoder {
  import opened Bytes
  import opened InstructionSet
  import opened Operands

  /** A byte buffer the encoder appends to and the disassembler erases from the front of. */
  class CodeBuffer {
    var code: seq<byte>

    constructor (initial: seq<byte>)
      ensures code == initial
    {
      code := initial;
    }

    method Push8(b: byte)
      modifies this
      ensures code == old(code) + [b]
    {
      code := code + [b];
    }

    method PushLe(value: nat, n: nat)
      modifies this
      ensures code == old(code) + Le(value, n)
    {
      var v := value;
      for i := 0 to n
        invariant code + Le(v, n - i) == old(code) + Le(value, n)
      {
        assert Le(v, n - i) == [v % 256] + Le(v / 256, n - i - 1);
        code := code + [v % 256];
        v := v / 256;
      }
    }

    /** Takes `n` bytes off the front one by one; running dry loses the bytes already taken. */
    method PopLe(n: nat) returns (r: Option<nat>)
      modifies this
      ensures n <= |old(code)| ==> r == Some(FromLe(old(code)[..n])) && code == old(code)[n..]
      ensures n > |old(code)| ==> r == None && code == []
    {
      var bytes: seq<byte> := [];
      for i := 0 to n
        invariant i <= |old(code)| && bytes == old(code)[..i] && code == old(code)[i..]
      {
        if code == [] {
          return None;
        }
        bytes := bytes + [code[0]];
        code := code[1..];
      }
      return Some(FromLe(bytes));
    }

    method Pop8() returns (r: Option<byte>)
      modifies this
      ensures old(code) != [] ==> r == Some(old(code)[0]) && code == old(code)[1..]
      ensures old(code) == [] ==> r == None && code == []
    {
      var v := PopLe(1);
      if v.None? {
        return None;
      }
      assert old(code)[..1] == [old(code)[0]] && FromLe([old(code)[0]]) == old(code)[0];
      return Some(v.value);
    }
  }

  // ---- what is encoded, as functions ----

  predicate EncodableRegister(name: RegisterName) {
    name.MatchesPattern() && !name.XMM?
  }

  lemma PatternDigits(name: RegisterName)
    requires name.MatchesPattern() && name.Numbered?
    ensures AllDigits(name.digits)
  {
  }

  function EncRegister(name: RegisterName): (s: seq<byte>)
    requires EncodableRegister(name)
    ensures |s| == 3 && s[0] == REGISTER_PREFIX
  {
    if name.IsSpecial() then
      [REGISTER_PREFIX, W64.Prefix(), name.SpecialCode()]
    else
      PatternDigits(name);
      [REGISTER_PREFIX, name.kind.Width().Prefix(), IndexOf(name.digits) % 256]
  }

  /** A number that does not fit 32 bits counts as zero; otherwise its low byte is the index. */
  lemma EncodedIndex(kind: Kind, digits: string)
    requires EncodableRegister(Numbered(kind, digits))
    ensures AllDigits(digits)
    ensures
      EncRegister(Numbered(kind, digits))[2] ==
      if DigitsValue(digits) < 0x1_0000_0000 then DigitsValue(digits) % 256 else 0
  {
    hide DigitsValue;
    PatternDigits(Numbered(kind, digits));
  }

  function EncConstant(width: Width, value: u64): (s: seq<byte>)
    ensures |s| == 2 + width.Size() && s[0] == CONSTANT_PREFIX
  {
    [CONSTANT_PREFIX, width.Prefix()] + Le(value, width.Size())
  }

  predicate EncodableParameter(p: Parameter) {
    match p
    case RegisterParameter(name) => name.MatchesPattern() && name.IsWide()
    case ConstantParameter(_, _) => true
    case Unrecognized => false
  }

  function EncParameter(p: Parameter): seq<byte>
    requires EncodableParameter(p)
  {
    match p
    case RegisterParameter(name) => EncRegister(name)
    case ConstantParameter(width, value) => EncConstant(width, value)
  }

  predicate EncodableTarget(t: Target) {
    match t
    case Register(name) => EncodableRegister(name)
    case Constant(_, _) => true
    case Memory(_, _, base, offset1, offset2) =>
      EncodableParameter(base) && EncodableParameter(offset1) && EncodableParameter(offset2)
  }

  function EncTarget(t: Target): (s: seq<byte>)
    requires EncodableTarget(t)
    ensures |s| > 2
  {
    match t
    case Register(name) => EncRegister(name)
    case Constant(width, value) => EncConstant(width, value)
    case Memory(ratio, width, base, offset1, offset2) =>
      [MEMORY_PREFIX, width.Prefix()] + EncParameter(base) + EncParameter(offset1) + EncParameter(offset2)
      + [ratio.Code()]
  }

  function EncTargets(ts: seq<Target>): seq<byte>
    requires forall t :: t in ts ==> EncodableTarget(t)
  {
    if ts == [] then [] else EncTarget(ts[0]) + EncTargets(ts[1..])
  }

  lemma {:induction false} EncTargetsAppend(ts: seq<Target>, t: Target)
    requires EncodableTarget(t) && forall u :: u in ts ==> EncodableTarget(u)
    ensures EncTargets(ts + [t]) == EncTargets(ts) + EncTarget(t)
  {
    if ts == [] {
      assert EncTargets([t]) == EncTarget(t) + EncTargets([]);
    } else {
      assert (ts + [t])[1..] == ts[1..] + [t];
      EncTargetsAppend(ts[1..], t);
    }
  }

  // ---- operand checks ----

  datatype Instruction = Instruction(mnemonic: Mnemonic, width: Option<Width>, operands: seq<Target>)

  /** The width check reads the second character of a register name, so %EB and %EP
      pass as 16-bit operands. */
  predicate WidthConsistent(w: Width, t: Target) {
    match t
    case Register(name) =>
      (match w
       case W8 => name.Numbered? && name.kind == KindR
       case W16 => (name.Numbered? && name.kind == KindEXR) || name.EB? || name.EP?
       case W32 => name.Numbered? && name.kind == KindHER
       case W64 => name.IsWide())
    case Constant(width, _) => width == w
    case Memory(_, width, _, _, _) => width == w
  }

  predicate Is64BitOperand(t: Target) {
    match t
    case Register(name) => name.IsWide()
    case Constant(_, _) => true
    case Memory(_, width, _, _, _) => width == W64
  }

  predicate PassesSanityCheck(m: Mnemonic, ts: seq<Target>)
    requires |ts| == ArgumentCount(m)
  {
    match m
    case XCHG => !ts[0].Constant? && !ts[1].Constant?
    case IN => !ts[1].Constant?
    case MOV | POP | AND | OR | XOR | NOT | SHL | SHR | ROL | ROR | RCL | RCR
       | ADD | SUB | ADC | SBB | NEG | INC | DEC => !ts[0].Constant?
    case LEA => !ts[0].Constant? && ts[1].Memory? && Is64BitOperand(ts[0])
    case JMP | CALL | JE | JNE | JB | JL | JBE | JLE | JC | JNC | JO | JNO | LOOP =>
      Is64BitOperand(ts[0]) && Is64BitOperand(ts[1])
    case _ => true
  }

  /** Operands of an instruction that takes none are never looked at. */
  function CheckedOperands(i: Instruction): seq<Target> {
    if ArgumentCount(i.mnemonic) == 0 then [] else i.operands
  }

  predicate Accepts(i: Instruction) {
    var m, ts := i.mnemonic, CheckedOperands(i);
    && |ts| == ArgumentCount(m)
    && (RequiresWidth(m) ==> i.width.Some?)
    && (!RequiresWidth(m) && ArgumentCount(m) > 0 ==> i.width.None?)
    && (forall t :: t in ts ==> EncodableTarget(t))
    && (RequiresWidth(m) ==> forall t :: t in ts ==> WidthConsistent(i.width.value, t))
    && PassesSanityCheck(m, ts)
  }

  /** Whatever is written behind an instruction that takes no operands makes no difference. */
  lemma OperandsIgnored(i: Instruction, operands: seq<Target>)
    requires Accepts(i) && ArgumentCount(i.mnemonic) == 0
    ensures Accepts(i.(operands := operands)) && Encode(i.(operands := operands)) == Encode(i)
  {
    hide Opcode;
  }

  /** How wide the value is that an operand names. */
  function OperandWidth(t: Target): Width {
    match t
    case Register(Numbered(kind, _)) => kind.Width()
    case Register(_) => W64
    case Constant(width, _) => width
    case Memory(_, width, _, _, _) => width
  }

  /** The 64-bit registers that pass as 16-bit operands. */
  predicate PassesAsNarrow(t: Target) {
    t.Register? && (t.name.EB? || t.name.EP?)
  }

  /** Accepted operands have the width of their instruction, %EB and %EP at 16 bits being the
      only exception. */
  lemma {:induction false} WidthCheckExact(i: Instruction)
    requires Accepts(i) && RequiresWidth(i.mnemonic)
    ensures
      i.width.Some?
    ensures
      (forall t :: t in CheckedOperands(i) ==> OperandWidth(t) == i.width.value)
      <==> !(i.width.value == W16 && exists t :: t in CheckedOperands(i) && PassesAsNarrow(t))
  {
    hide Accepts;
    AcceptedOperands(i);
    var w := i.width.value;
    forall t | t in CheckedOperands(i) ensures OperandWidth(t) == w <==> !(w == W16 && PassesAsNarrow(t)) {
      OperandWidthExact(w, t);
    }
  }

  lemma AcceptedOperands(i: Instruction)
    requires Accepts(i) && RequiresWidth(i.mnemonic)
    ensures i.width.Some?
    ensures forall t :: t in CheckedOperands(i) ==> EncodableTarget(t) && WidthConsistent(i.width.value, t)
  {
  }

  /** The width check passes exactly the operands of that width and, at 16 bits, %EB and %EP. */
  lemma OperandWidthExact(w: Width, t: Target)
    requires EncodableTarget(t)
    ensures WidthConsistent(w, t) <==> OperandWidth(t) == w || (w == W16 && PassesAsNarrow(t))
    ensures PassesAsNarrow(t) ==> OperandWidth(t) == W64
  {
  }

  /** A 16-bit push of the 64-bit register %EB is accepted. */
  lemma NarrowPushOfWideRegister()
    ensures
      var i := Instruction(PUSH, Some(W16), [Register(EB)]);
      Accepts(i) && OperandWidth(i.operands[0]) == W64
  {
    assert EncodableTarget(Register(EB));
  }

  function Encode(i: Instruction): seq<byte>
    requires Accepts(i)
  {
    [Opcode(i.mnemonic)]
    + (if RequiresWidth(i.mnemonic) then [i.width.value.Prefix()] else [])
    + EncTargets(CheckedOperands(i))
  }

  // ---- the encoding methods ----

  method EncodeRegister(buffer: CodeBuffer, name: RegisterName) returns (ok: bool)
    requires name.MatchesPattern()
    modifies buffer
    ensures ok <==> EncodableRegister(name)
    ensures ok ==> buffer.code == old(buffer.code) + EncRegister(name)
  {
    hide RegisterName.Text, TrailingNumber, DigitsValue, TrailingDigits;
    var index := ExtractTrailingNumber(name.Text());
    buffer.Push8(REGISTER_PREFIX);
    match name {
      case Numbered(kind, digits) =>
        PatternDigits(name);
        NumberedText(kind, digits);
        buffer.Push8(kind.Width().Prefix());
        buffer.Push8((if index.Some? then index.value else 0) % 256);
        return true;
      case XMM(_) =>
        return false;
      case _ =>
        buffer.Push8(W64.Prefix());
        buffer.Push8(name.SpecialCode());
        return true;
    }
  }

  method EncodeConstant(buffer: CodeBuffer, width: Width, value: u64)
    modifies buffer
    ensures buffer.code == old(buffer.code) + EncConstant(width, value)
  {
    buffer.Push8(CONSTANT_PREFIX);
    buffer.Push8(width.Prefix());
    assert buffer.code == old(buffer.code) + [CONSTANT_PREFIX, width.Prefix()];
    buffer.PushLe(value, width.Size());
    Associate(old(buffer.code), [CONSTANT_PREFIX, width.Prefix()], Le(value, width.Size()));
  }

  method EncodeParameter(buffer: CodeBuffer, p: Parameter) returns (ok: bool)
    modifies buffer
    ensures ok <==> EncodableParameter(p)
    ensures ok ==> buffer.code == old(buffer.code) + EncParameter(p)
  {
    match p {
      case RegisterParameter(name) =>
        if !name.MatchesPattern() || !name.IsWide() {
          return false;
        }
        ok := EncodeRegister(buffer, name);
      case ConstantParameter(width, value) =>
        EncodeConstant(buffer, width, value);
        return true;
      case Unrecognized =>
        return false;
    }
  }

  method EncodeMemory(buffer: CodeBuffer, t: Target) returns (ok: bool)
    requires t.Memory?
    modifies buffer
    ensures ok <==> EncodableTarget(t)
    ensures ok ==> buffer.code == old(buffer.code) + EncTarget(t)
  {
    hide EncParameter, EncodableParameter;
    ghost var start := buffer.code;
    buffer.Push8(MEMORY_PREFIX);
    buffer.Push8(t.width.Prefix());
    ghost var done := [MEMORY_PREFIX, t.width.Prefix()];
    ok := EncodeParameter(buffer, t.base);
    if !ok { return; }
    Associate(start, done, EncParameter(t.base));
    done := done + EncParameter(t.base);
    ok := EncodeParameter(buffer, t.offset1);
    if !ok { return; }
    Associate(start, done, EncParameter(t.offset1));
    done := done + EncParameter(t.offset1);
    ok := EncodeParameter(buffer, t.offset2);
    if !ok { return; }
    Associate(start, done, EncParameter(t.offset2));
    done := done + EncParameter(t.offset2);
    buffer.Push8(t.ratio.Code());
    Associate(start, done, [t.ratio.Code()]);
  }

  method EncodeTarget(buffer: CodeBuffer, t: Target) returns (ok: bool)
    modifies buffer
    ensures ok <==> EncodableTarget(t)
    ensures ok ==> buffer.code == old(buffer.code) + EncTarget(t)
  {
    match t {
      case Register(name) =>
        if !name.MatchesPattern() {
          return false;
        }
        ok := EncodeRegister(buffer, name);
      case Constant(width, value) =>
        EncodeConstant(buffer, width, value);
        ok := true;
      case Memory(_, _, _, _, _) =>
        ok := EncodeMemory(buffer, t);
    }
  }

  method EncodeInstruction(buffer: CodeBuffer, i: Instruction) returns (ok: bool)
    modifies buffer
    ensures ok <==> Accepts(i)
    ensures ok ==> buffer.code == old(buffer.code) + Encode(i)
  {
    hide Opcode, EncodableTarget, EncTarget, WidthConsistent, PassesSanityCheck;
    var count := ArgumentCount(i.mnemonic);
    buffer.Push8(Opcode(i.mnemonic));
    if RequiresWidth(i.mnemonic) {
      if i.width.None? {
        return false;
      }
      buffer.Push8(i.width.value.Prefix());
    }
    ghost var start := buffer.code;
    var checked: seq<Target> := [];
    for j := 0 to count
      invariant j > 0 ==> |i.operands| == count && (RequiresWidth(i.mnemonic) || i.width.None?)
      invariant j <= |i.operands| || j == 0
      invariant checked == i.operands[..j]
      invariant forall t :: t in checked ==> EncodableTarget(t)
      invariant RequiresWidth(i.mnemonic) ==> forall t :: t in checked ==> WidthConsistent(i.width.value, t)
      invariant buffer.code == start + EncTargets(checked)
    {
      // a width nobody asked for is taken for an operand, and does not parse as one
      if |i.operands| != count || (!RequiresWidth(i.mnemonic) && i.width.Some?) {
        return false;
      }
      var target := i.operands[j];
      var encoded := EncodeTarget(buffer, target);
      if !encoded {
        return false;
      }
      EncTargetsAppend(checked, target);
      Associate(start, EncTargets(checked), EncTarget(target));
      checked := checked + [target];
      if RequiresWidth(i.mnemonic) && !WidthConsistent(i.width.value, target) {
        return false;
      }
    }
    assert checked == CheckedOperands(i);
    ok := PassesSanityCheck(i.mnemonic, checked);
  }
}
