/** The disassembler: bytes popped off the front of a buffer, malformed input included. */
module Disassembler {
  import opened Bytes
  import opened InstructionSet
  import opened Operands
  import opened Encoder

  /** The parts an operand's text is made of; bytes that fit nowhere are shown as data. */
  datatype Piece =
    | ShowRegister(name: RegisterName)
    | ShowConstant(width: Width, value: nat)
    | ShowMemory(ratio: Ratio, width: Width, base: seq<Piece>, offset1: seq<Piece>, offset2: seq<Piece>)
    | BadByte(b: byte)

  datatype Literal =
    | Line(mnemonic: Mnemonic, width: Option<Width>, operands: seq<seq<Piece>>)
    | Data(piece: Piece)

  /** Result of decoding from the front: the text, the bytes left, whether input ran dry. */
  datatype Decoded = Decoded(out: seq<Piece>, rest: seq<byte>, emptied: bool)

  const RAN_DRY: Decoded := Decoded([], [], true)

  // ---- what is decoded, as functions ----

  function DecodeConstant(input: seq<byte>): Decoded {
    if input == [] then RAN_DRY
    else
      match WidthOf(input[0])
      case None => Decoded([BadByte(input[0])], input[1..], false)
      case Some(w) =>
        var rest := input[1..];
        if |rest| < w.Size() then RAN_DRY
        else Decoded([ShowConstant(w, FromLe(rest[..w.Size()]))], rest[w.Size()..], false)
  }

  /** The name printed for a width code and register index, when there is one. */
  function NameOf(width: byte, index: byte): Option<RegisterName> {
    match WidthOf(width)
    case None => None
    case Some(W8) => Some(Numbered(KindR, Decimal(index)))
    case Some(W16) => Some(Numbered(KindEXR, Decimal(index)))
    case Some(W32) => Some(Numbered(KindHER, Decimal(index)))
    case Some(W64) => if index <= 15 then Some(Numbered(KindFER, Decimal(index))) else SpecialOf(index)
  }

  function DecodeRegister(input: seq<byte>): Decoded {
    if |input| < 2 then RAN_DRY
    else
      match NameOf(input[0], input[1])
      case Some(name) => Decoded([ShowRegister(name)], input[2..], false)
      case None => Decoded([BadByte(input[0]), BadByte(input[1])], input[2..], false)
  }

  /** One parameter of a memory operand: its text, or nothing when the whole operand is given up. */
  function DecodeParameter(input: seq<byte>): (r: (Decoded, bool))
    ensures r.0.emptied ==> r.0 == RAN_DRY
  {
    if input == [] then (RAN_DRY, false)
    else if input[0] == REGISTER_PREFIX then (DecodeRegister(input[1..]), true)
    else if input[0] == CONSTANT_PREFIX then (DecodeConstant(input[1..]), true)
    else (Decoded([], input[1..], false), false)
  }

  function DecodeMemory(input: seq<byte>): Decoded {
    if input == [] then RAN_DRY
    else
      match WidthOf(input[0])
      case None => Decoded([BadByte(input[0])], input[1..], false)
      case Some(w) =>
        var (p, ok1) := DecodeParameter(input[1..]);
        if p.emptied then RAN_DRY else if !ok1 then Decoded([], p.rest, false)
        else
          var (q, ok2) := DecodeParameter(p.rest);
          if q.emptied then RAN_DRY else if !ok2 then Decoded([], q.rest, false)
          else
            var (s, ok3) := DecodeParameter(q.rest);
            if s.emptied then RAN_DRY else if !ok3 then Decoded([], s.rest, false)
            else DecodeRatio(w, p.out, q.out, s.out, s.rest)
  }

  function DecodeRatio(w: Width, p: seq<Piece>, q: seq<Piece>, s: seq<Piece>, input: seq<byte>): Decoded {
    if input == [] then RAN_DRY
    else
      match RatioOf(input[0])
      case Some(ratio) => Decoded([ShowMemory(ratio, w, p, q, s)], input[1..], false)
      case None => Decoded([BadByte(input[0])], input[1..], false)
  }

  /** Running dry leaves no text and no input. */
  function DecodeTarget(input: seq<byte>): (d: Decoded)
    ensures d.emptied ==> d == RAN_DRY
  {
    if input == [] then RAN_DRY
    else if input[0] == REGISTER_PREFIX then DecodeRegister(input[1..])
    else if input[0] == CONSTANT_PREFIX then DecodeConstant(input[1..])
    else if input[0] == MEMORY_PREFIX then DecodeMemory(input[1..])
    else Decoded([BadByte(input[0])], input[1..], false)
  }

  datatype OperandTexts = OperandTexts(texts: seq<seq<Piece>>, rest: seq<byte>, emptied: bool)

  function DecodeOperands(input: seq<byte>, count: nat): (o: OperandTexts)
    ensures o.emptied ==> o.rest == []
    decreases count
  {
    if count == 0 then OperandTexts([], input, false)
    else
      var d := DecodeTarget(input);
      if d.emptied then OperandTexts([], [], true)
      else
        var tail := DecodeOperands(d.rest, count - 1);
        OperandTexts([d.out] + tail.texts, tail.rest, tail.emptied)
  }

  ghost function DecodeInstruction(input: seq<byte>): (r: (seq<Literal>, seq<byte>)) {
    if input == [] then ([], [])
    else
      match MnemonicOf(input[0])
      case None => ([Data(BadByte(input[0]))], input[1..])
      case Some(m) =>
        if !RequiresWidth(m) then DecodeBody(m, None, [Data(BadByte(input[0]))], input[1..])
        else if |input| < 2 then ([], [])
        else
          match WidthOf(input[1])
          case None => ([Data(BadByte(input[0])), Data(BadByte(input[1]))], input[2..])
          case Some(w) => DecodeBody(m, Some(w), [Data(BadByte(input[0])), Data(BadByte(input[1]))], input[2..])
  }

  /** Operands behind the opcode and width bytes, which show as data when input runs dry. */
  function DecodeBody(m: Mnemonic, w: Option<Width>, head: seq<Literal>, input: seq<byte>)
    : (r: (seq<Literal>, seq<byte>))
  {
    var ops := DecodeOperands(input, ArgumentCount(m));
    if ops.emptied then (head, ops.rest) else ([Line(m, w, ops.texts)], ops.rest)
  }

  // ---- the disassembler's methods ----

  method PopConstant(input: CodeBuffer) returns (d: Decoded)
    modifies input
    ensures d == DecodeConstant(old(input.code)) && d.rest == input.code
  {
    var prefix := input.Pop8();
    if prefix.None? {
      return RAN_DRY;
    }
    var width := WidthOf(prefix.value);
    if width.None? {
      return Decoded([BadByte(prefix.value)], input.code, false);
    }
    var num := input.PopLe(width.value.Size());
    if num.None? {
      return RAN_DRY;
    }
    return Decoded([ShowConstant(width.value, num.value)], input.code, false);
  }

  method PopRegister(input: CodeBuffer) returns (d: Decoded)
    modifies input
    ensures d == DecodeRegister(old(input.code)) && d.rest == input.code
  {
    var size := input.Pop8();
    if size.None? {
      return RAN_DRY;
    }
    var index := input.Pop8();
    if index.None? {
      return RAN_DRY;
    }
    var name := NameOf(size.value, index.value);
    if name.Some? {
      return Decoded([ShowRegister(name.value)], input.code, false);
    }
    return Decoded([BadByte(size.value), BadByte(index.value)], input.code, false);
  }

  method PopParameter(input: CodeBuffer) returns (d: Decoded, ok: bool)
    modifies input
    ensures (d, ok) == DecodeParameter(old(input.code)) && d.rest == input.code
  {
    hide DecodeRegister, DecodeConstant;
    var code := input.Pop8();
    if code.None? {
      return RAN_DRY, false;
    }
    if code.value == REGISTER_PREFIX {
      d := PopRegister(input);
      return d, true;
    } else if code.value == CONSTANT_PREFIX {
      d := PopConstant(input);
      return d, true;
    }
    return Decoded([], input.code, false), false;
  }

  method PopMemory(input: CodeBuffer) returns (d: Decoded)
    modifies input
    ensures d == DecodeMemory(old(input.code)) && d.rest == input.code
  {
    hide DecodeParameter;
    var code := input.Pop8();
    if code.None? {
      return RAN_DRY;
    }
    var width := WidthOf(code.value);
    if width.None? {
      return Decoded([BadByte(code.value)], input.code, false);
    }
    var base, baseOk := PopParameter(input);
    if base.emptied || !baseOk {
      return Decoded([], input.code, base.emptied);
    }
    var offset1, offset1Ok := PopParameter(input);
    if offset1.emptied || !offset1Ok {
      return Decoded([], input.code, offset1.emptied);
    }
    var offset2, offset2Ok := PopParameter(input);
    if offset2.emptied || !offset2Ok {
      return Decoded([], input.code, offset2.emptied);
    }
    var ratioCode := input.Pop8();
    if ratioCode.None? {
      return RAN_DRY;
    }
    var ratio := RatioOf(ratioCode.value);
    if ratio.None? {
      return Decoded([BadByte(ratioCode.value)], input.code, false);
    }
    return Decoded([ShowMemory(ratio.value, width.value, base.out, offset1.out, offset2.out)], input.code, false);
  }

  method PopTarget(input: CodeBuffer) returns (d: Decoded)
    modifies input
    ensures d == DecodeTarget(old(input.code)) && d.rest == input.code
  {
    hide DecodeRegister, DecodeConstant, DecodeMemory;
    var code := input.Pop8();
    if code.None? {
      return RAN_DRY;
    }
    if code.value == REGISTER_PREFIX {
      d := PopRegister(input);
    } else if code.value == CONSTANT_PREFIX {
      d := PopConstant(input);
    } else if code.value == MEMORY_PREFIX {
      d := PopMemory(input);
    } else {
      return Decoded([BadByte(code.value)], input.code, false);
    }
  }

  /** Pops operands until there are `count` of them or the input runs dry. */
  method PopOperands(count: nat, input: CodeBuffer) returns (texts: seq<seq<Piece>>, emptied: bool)
    modifies input
    ensures OperandTexts(texts, input.code, emptied) == DecodeOperands(old(input.code), count)
  {
    hide DecodeTarget;
    texts := [];
    for i := 0 to count
      invariant var all, left := DecodeOperands(old(input.code), count), DecodeOperands(input.code, count - i);
                all == OperandTexts(texts + left.texts, left.rest, left.emptied)
    {
      var d := PopTarget(input);
      if d.emptied {
        assert texts + [] == texts;
        return texts, true;
      }
      assert forall t: seq<seq<Piece>> :: texts + ([d.out] + t) == texts + [d.out] + t;
      texts := texts + [d.out];
    }
    assert texts + [] == texts;
    return texts, false;
  }

  /** Decodes one instruction off the front; `table` is the instruction map in iteration order. */
  method PopInstruction(table: seq<Mnemonic>, input: CodeBuffer) returns (output: seq<Literal>)
    requires forall m: Mnemonic :: m in table
    modifies input
    ensures (output, input.code) == DecodeInstruction(old(input.code))
  {
    hide DecodeOperands, MnemonicOf, Opcode, RequiresWidth, ArgumentCount;
    var instruction := input.Pop8();
    if instruction.None? {
      return [];
    }
    var entry := FindEntry(table, instruction.value);
    if entry.None? {
      return [Data(BadByte(instruction.value))];
    }
    var m, width := entry.value, None;
    var head := [Data(BadByte(instruction.value))];
    if RequiresWidth(m) {
      var w := input.Pop8();
      if w.None? {
        return [];
      }
      head := [Data(BadByte(instruction.value)), Data(BadByte(w.value))];
      width := WidthOf(w.value);
      if width.None? {
        return head;
      }
    }
    assert input.code == if RequiresWidth(m) then old(input.code)[2..] else old(input.code)[1..];
    var texts, emptied := PopOperands(ArgumentCount(m), input);
    return if emptied then head else [Line(m, width, texts)];
  }
}
