/** Code that is no instruction: what the disassembler shows of it, and how much it takes. */
module MalformedCode {
  import opened Bytes
  import opened InstructionSet
  import opened Operands
  import opened Encoder
  import opened Disassembler
  import opened RoundTrip

  // ---- bytes that fit nowhere ----

  /** A byte that is no opcode is data by itself; so are an opcode and a width code that is none. */
  lemma UnknownStart(b: byte, c: byte, rest: seq<byte>)
    ensures (forall m: Mnemonic :: Opcode(m) != b) ==> DecodeInstruction([b] + rest) == ([Data(BadByte(b))], rest)
    ensures
      (exists m: Mnemonic :: Opcode(m) == b && RequiresWidth(m)) && CodedSize(c) == 0 ==>
        DecodeInstruction([b, c] + rest) == ([Data(BadByte(b)), Data(BadByte(c))], rest)
  {
    hide DecodeOperands, Opcode, RequiresWidth;
    SplitsBack([b], rest);
    SplitsBack([b, c], rest);
    WidthCodes(c);
    if m: Mnemonic :| Opcode(m) == b && RequiresWidth(m) {
      OpcodesAreUnique(m, MnemonicOf(b).value);
    }
  }

  /** A byte that begins no operand, a constant of no width, and a register code without a name
      are shown byte by byte, and decoding goes on behind them. */
  lemma UnknownOperand(b: byte, c: byte, rest: seq<byte>)
    ensures b !in {0x01, 0x02, 0x03} ==> DecodeTarget([b] + rest) == Decoded([BadByte(b)], rest, false)
    ensures CodedSize(b) == 0 ==> DecodeTarget([0x02, b] + rest) == Decoded([BadByte(b)], rest, false)
    ensures
      CodedSize(b) == 0 || (b == 0x64 && c > 15 && !(0xA0 <= c <= 0xA6)) ==>
        DecodeTarget([0x01, b, c] + rest) == Decoded([BadByte(b), BadByte(c)], rest, false)
  {
    hide FromLe, Decimal;
    WidthCodes(b);
    SplitsBack([b], rest);
    SplitsBack([0x02, b], rest);
    SplitsBack([0x01, b, c], rest);
    assert ([0x02, b] + rest)[1..] == [b] + rest;
    assert ([0x01, b, c] + rest)[1..] == [b, c] + rest && ([b, c] + rest)[2..] == rest;
  }

  /** A memory operand of no width shows its width byte; one whose first part begins with neither
      a register nor a constant is given up behind that byte and shows nothing. */
  lemma UnknownMemory(b: byte, w: Width, rest: seq<byte>)
    ensures CodedSize(b) == 0 ==> DecodeTarget([0x03, b] + rest) == Decoded([BadByte(b)], rest, false)
    ensures b !in {0x01, 0x02} ==> DecodeTarget([0x03, w.Prefix(), b] + rest) == Decoded([], rest, false)
  {
    hide DecodeRegister, DecodeConstant;
    WidthCodes(b);
    assert ([0x03, b] + rest)[1..] == [b] + rest && ([b] + rest)[1..] == rest;
    var v := [w.Prefix(), b] + rest;
    assert ([0x03, w.Prefix(), b] + rest)[1..] == v;
    assert v[0] == w.Prefix() && v[1..] == [b] + rest;
  }

  /** A memory operand with a ratio that is none shows that byte only. */
  lemma {:induction false} UnknownRatio(t: Target, b: byte, rest: seq<byte>)
    requires t.Memory? && EncodableTarget(t) && RatioOf(b) == None
    ensures
      DecodeTarget([0x03, t.width.Prefix()] + (EncParameter(t.base) + (EncParameter(t.offset1)
                   + (EncParameter(t.offset2) + ([b] + rest))))) == Decoded([BadByte(b)], rest, false)
  {
    hide DecodeParameter, EncParameter, EncodableParameter;
    var tail := [b] + rest;
    var parts := EncParameter(t.base) + (EncParameter(t.offset1) + (EncParameter(t.offset2) + tail));
    SplitsBack([0x03, t.width.Prefix()], parts);
    var input := [0x03, t.width.Prefix()] + parts;
    assert input[1..][0] == t.width.Prefix() && input[1..][1..] == parts;
    ParameterRoundTrip(t.base, EncParameter(t.offset1) + (EncParameter(t.offset2) + tail));
    ParameterRoundTrip(t.offset1, EncParameter(t.offset2) + tail);
    ParameterRoundTrip(t.offset2, tail);
  }

  // ---- instructions cut short ----

  lemma CutIn(a: seq<byte>, b: seq<byte>, k: nat)
    requires k < |a + b|
    ensures (a + b)[..k] == if k < |a| then a[..k] else a + b[..k - |a|]
  {
  }

  lemma {:induction false} RegisterCut(name: RegisterName, k: nat)
    requires EncodableRegister(name) && 0 < k < 3
    ensures DecodeRegister(EncRegister(name)[..k][1..]) == RAN_DRY
  {
    hide NameOf;
  }

  lemma {:induction false} ConstantCut(width: Width, value: u64, k: nat)
    requires 0 < k < 2 + width.Size()
    ensures DecodeConstant(EncConstant(width, value)[..k][1..]) == RAN_DRY
  {
    hide Le, FromLe;
    var cut := EncConstant(width, value)[..k][1..];
    if cut != [] {
      assert cut[0] == width.Prefix() && |cut[1..]| < width.Size();
    }
  }

  lemma {:induction false} ParameterCut(p: Parameter, k: nat)
    requires EncodableParameter(p) && k < |EncParameter(p)|
    ensures DecodeParameter(EncParameter(p)[..k]).0 == RAN_DRY
  {
    hide DecodeRegister, DecodeConstant;
    if k > 0 {
      match p {
        case RegisterParameter(name) =>
          WideIsEncodable(name);
          RegisterCut(name, k);
        case ConstantParameter(width, value) => ConstantCut(width, value, k);
      }
    }
  }

  /** One parameter and something behind it, cut: the parameter runs dry, or what is left of the
      rest is left. */
  lemma {:induction false} ParameterStep(p: Parameter, tail: seq<byte>, n: nat)
    requires EncodableParameter(p) && n < |EncParameter(p) + tail|
    ensures var ((d, ok), m) := (DecodeParameter((EncParameter(p) + tail)[..n]), |EncParameter(p)|);
            if n < m then d == RAN_DRY else ok && !d.emptied && n - m < |tail| && d.rest == tail[..n - m]
  {
    hide DecodeParameter, EncParameter, EncodableParameter;
    CutIn(EncParameter(p), tail, n);
    if n < |EncParameter(p)| {
      ParameterCut(p, n);
    } else {
      ParameterRoundTrip(p, tail[..n - |EncParameter(p)|]);
    }
  }

  function Parts(t: Target): seq<byte>
    requires t.Memory? && EncodableTarget(t)
  {
    EncParameter(t.base) + (EncParameter(t.offset1) + (EncParameter(t.offset2) + [t.ratio.Code()]))
  }

  lemma {:induction false} PartsCut(t: Target, n: nat)
    requires t.Memory? && EncodableTarget(t) && n < |Parts(t)|
    ensures DecodeMemory([t.width.Prefix()] + Parts(t)[..n]) == RAN_DRY
  {
    hide DecodeParameter, EncParameter, EncodableParameter, DecodeRatio;
    var b, p, q, code := EncParameter(t.base), EncParameter(t.offset1), EncParameter(t.offset2), [t.ratio.Code()];
    SplitsBack([t.width.Prefix()], Parts(t)[..n]);
    ParameterStep(t.base, p + (q + code), n);
    if n >= |b| {
      ParameterStep(t.offset1, q + code, n - |b|);
      if n - |b| >= |p| {
        ParameterStep(t.offset2, code, n - |b| - |p|);
        if n - |b| - |p| >= |q| {
          NoRatio(t.width, code, n - |b| - |p| - |q|);
        }
      }
    }
  }

  lemma NoRatio(w: Width, code: seq<byte>, n: nat)
    requires |code| == 1 && n < 1
    ensures forall p, q, s :: DecodeRatio(w, p, q, s, code[..n]) == RAN_DRY
  {
  }

  lemma {:induction false} MemoryCut(t: Target, k: nat)
    requires t.Memory? && EncodableTarget(t) && 0 < k < |EncTarget(t)|
    ensures DecodeMemory(EncTarget(t)[..k][1..]) == RAN_DRY
  {
    hide EncParameter, EncodableParameter, DecodeMemory;
    if k == 1 {
      NothingToDecode();
      assert EncTarget(t)[..k][1..] == [];
    } else {
      assert EncTarget(t) == [MEMORY_PREFIX, t.width.Prefix()] + Parts(t);
      assert EncTarget(t)[..k][1..] == [t.width.Prefix()] + Parts(t)[..k - 2];
      PartsCut(t, k - 2);
    }
  }

  lemma NothingToDecode()
    ensures DecodeMemory([]) == RAN_DRY
  {
  }

  lemma {:induction false} TargetCut(t: Target, k: nat)
    requires EncodableTarget(t) && k < |EncTarget(t)|
    ensures DecodeTarget(EncTarget(t)[..k]) == RAN_DRY
  {
    hide DecodeRegister, DecodeConstant, DecodeMemory, EncRegister, EncConstant;
    if k > 0 {
      match t {
        case Register(name) => RegisterCut(name, k);
        case Constant(width, value) => ConstantCut(width, value, k);
        case Memory(_, _, _, _, _) => MemoryCut(t, k);
      }
    }
  }

  lemma {:induction false} OperandsCut(ts: seq<Target>, k: nat)
    requires (forall t :: t in ts ==> EncodableTarget(t)) && k < |EncTargets(ts)|
    ensures DecodeOperands(EncTargets(ts)[..k], |ts|).emptied
  {
    hide DecodeTarget, EncTarget, EncodableTarget;
    var first, rest := EncTarget(ts[0]), EncTargets(ts[1..]);
    CutIn(first, rest, k);
    if k < |first| {
      TargetCut(ts[0], k);
    } else {
      TargetRoundTrip(ts[0], rest[..k - |first|]);
      OperandsCut(ts[1..], k - |first|);
    }
  }

  /** A proper beginning of an encoding decodes to no line at all: only data, and nothing is left. */
  lemma {:induction false} InstructionCut(i: Instruction, k: nat)
    requires Accepts(i) && 0 < k < |Encode(i)|
    ensures var (literals, rest) := DecodeInstruction(Encode(i)[..k]);
            rest == [] && forall n :: 0 <= n < |literals| ==> literals[n].Data?
  {
    hide DecodeOperands, EncTargets, EncodableTarget, WidthConsistent, PassesSanityCheck;
    hide Opcode, RequiresWidth, ArgumentCount;
    AcceptedTargets(i);
    var m, ts := i.mnemonic, CheckedOperands(i);
    var cut := Encode(i)[..k];
    assert cut[0] == Opcode(m);
    OpcodesAreUnique(m, MnemonicOf(Opcode(m)).value);
    if RequiresWidth(m) {
      if k > 1 {
        assert cut[1] == i.width.value.Prefix() && cut[2..] == EncTargets(ts)[..k - 2];
        OperandsCut(ts, k - 2);
      }
    } else {
      assert cut[1..] == EncTargets(ts)[..k - 1];
      OperandsCut(ts, k - 1);
    }
  }
}
