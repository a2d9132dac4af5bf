/** Decoding what the encoder wrote. */
module RoundTrip {
  import opened Bytes
  import opened InstructionSet
  import opened Operands
  import opened Encoder
  import opened Disassembler

  // ---- the text an operand should come back as ----

  function ShowParameter(p: Parameter): seq<Piece> {
    match p
    case RegisterParameter(name) => [ShowRegister(name)]
    case ConstantParameter(width, value) => [ShowConstant(width, value)]
    case Unrecognized => []
  }

  function Show(t: Target): seq<Piece> {
    match t
    case Register(name) => [ShowRegister(name)]
    case Constant(width, value) => [ShowConstant(width, value)]
    case Memory(ratio, width, base, offset1, offset2) =>
      [ShowMemory(ratio, width, ShowParameter(base), ShowParameter(offset1), ShowParameter(offset2))]
  }

  function ShowAll(ts: seq<Target>): (r: seq<seq<Piece>>)
    ensures |r| == |ts|
  {
    seq(|ts|, i requires 0 <= i < |ts| => Show(ts[i]))
  }

  function ShowInstruction(i: Instruction): Literal {
    Line(i.mnemonic, i.width, ShowAll(i.operands))
  }

  // ---- the operands that come back as written ----

  /** Of the numbered 64-bit registers only %FER0 to %FER15, written without leading zeros. */
  predicate CanonicalRegister(name: RegisterName) {
    name.Numbered? && name.kind == KindFER ==>
      |name.digits| == 1 || (|name.digits| == 2 && name.digits[0] == '1' && name.digits[1] <= '5')
  }

  predicate CanonicalConstant(width: Width, value: u64) {
    value < Pow256(width.Size())
  }

  predicate CanonicalParameter(p: Parameter) {
    match p
    case RegisterParameter(name) => CanonicalRegister(name)
    case ConstantParameter(width, value) => CanonicalConstant(width, value)
    case Unrecognized => false
  }

  predicate CanonicalTarget(t: Target) {
    match t
    case Register(name) => CanonicalRegister(name)
    case Constant(width, value) => CanonicalConstant(width, value)
    case Memory(_, _, base, offset1, offset2) =>
      CanonicalParameter(base) && CanonicalParameter(offset1) && CanonicalParameter(offset2)
  }

  /** No operand or width that encoding drops, and every operand canonical. */
  predicate Canonical(i: Instruction) {
    && |i.operands| == ArgumentCount(i.mnemonic)
    && (i.width.Some? ==> RequiresWidth(i.mnemonic))
    && forall t :: t in i.operands ==> CanonicalTarget(t)
  }

  lemma DecimalOfDigit(n: nat)
    requires n <= 15
    ensures Decimal(n) == if n < 10 then [('0' as int + n) as char] else ['1', ('0' as int + n - 10) as char]
  {
    if n >= 10 {
      assert Decimal(n / 10) == ['1'];
    }
  }

  /** The canonical digit strings are the decimal texts of 0 to 15. */
  lemma {:induction false} CanonicalDigits(digits: string)
    requires |digits| > 0 && AllDigits(digits)
    ensures
      |digits| == 1 || (|digits| == 2 && digits[0] == '1' && digits[1] <= '5')
      <==> IndexOf(digits) % 256 <= 15 && digits == Decimal(IndexOf(digits) % 256)
  {
    var n := IndexOf(digits) % 256;
    if |digits| == 1 {
      assert digits[..0] == [];
      assert DigitsValue(digits) == DigitValue(digits[0]);
      DecimalOfDigit(n);
      assert digits == [digits[0]];
    } else if |digits| == 2 && digits[0] == '1' && digits[1] <= '5' {
      assert digits[..1] == ['1'] && digits[..1][..0] == [];
      assert DigitsValue(['1']) == 1;
      assert DigitsValue(digits) == 10 + DigitValue(digits[1]);
      DecimalOfDigit(n);
      assert digits == [digits[0], digits[1]];
    } else if n <= 15 {
      DecimalOfDigit(n);
    }
  }

  lemma {:induction false} RegisterRoundTrip(name: RegisterName, rest: seq<byte>)
    requires EncodableRegister(name)
    ensures var d := DecodeRegister(EncRegister(name)[1..] + rest);
            && !d.emptied && d.rest == rest
            && (d.out == [ShowRegister(name)] <==> CanonicalRegister(name))
  {
    hide NameOf, Decimal, IndexOf, CanonicalRegister;
    var s := EncRegister(name);
    SplitsBack([s[1], s[2]], rest);
    assert s[1..] + rest == [s[1], s[2]] + rest;
    if name.Numbered? {
      NumberedName(name);
    } else {
      SpecialName(name);
    }
  }

  /** %FER16 is encoded, and is shown as something else. */
  lemma SixteenIsNotReadBack()
    ensures
      var name := Numbered(KindFER, "16");
      EncodableRegister(name) && DecodeRegister(EncRegister(name)[1..]).out != [ShowRegister(name)]
  {
    hide EncRegister, DecodeRegister, NameOf;
    var name := Numbered(KindFER, "16");
    assert EncodableRegister(name);
    RegisterRoundTrip(name, []);
    assert EncRegister(name)[1..] + [] == EncRegister(name)[1..];
  }

  lemma {:induction false} NumberedName(name: RegisterName)
    requires EncodableRegister(name) && name.Numbered?
    ensures NameOf(EncRegister(name)[1], EncRegister(name)[2]) == Some(name) <==> CanonicalRegister(name)
  {
    hide Decimal, IndexOf;
    PatternDigits(name);
    CanonicalDigits(name.digits);
  }

  lemma SpecialName(name: RegisterName)
    requires EncodableRegister(name) && !name.Numbered?
    ensures NameOf(EncRegister(name)[1], EncRegister(name)[2]) == Some(name) && CanonicalRegister(name)
  {
  }

  lemma {:induction false} ConstantRoundTrip(width: Width, value: u64, rest: seq<byte>)
    ensures var d := DecodeConstant(EncConstant(width, value)[1..] + rest);
            && !d.emptied && d.rest == rest
            && d.out == [ShowConstant(width, value % Pow256(width.Size()))]
            && (d.out == [ShowConstant(width, value)] <==> CanonicalConstant(width, value))
  {
    var n, p := width.Size(), Pow256(width.Size());
    hide Le, FromLe, Pow256;
    var input := EncConstant(width, value)[1..] + rest;
    assert input == [width.Prefix()] + (Le(value, n) + rest);
    SplitsBack([width.Prefix()], Le(value, n) + rest);
    SplitsBack(Le(value, n), rest);
    FromLeOfLe(value, n);
    if value < p {
      DivModUnique(value, p, 0, value);
    }
  }

  lemma WideIsEncodable(name: RegisterName)
    requires name.MatchesPattern() && name.IsWide()
    ensures EncodableRegister(name)
  {
  }

  lemma {:induction false} ParameterRoundTrip(p: Parameter, rest: seq<byte>)
    requires EncodableParameter(p)
    ensures var (d, ok) := DecodeParameter(EncParameter(p) + rest);
            ok && !d.emptied && d.rest == rest && (d.out == ShowParameter(p) <==> CanonicalParameter(p))
  {
    hide DecodeRegister, DecodeConstant, CanonicalRegister, CanonicalConstant, EncRegister, EncConstant;
    hide EncodableRegister;
    var input := EncParameter(p) + rest;
    assert input[1..] == EncParameter(p)[1..] + rest;
    match p {
      case RegisterParameter(name) =>
        WideIsEncodable(name);
        RegisterRoundTrip(name, rest);
      case ConstantParameter(width, value) => ConstantRoundTrip(width, value, rest);
    }
  }

  lemma {:induction false} MemoryRoundTrip(t: Target, rest: seq<byte>)
    requires t.Memory? && EncodableTarget(t)
    ensures var d := DecodeMemory(EncTarget(t)[1..] + rest);
            !d.emptied && d.rest == rest && (d.out == Show(t) <==> CanonicalTarget(t))
  {
    hide DecodeParameter, EncParameter, EncodableParameter, ShowParameter, CanonicalParameter;
    var b, p, q := EncParameter(t.base), EncParameter(t.offset1), EncParameter(t.offset2);
    var code := [t.ratio.Code()];
    var input := EncTarget(t)[1..] + rest;
    assert input[0] == t.width.Prefix();
    assert input[1..] == b + (p + (q + (code + rest)));
    ParameterRoundTrip(t.base, p + (q + (code + rest)));
    ParameterRoundTrip(t.offset1, q + (code + rest));
    ParameterRoundTrip(t.offset2, code + rest);
    assert (code + rest)[1..] == rest;
  }

  lemma {:induction false} TargetRoundTrip(t: Target, rest: seq<byte>)
    requires EncodableTarget(t)
    ensures var d := DecodeTarget(EncTarget(t) + rest);
            !d.emptied && d.rest == rest && (d.out == Show(t) <==> CanonicalTarget(t))
  {
    hide DecodeRegister, DecodeConstant, DecodeMemory, EncRegister, EncConstant, EncParameter, EncodableParameter;
    hide CanonicalRegister, CanonicalConstant, CanonicalParameter;
    assert (EncTarget(t) + rest)[0] == EncTarget(t)[0];
    assert (EncTarget(t) + rest)[1..] == EncTarget(t)[1..] + rest;
    match t {
      case Register(name) => RegisterRoundTrip(name, rest);
      case Constant(width, value) => ConstantRoundTrip(width, value, rest);
      case Memory(_, _, _, _, _) => MemoryRoundTrip(t, rest);
    }
  }

  lemma {:induction false} OperandsRoundTrip(ts: seq<Target>, rest: seq<byte>)
    requires forall t :: t in ts ==> EncodableTarget(t)
    ensures var d := DecodeOperands(EncTargets(ts) + rest, |ts|);
            !d.emptied && d.rest == rest && |d.texts| == |ts|
            && forall k :: 0 <= k < |ts| ==> (d.texts[k] == Show(ts[k]) <==> CanonicalTarget(ts[k]))
  {
    hide DecodeTarget, EncTarget, EncodableTarget, CanonicalTarget, Show;
    if ts == [] {
      assert EncTargets(ts) + rest == rest;
    } else {
      var tail := EncTargets(ts[1..]) + rest;
      assert EncTargets(ts) + rest == EncTarget(ts[0]) + tail;
      TargetRoundTrip(ts[0], tail);
      OperandsRoundTrip(ts[1..], rest);
    }
  }

  lemma TextsMatch(texts: seq<seq<Piece>>, ts: seq<Target>)
    requires |texts| == |ts|
    requires forall k :: 0 <= k < |ts| ==> (texts[k] == Show(ts[k]) <==> CanonicalTarget(ts[k]))
    ensures texts == ShowAll(ts) <==> forall t :: t in ts ==> CanonicalTarget(t)
  {
    hide Show, CanonicalTarget;
    if forall t :: t in ts ==> CanonicalTarget(t) {
      assert forall k :: 0 <= k < |ts| ==> texts[k] == ShowAll(ts)[k];
    }
    if texts == ShowAll(ts) {
      assert forall k :: 0 <= k < |ts| ==> texts[k] == ShowAll(ts)[k];
    }
  }

  /** The decoder reads opcode and width back and comes to the operands. */
  lemma {:induction false} HeadRoundTrip(i: Instruction, rest: seq<byte>)
    requires Accepts(i)
    ensures var m := i.mnemonic;
            var ops := DecodeOperands(EncTargets(CheckedOperands(i)) + rest, ArgumentCount(m));
            !ops.emptied ==>
              DecodeInstruction(Encode(i) + rest) ==
              ([Line(m, if RequiresWidth(m) then i.width else None, ops.texts)], ops.rest)
  {
    hide DecodeOperands, EncTargets, EncodableTarget, WidthConsistent, PassesSanityCheck;
    hide Opcode, RequiresWidth, ArgumentCount;
    var m, targets := i.mnemonic, EncTargets(CheckedOperands(i)) + rest;
    var input := Encode(i) + rest;
    OpcodesAreUnique(m, MnemonicOf(Opcode(m)).value);
    if RequiresWidth(m) {
      assert input == [Opcode(m), i.width.value.Prefix()] + targets;
    } else {
      assert input == [Opcode(m)] + targets;
    }
  }

  lemma AcceptedTargets(i: Instruction)
    requires Accepts(i)
    ensures |CheckedOperands(i)| == ArgumentCount(i.mnemonic)
    ensures forall t :: t in CheckedOperands(i) ==> EncodableTarget(t)
    ensures |i.operands| == ArgumentCount(i.mnemonic) ==> i.operands == CheckedOperands(i)
    ensures RequiresWidth(i.mnemonic) ==> i.width.Some?
  {
    hide EncodableTarget, PassesSanityCheck, WidthConsistent;
  }

  /** Decoding consumes exactly the encoding, whatever follows it, and shows the instruction
      that was encoded exactly when that instruction is canonical. */
  lemma {:induction false} InstructionRoundTrip(i: Instruction, rest: seq<byte>)
    requires Accepts(i)
    ensures var (literals, left) := DecodeInstruction(Encode(i) + rest);
            left == rest && (literals == [ShowInstruction(i)] <==> Canonical(i))
  {
    hide Accepts, Encode, DecodeInstruction, DecodeOperands, EncTargets, EncodableTarget, CanonicalTarget, ShowAll;
    hide RequiresWidth, ArgumentCount, CheckedOperands;
    var ts := CheckedOperands(i);
    AcceptedTargets(i);
    HeadRoundTrip(i, rest);
    OperandsRoundTrip(ts, rest);
    TextsMatch(DecodeOperands(EncTargets(ts) + rest, |ts|).texts, ts);
  }

  // ---- whole byte streams ----

  function Encodings(program: seq<Instruction>): (r: seq<seq<byte>>)
    requires forall i :: i in program ==> Accepts(i)
    ensures |r| == |program|
  {
    seq(|program|, k requires 0 <= k < |program| => Encode(program[k]))
  }

  ghost predicate IsSuffix(r: seq<byte>, s: seq<byte>) {
    |r| <= |s| && r == s[|s| - |r|..]
  }

  lemma SuffixOfSuffix(r: seq<byte>, s: seq<byte>, t: seq<byte>)
    requires IsSuffix(r, s) && IsSuffix(s, t)
    ensures IsSuffix(r, t)
  {
    SliceOfSlice(t, |t| - |s|, |t|, |s| - |r|, |r|);
  }

  lemma TailIsSuffix(s: seq<byte>, n: nat)
    requires n <= |s|
    ensures IsSuffix(s[n..], s) && IsSuffix([], s)
  {
  }

  lemma BodyLeavesSuffix(m: Mnemonic, w: Option<Width>, head: seq<Literal>, input: seq<byte>)
    ensures IsSuffix(DecodeBody(m, w, head, input).1, input)
  {
    hide IsSuffix, DecodeOperands;
    OperandsLeaveSuffix(input, ArgumentCount(m));
  }

  /** Every decoding step, malformed and truncated input included, removes a non-empty prefix. */
  lemma {:induction false} DecodingMakesProgress(input: seq<byte>)
    requires input != []
    ensures var rest := DecodeInstruction(input).1;
            |rest| < |input| && IsSuffix(rest, input)
  {
    assert IsSuffix(DecodeInstruction(input).1, input[1..]) by {
      InstructionLeavesSuffix(input);
    }
    TailIsSuffix(input, 1);
    SuffixOfSuffix(DecodeInstruction(input).1, input[1..], input);
  }

  lemma InstructionLeavesSuffix(input: seq<byte>)
    requires input != []
    ensures IsSuffix(DecodeInstruction(input).1, input[1..])
  {
    hide IsSuffix, DecodeBody, RequiresWidth, ArgumentCount, Opcode, MnemonicOf;
    TailIsSuffix(input[1..], 0);
    var m := MnemonicOf(input[0]);
    if m.Some? {
      BodyLeavesSuffix(m.value, None, [Data(BadByte(input[0]))], input[1..]);
      if |input| >= 2 {
        assert input[2..] == input[1..][1..];
        TailIsSuffix(input[1..], 1);
        if WidthOf(input[1]).Some? {
          var head, w := [Data(BadByte(input[0])), Data(BadByte(input[1]))], Some(WidthOf(input[1]).value);
          BodyLeavesSuffix(m.value, w, head, input[2..]);
          SuffixOfSuffix(DecodeBody(m.value, w, head, input[2..]).1, input[2..], input[1..]);
        }
      }
    }
  }

  lemma {:induction false} OperandsLeaveSuffix(input: seq<byte>, count: nat)
    ensures IsSuffix(DecodeOperands(input, count).rest, input)
    decreases count
  {
    hide DecodeTarget, IsSuffix;
    TailIsSuffix(input, 0);
    if count > 0 {
      TargetLeavesSuffix(input);
      var d := DecodeTarget(input);
      OperandsLeaveSuffix(d.rest, count - 1);
      SuffixOfSuffix(DecodeOperands(d.rest, count - 1).rest, d.rest, input);
    }
  }

  lemma ParameterLeavesSuffix(input: seq<byte>)
    ensures IsSuffix(DecodeParameter(input).0.rest, input)
  {
    hide NameOf;
  }

  lemma RatioLeavesSuffix(w: Width, x: seq<Piece>, y: seq<Piece>, z: seq<Piece>, input: seq<byte>)
    ensures IsSuffix(DecodeRatio(w, x, y, z, input).rest, input)
  {
  }

  lemma MemoryLeavesSuffix(input: seq<byte>)
    ensures IsSuffix(DecodeMemory(input).rest, input)
  {
    hide DecodeParameter, DecodeRatio, IsSuffix;
    TailIsSuffix(input, 0);
    if input != [] {
      TailIsSuffix(input, 1);
      ParameterLeavesSuffix(input[1..]);
      var p := DecodeParameter(input[1..]).0.rest;
      SuffixOfSuffix(p, input[1..], input);
      ParameterLeavesSuffix(p);
      var q := DecodeParameter(p).0.rest;
      SuffixOfSuffix(q, p, input);
      ParameterLeavesSuffix(q);
      var r := DecodeParameter(q).0.rest;
      SuffixOfSuffix(r, q, input);
      forall w: Width, x, y, z
        ensures IsSuffix(DecodeRatio(w, x, y, z, r).rest, input)
      {
        RatioLeavesSuffix(w, x, y, z, r);
        SuffixOfSuffix(DecodeRatio(w, x, y, z, r).rest, r, input);
      }
    }
  }

  lemma TargetLeavesSuffix(input: seq<byte>)
    ensures IsSuffix(DecodeTarget(input).rest, input)
  {
    hide DecodeMemory, NameOf;
    if input != [] {
      MemoryLeavesSuffix(input[1..]);
    }
  }

  datatype Slice = Slice(bytes: seq<byte>, literals: seq<Literal>)

  /** Decoding a byte stream to its end, with the bytes each step took. */
  ghost function Sweep(input: seq<byte>): (slices: seq<Slice>)
    decreases |input|
  {
    if input == [] then []
    else
      var (literals, rest) := DecodeInstruction(input);
      DecodingMakesProgress(input);
      [Slice(input[..|input| - |rest|], literals)] + Sweep(rest)
  }

  function BytesOf(slices: seq<Slice>): (r: seq<seq<byte>>)
    ensures |r| == |slices|
  {
    seq(|slices|, k requires 0 <= k < |slices| => slices[k].bytes)
  }

  /** The slices put together are the input again. */
  lemma {:induction false} SweepCoversInput(input: seq<byte>)
    ensures Concat(BytesOf(Sweep(input))) == input
    decreases |input|
  {
    if input != [] {
      var rest := DecodeInstruction(input).1;
      DecodingMakesProgress(input);
      SweepCoversInput(rest);
      assert BytesOf(Sweep(input))[1..] == BytesOf(Sweep(rest));
    }
  }

  /** Sweeping over a program's concatenated encodings finds every instruction boundary, and
      shows each instruction as it was written exactly when it is canonical. */
  lemma {:induction false} ProgramRoundTrip(program: seq<Instruction>)
    requires forall i :: i in program ==> Accepts(i)
    ensures var slices := Sweep(Concat(Encodings(program)));
            && |slices| == |program|
            && forall k :: 0 <= k < |program| ==>
                 && slices[k].bytes == Encode(program[k])
                 && (slices[k].literals == [ShowInstruction(program[k])] <==> Canonical(program[k]))
  {
    hide Accepts, Encode, DecodeInstruction, Canonical, ShowInstruction;
    if program != [] {
      var tail := Concat(Encodings(program[1..]));
      assert Encodings(program)[1..] == Encodings(program[1..]);
      var input := Encode(program[0]) + tail;
      InstructionRoundTrip(program[0], tail);
      ProgramRoundTrip(program[1..]);
      EncodingNotEmpty(program[0]);
      assert input[..|input| - |tail|] == Encode(program[0]);
      assert Sweep(input) == [Slice(Encode(program[0]), DecodeInstruction(input).0)] + Sweep(tail);
    }
  }

  lemma EncodingNotEmpty(i: Instruction)
    requires Accepts(i)
    ensures Encode(i) != []
  {
  }
}
