/** The CPU's decoder against the disassembler, on the bytes at CB:IP. */
module TwoDecoders {
  import opened Bytes
  import opened InstructionSet
  import opened Operands
  import opened Registers
  import opened Encoder
  import opened Disassembler
  import opened RoundTrip
  import opened CpuDecoder

  /** `w` is everything in memory from CB:IP on. */
  ghost predicate Window(f: RegisterFile, m: FlatMemory, w: seq<byte>) {
    var here := Wrap64(Load(f, CodeBase) + Load(f, InstructionPointer));
    here <= |m| && w == m[here..]
  }

  lemma {:induction false} AdvanceKeepsOthers(f: RegisterFile, n: nat, r: Registers.Register)
    requires r.Exists() && r != InstructionPointer
    ensures Load(Advance(f, n), r) == Load(f, r)
  {
    LoadDisjoint(f, InstructionPointer, Wrap64(Load(f, InstructionPointer) + n), r);
  }

  lemma {:induction false} AdvanceTwice(f: RegisterFile, j: nat, k: nat)
    ensures Advance(Advance(f, j), k) == Advance(f, j + k)
  {
    hide Load, Store;
    var ip := Load(f, InstructionPointer);
    LoadStoredWide(f, InstructionPointer, Wrap64(ip + j));
    StoreTwice(f, InstructionPointer, Wrap64(ip + j), Wrap64(ip + j + k));
    assert Wrap64(Wrap64(ip + j) + k) == Wrap64(ip + j + k);
  }

  lemma WrapThenAdvance(cb: u64, ip: u64, n: nat)
    requires Wrap64(cb + ip) + n < TWO64
    ensures Wrap64(cb + Wrap64(ip + n)) == Wrap64(cb + ip) + n
  {
  }

  lemma {:induction false} AdvanceMovesWindow(f: RegisterFile, m: FlatMemory, w: seq<byte>, n: nat)
    requires Window(f, m, w) && n <= |w|
    ensures Window(Advance(f, n), m, w[n..])
  {
    hide Load, Store, Wrap64;
    var cb, ip := Load(f, CodeBase), Load(f, InstructionPointer);
    AdvanceKeepsOthers(f, n, CodeBase);
    LoadStoredWide(f, InstructionPointer, Wrap64(ip + n));
    WrapThenAdvance(cb, ip, n);
    assert m[CodeAddress(f)..][n..] == m[CodeAddress(f) + n..];
  }

  /** Fetching pops the front of the window. */
  lemma {:induction false} FetchPopsWindow(f: RegisterFile, m: FlatMemory, w: seq<byte>, n: Width)
    requires Window(f, m, w)
    ensures
      if |w| < n.Size() then PopCode(f, m, n) == Raised(StackOverflow, f)
      else
        && PopCode(f, m, n) == Got(FromLe(w[..n.Size()]), Advance(f, n.Size()))
        && Window(Advance(f, n.Size()), m, w[n.Size()..])
  {
    hide Advance, Load, Wrap64;
    var a := CodeAddress(f);
    if |w| >= n.Size() {
      AdvanceMovesWindow(f, m, w, n.Size());
      assert m[a..a + n.Size()] == w[..n.Size()];
    }
  }

  lemma {:induction false} FetchPopsByte(f: RegisterFile, m: FlatMemory, w: seq<byte>)
    requires Window(f, m, w)
    ensures
      if w == [] then PopByte(f, m) == Raised(StackOverflow, f)
      else PopByte(f, m) == Got(w[0], Advance(f, 1)) && Window(Advance(f, 1), m, w[1..])
  {
    FetchPopsWindow(f, m, w, W8);
    if w != [] {
      assert w[..1] == [w[0]] && FromLe([w[0]]) == w[0];
    }
  }

  // ---- what the disassembler's text means to the CPU ----

  /** The code bytes behind a printed register name. */
  function CodeOf(name: RegisterName): Option<RegisterCode> {
    if name.IsSpecial() then Some(RegisterCode(W64.Prefix(), name.SpecialCode()))
    else if name.Numbered? && AllDigits(name.digits) then
      Some(RegisterCode(name.kind.Width().Prefix(), IndexOf(name.digits) % 256))
    else None
  }

  /** A register operand keeps its two code bytes even where no name exists for them. */
  function RegisterMeaning(p: seq<Piece>): Option<RegisterCode> {
    if |p| == 1 && p[0].ShowRegister? then CodeOf(p[0].name)
    else if |p| == 2 && p[0].BadByte? && p[1].BadByte? then Some(RegisterCode(p[0].b, p[1].b))
    else None
  }

  function ConstantMeaning(p: seq<Piece>): Option<ConstantCode> {
    if |p| == 1 && p[0].ShowConstant? && p[0].value < TWO64 then Some(ConstantCode(p[0].value, p[0].width)) else None
  }

  function ParameterMeaning(p: seq<Piece>, f: RegisterFile): Option<ParameterValue> {
    match RegisterMeaning(p)
    case Some(code) =>
      (match SelectRegister(code.width, code.index)
       case Some(r) => Some(ParameterValue(Load(f, r), WidthOf(code.width).value))
       case None => None)
    case None =>
      match ConstantMeaning(p)
      case Some(c) => Some(ParameterValue(c.value, c.width))
      case None => None
  }

  /** base, offsets and ratio give the address (base + offset1 + signed offset2) * ratio. */
  function MemoryMeaning(p: seq<Piece>, f: RegisterFile): Option<CpuOperand> {
    if |p| == 1 && p[0].ShowMemory? then
      var base, offset1, offset2 :=
        ParameterMeaning(p[0].base, f), ParameterMeaning(p[0].offset1, f), ParameterMeaning(p[0].offset2, f);
      if base.None? || offset1.None? || offset2.None? then None
      else
        var sum := base.value.value + offset1.value.value + TwosComplement(offset2.value.value, offset2.value.width);
        Some(MemoryOperand(Wrap64(sum * p[0].ratio.Factor()), p[0].width.Prefix()))
    else None
  }

  function OperandMeaning(p: seq<Piece>, f: RegisterFile): Option<CpuOperand> {
    match RegisterMeaning(p)
    case Some(code) => Some(RegisterOperand(code.width, code.index))
    case None =>
      match ConstantMeaning(p)
      case Some(c) => Some(ConstantOperand(c.value, c.width.Prefix()))
      case None => MemoryMeaning(p, f)
  }

  ghost predicate AllMeaningful(texts: seq<seq<Piece>>, f: RegisterFile) {
    forall k :: 0 <= k < |texts| ==> OperandMeaning(texts[k], f).Some?
  }

  function Meanings(texts: seq<seq<Piece>>, f: RegisterFile): (os: seq<CpuOperand>)
    requires forall k :: 0 <= k < |texts| ==> OperandMeaning(texts[k], f).Some?
    ensures |os| == |texts|
  {
    seq(|texts|, k requires 0 <= k < |texts| => OperandMeaning(texts[k], f).value)
  }

  // ---- agreement, operand by operand ----

  lemma {:induction false} PrintedNameKeepsCode(width: byte, index: byte)
    ensures NameOf(width, index).Some? ==> CodeOf(NameOf(width, index).value) == Some(RegisterCode(width, index))
  {
  }

  lemma {:induction false} RegistersAgree(f: RegisterFile, m: FlatMemory, w: seq<byte>)
    requires Window(f, m, w)
    ensures var d := DecodeRegister(w);
            if d.emptied then FetchRegister(f, m).Raised?
            else
              && |w| - |d.rest| == 2
              && FetchRegister(f, m) == Got(RegisterCode(w[0], w[1]), Advance(f, 2))
              && Window(Advance(f, 2), m, d.rest)
              && RegisterMeaning(d.out) == Some(RegisterCode(w[0], w[1]))
  {
    hide Window, Advance, PopByte, NameOf, CodeOf;
    FetchPopsByte(f, m, w);
    if w != [] {
      FetchPopsByte(Advance(f, 1), m, w[1..]);
      if |w| > 1 {
        AdvanceTwice(f, 1, 1);
        PrintedNameKeepsCode(w[0], w[1]);
        assert w[1..][1..] == w[2..];
      }
    }
  }

  lemma {:induction false} ConstantsAgree(f: RegisterFile, m: FlatMemory, w: seq<byte>)
    requires Window(f, m, w)
    ensures var d, c := DecodeConstant(w), FetchConstant(f, m);
            && (c.Got? <==> !d.emptied && ConstantMeaning(d.out).Some?)
            && (c.Got? ==>
                  && |d.rest| < |w| && c == Got(ConstantMeaning(d.out).value, Advance(f, |w| - |d.rest|))
                  && Window(Advance(f, |w| - |d.rest|), m, d.rest))
            && RegisterMeaning(d.out) == None
  {
    hide Window, Advance, PopByte, PopCode;
    FetchPopsByte(f, m, w);
    if w != [] && WidthOf(w[0]).Some? {
      var n := WidthOf(w[0]).value;
      FetchPopsWindow(Advance(f, 1), m, w[1..], n);
      AdvanceTwice(f, 1, n.Size());
      if |w[1..]| >= n.Size() {
        FromLeBound(w[1..][..n.Size()]);
        Pow256Values();
      }
    }
  }

  lemma {:induction false} MeaningIgnoresIp(p: seq<Piece>, f: RegisterFile, n: nat)
    ensures ParameterMeaning(p, Advance(f, n)) == ParameterMeaning(p, f)
  {
    hide Advance, Load, RegisterMeaning, ConstantMeaning;
    var code := RegisterMeaning(p);
    if code.Some? {
      var r := SelectRegister(code.value.width, code.value.index);
      if r.Some? {
        AdvanceKeepsOthers(f, n, r.value);
      }
    }
  }

  lemma {:induction false} OperandMeaningIgnoresIp(p: seq<Piece>, f: RegisterFile, n: nat)
    ensures OperandMeaning(p, Advance(f, n)) == OperandMeaning(p, f)
  {
    hide Advance, ParameterMeaning, RegisterMeaning, ConstantMeaning, Wrap64, TwosComplement;
    if |p| == 1 && p[0].ShowMemory? {
      MeaningIgnoresIp(p[0].base, f, n);
      MeaningIgnoresIp(p[0].offset1, f, n);
      MeaningIgnoresIp(p[0].offset2, f, n);
    }
  }

  lemma SelectedWidth(width: byte, index: byte)
    ensures var r := SelectRegister(width, index);
            r.Some? ==> r.value.Size() == WidthOf(width).value.Size() && r.value != InstructionPointer
  {
  }

  lemma {:induction false} ParametersAgree(f: RegisterFile, m: FlatMemory, w: seq<byte>)
    requires Window(f, m, w)
    ensures var ((d, ok), c) := (DecodeParameter(w), FetchParameter(f, m));
            && (c.Got? <==> ok && !d.emptied && ParameterMeaning(d.out, f).Some?)
            && (c.Got? ==>
                  && |d.rest| < |w| && c == Got(ParameterMeaning(d.out, f).value, Advance(f, |w| - |d.rest|))
                  && Window(Advance(f, |w| - |d.rest|), m, d.rest)
                  && c.value.value < Pow256(c.value.width.Size()))
  {
    hide Window, Advance, PopByte, FetchRegister, FetchConstant, DecodeRegister, DecodeConstant, Load, SelectRegister;
    hide RegisterMeaning, ConstantMeaning;
    FetchPopsByte(f, m, w);
    if w != [] && w[0] == REGISTER_PREFIX {
      RegistersAgree(Advance(f, 1), m, w[1..]);
      AdvanceTwice(f, 1, 2);
      if |w| > 2 {
        MeaningIgnoresIp([BadByte(w[1]), BadByte(w[2])], f, 3);
        SelectedWidth(w[1], w[2]);
        var r := SelectRegister(w[1], w[2]);
        if r.Some? {
          AdvanceKeepsOthers(f, 3, r.value);
        }
      }
    } else if w != [] && w[0] == CONSTANT_PREFIX {
      ConstantsAgree(Advance(f, 1), m, w[1..]);
      var d := DecodeConstant(w[1..]);
      if FetchConstant(Advance(f, 1), m).Got? {
        AdvanceTwice(f, 1, |w| - 1 - |d.rest|);
      }
    }
  }

  lemma {:induction false} MemoryAgrees(f: RegisterFile, m: FlatMemory, w: seq<byte>)
    requires Window(f, m, w)
    ensures var (d, c) := (DecodeMemory(w), FetchMemory(f, m));
            && (c.Got? <==> !d.emptied && MemoryMeaning(d.out, f).Some?)
            && (c.Got? ==>
                  && |d.rest| < |w| && c == Got(MemoryMeaning(d.out, f).value, Advance(f, |w| - |d.rest|))
                  && Window(Advance(f, |w| - |d.rest|), m, d.rest))
            && RegisterMeaning(d.out) == None && ConstantMeaning(d.out) == None
  {
    hide Window, Advance, PopByte, FetchParameter, DecodeParameter, ParameterMeaning, SecondOffset, TwosComplement;
    hide MakeAddress, Wrap64;
    FetchPopsByte(f, m, w);
    if w != [] {
      var g, v := Advance(f, 1), w[1..];
      ParametersAgree(g, m, v);
      var (p, ok1) := DecodeParameter(v);
      MeaningIgnoresIp(p.out, f, 1);
      if FetchParameter(g, m).Got? {
        var h := FetchParameter(g, m).file;
        AdvanceTwice(f, 1, |v| - |p.rest|);
        ParametersAgree(h, m, p.rest);
        var (q, ok2) := DecodeParameter(p.rest);
        MeaningIgnoresIp(q.out, f, |w| - |p.rest|);
        if FetchParameter(h, m).Got? {
          var i := FetchParameter(h, m).file;
          AdvanceTwice(f, |w| - |p.rest|, |p.rest| - |q.rest|);
          ParametersAgree(i, m, q.rest);
          var (s, ok3) := DecodeParameter(q.rest);
          MeaningIgnoresIp(s.out, f, |w| - |q.rest|);
          if FetchParameter(i, m).Got? {
            var j := FetchParameter(i, m).file;
            AdvanceTwice(f, |w| - |q.rest|, |q.rest| - |s.rest|);
            FetchPopsByte(j, m, s.rest);
            AdvanceTwice(f, |w| - |s.rest|, 1);
            var base, offset1, offset2 := FetchParameter(g, m).value, FetchParameter(h, m).value,
              FetchParameter(i, m).value;
            SecondOffsetIsTwosComplement(offset2.value, offset2.width);
            forall ratio: Ratio {
              AddressIsModular(base.value, offset1.value, TwosComplement(offset2.value, offset2.width), ratio);
            }
          }
        }
      }
    }
  }

  /** Wrapping the sum before scaling it makes no difference. */
  lemma AddressIsModular(base: u64, offset1: u64, offset2: int, ratio: Ratio)
    ensures MakeAddress(base, offset1, offset2, ratio) == Wrap64((base + offset1 + offset2) * ratio.Factor())
  {
    ScaleModular(base + offset1 + offset2, ratio.Factor());
  }

  lemma ScaleModular(s: int, k: nat)
    ensures Wrap64(Wrap64(s) * k) == Wrap64(s * k)
  {
    var q, r := s / TWO64, s % TWO64;
    var n := q * k;
    assert s * k == r * k + TWO64 * n by {
      assert s == TWO64 * q + r;
      assert (TWO64 * q) * k == TWO64 * n;
    }
    AddMultiple(r * k, n);
  }

  lemma AddMultiple(x: int, n: int)
    ensures Wrap64(x + TWO64 * n) == Wrap64(x)
  {
  }

  lemma {:induction false} OperandAgrees(f: RegisterFile, m: FlatMemory, w: seq<byte>)
    requires Window(f, m, w)
    ensures var (d, c) := (DecodeTarget(w), FetchOperand(f, m));
            && (c.Got? <==> !d.emptied && OperandMeaning(d.out, f).Some?)
            && (c.Got? ==>
                  && |d.rest| < |w| && c == Got(OperandMeaning(d.out, f).value, Advance(f, |w| - |d.rest|))
                  && Window(Advance(f, |w| - |d.rest|), m, d.rest))
  {
    hide Window, Advance, PopByte, FetchRegister, FetchConstant, FetchMemory;
    hide DecodeRegister, DecodeConstant, DecodeMemory, RegisterMeaning, ConstantMeaning, MemoryMeaning;
    FetchPopsByte(f, m, w);
    if w != [] {
      var g, v := Advance(f, 1), w[1..];
      OperandMeaningIgnoresIp(DecodeTarget(w).out, f, 1);
      if w[0] == REGISTER_PREFIX {
        RegistersAgree(g, m, v);
        AdvanceTwice(f, 1, 2);
      } else if w[0] == CONSTANT_PREFIX {
        ConstantsAgree(g, m, v);
        MemoryMeaningOfConstant(v, g);
        if FetchConstant(g, m).Got? {
          AdvanceTwice(f, 1, |v| - |DecodeConstant(v).rest|);
        }
      } else if w[0] == MEMORY_PREFIX {
        MemoryAgrees(g, m, v);
        if FetchMemory(g, m).Got? {
          AdvanceTwice(f, 1, |v| - |DecodeMemory(v).rest|);
        }
      } else {
        NoMeaning(w[0], f);
      }
    }
  }

  lemma MemoryMeaningOfConstant(w: seq<byte>, f: RegisterFile)
    ensures MemoryMeaning(DecodeConstant(w).out, f) == None
  {
  }

  lemma NoMeaning(b: byte, f: RegisterFile)
    ensures RegisterMeaning([BadByte(b)]) == None && ConstantMeaning([BadByte(b)]) == None
    ensures MemoryMeaning([BadByte(b)], f) == None
  {
  }

  lemma MeaningsIgnoreIp(texts: seq<seq<Piece>>, f: RegisterFile, n: nat)
    ensures AllMeaningful(texts, Advance(f, n)) <==> AllMeaningful(texts, f)
    ensures AllMeaningful(texts, f) ==> Meanings(texts, Advance(f, n)) == Meanings(texts, f)
  {
    hide OperandMeaning, Advance;
    forall k | 0 <= k < |texts|
      ensures OperandMeaning(texts[k], Advance(f, n)) == OperandMeaning(texts[k], f)
    {
      OperandMeaningIgnoresIp(texts[k], f, n);
    }
  }

  lemma MeaningsCons(first: seq<Piece>, texts: seq<seq<Piece>>, f: RegisterFile)
    ensures AllMeaningful([first] + texts, f) <==> OperandMeaning(first, f).Some? && AllMeaningful(texts, f)
    ensures
      AllMeaningful([first] + texts, f) ==>
        Meanings([first] + texts, f) == [OperandMeaning(first, f).value] + Meanings(texts, f)
  {
    hide OperandMeaning;
    var all := [first] + texts;
    assert all[0] == first && all[1..] == texts;
    assert AllMeaningful(all, f) ==> forall k :: 0 <= k < |texts| ==>
      OperandMeaning(texts[k], f) == OperandMeaning(all[k + 1], f);
    if OperandMeaning(first, f).Some? && AllMeaningful(texts, f) {
      assert forall k :: 0 < k < |all| ==> all[k] == texts[k - 1];
    }
  }

  lemma {:induction false} OperandsAgree(f: RegisterFile, m: FlatMemory, w: seq<byte>, count: nat)
    requires Window(f, m, w)
    ensures var (d, c) := (DecodeOperands(w, count), FetchOperands(f, m, count));
            && (c.Got? <==> !d.emptied && AllMeaningful(d.texts, f))
            && (c.Got? ==>
                  && |d.rest| <= |w| && c == Got(Meanings(d.texts, f), Advance(f, |w| - |d.rest|)))
    decreases count
  {
    hide Window, Advance, FetchOperand, DecodeTarget, OperandMeaning, AllMeaningful, Meanings;
    if count == 0 {
      AdvanceNowhere(f);
      assert AllMeaningful([], f) && Meanings([], f) == [] by { NothingMeaningful(f); }
    } else {
      OperandAgrees(f, m, w);
      var d, c := DecodeTarget(w), FetchOperand(f, m);
      if !d.emptied {
        var tail := DecodeOperands(d.rest, count - 1);
        MeaningsCons(d.out, tail.texts, f);
        if c.Got? {
          OperandsAgree(c.file, m, d.rest, count - 1);
          MeaningsIgnoreIp(tail.texts, f, |w| - |d.rest|);
          if FetchOperands(c.file, m, count - 1).Got? {
            AdvanceTwice(f, |w| - |d.rest|, |d.rest| - |tail.rest|);
          }
        }
      }
    }
  }

  lemma NothingMeaningful(f: RegisterFile)
    ensures AllMeaningful([], f) && Meanings([], f) == []
  {
  }

  lemma AdvanceNowhere(f: RegisterFile)
    ensures Advance(f, 0) == f
  {
    hide Load, Store;
    StoreLoaded(f, InstructionPointer);
  }

  /** The two decoders agree on every memory content: the CPU accepts exactly the bytes the
      disassembler shows as one line of meaningful operands, takes as many bytes, and gets
      the operation and operands the line shows. */
  lemma {:induction false} DecodersAgree(f: RegisterFile, m: FlatMemory, w: seq<byte>)
    requires Window(f, m, w)
    ensures var literals: seq<Literal>, rest := DecodeInstruction(w).0, DecodeInstruction(w).1;
            var c := FetchInstruction(f, m);
            && (c.Got? <==> |literals| == 1 && literals[0].Line? && AllMeaningful(literals[0].operands, f))
            && (c.Got? ==>
                  && |rest| <= |w| && c.file == Advance(f, |w| - |rest|)
                  && c.value == CpuInstruction(literals[0].mnemonic, literals[0].width,
                     Meanings(literals[0].operands, f)))
  {
    hide Window, Advance, PopByte, FetchOperands, DecodeOperands, OperandMeaning, MnemonicOf, RequiresWidth;
    hide ArgumentCount;
    FetchPopsByte(f, m, w);
    if w != [] && MnemonicOf(w[0]).Some? {
      var n := MnemonicOf(w[0]).value;
      if !RequiresWidth(n) {
        BodiesAgree(f, m, w, 1, n, None);
      } else {
        FetchPopsByte(Advance(f, 1), m, w[1..]);
        AdvanceTwice(f, 1, 1);
        if |w| > 1 && WidthOf(w[1]).Some? {
          assert w[1..][1..] == w[2..];
          BodiesAgree(f, m, w, 2, n, WidthOf(w[1]));
        }
      }
    }
  }

  /** The operands behind `k` bytes of opcode and width. */
  lemma {:induction false} BodiesAgree(f: RegisterFile, m: FlatMemory, w: seq<byte>, k: nat, n: Mnemonic,
                                       width: Option<Width>)
    requires Window(f, m, w) && k <= |w| && Window(Advance(f, k), m, w[k..])
    ensures var (d, c) := (DecodeOperands(w[k..], ArgumentCount(n)), FetchBody(n, width, Advance(f, k), m));
            && (c.Got? <==> !d.emptied && AllMeaningful(d.texts, f))
            && (c.Got? ==>
                  && |d.rest| <= |w| && c.file == Advance(f, |w| - |d.rest|)
                  && c.value == CpuInstruction(n, width, Meanings(d.texts, f)))
  {
    hide Window, Advance, FetchOperands, DecodeOperands, AllMeaningful, Meanings, ArgumentCount;
    var g, v := Advance(f, k), w[k..];
    OperandsAgree(g, m, v, ArgumentCount(n));
    var d := DecodeOperands(v, ArgumentCount(n));
    MeaningsIgnoreIp(d.texts, f, k);
    if FetchBody(n, width, g, m).Got? {
      AdvanceTwice(f, k, |v| - |d.rest|);
    }
  }

  // ---- encoded programs on the CPU ----

  /** The register a 64-bit register name stands for. */
  function NamedRegister(name: RegisterName): (r: Registers.Register)
    requires name.MatchesPattern() && name.IsWide() && CanonicalRegister(name)
    ensures r.Exists() && r.Size() == 8
  {
    match name
    case SB => StackBase
    case SP => StackPointer
    case CB => CodeBase
    case DB => DataBase
    case DP => DataPointer
    case EB => ExtendedBase
    case EP => ExtendedPointer
    case Numbered(_, digits) =>
      CanonicalNumber(digits);
      FER(DigitsValue(digits))
  }

  lemma CanonicalNumber(digits: string)
    requires |digits| > 0 && AllDigits(digits)
    requires |digits| == 1 || (|digits| == 2 && digits[0] == '1' && digits[1] <= '5')
    ensures DigitsValue(digits) <= 15 && IndexOf(digits) % 256 == DigitsValue(digits)
  {
    if |digits| == 1 {
      assert digits[..0] == [];
    } else {
      assert digits[..1] == ['1'] && digits[..1][..0] == [];
      assert DigitsValue(['1']) == 1;
    }
  }

  function ParameterOperand(p: Parameter, f: RegisterFile): (v: ParameterValue)
    requires EncodableParameter(p) && CanonicalParameter(p)
  {
    match p
    case RegisterParameter(name) => ParameterValue(Load(f, NamedRegister(name)), W64)
    case ConstantParameter(width, value) => ParameterValue(value, width)
  }

  /** What the CPU should make of a source operand in a given register file. */
  function OperandOf(t: Target, f: RegisterFile): CpuOperand
    requires EncodableTarget(t) && CanonicalTarget(t)
  {
    match t
    case Register(name) => RegisterOperand(EncRegister(name)[1], EncRegister(name)[2])
    case Constant(width, value) => ConstantOperand(value, width.Prefix())
    case Memory(ratio, width, base, offset1, offset2) =>
      var b, o, p := ParameterOperand(base, f), ParameterOperand(offset1, f), ParameterOperand(offset2, f);
      MemoryOperand(Wrap64((b.value + o.value + TwosComplement(p.value, p.width)) * ratio.Factor()), width.Prefix())
  }

  lemma {:induction false} NamedRegisterMeaning(name: RegisterName, f: RegisterFile)
    requires name.MatchesPattern() && name.IsWide() && CanonicalRegister(name)
    ensures ParameterMeaning([ShowRegister(name)], f) == Some(ParameterValue(Load(f, NamedRegister(name)), W64))
  {
    hide Load;
    if name.Numbered? {
      PatternDigits(name);
      CanonicalNumber(name.digits);
    }
  }

  lemma {:induction false} ParameterShown(p: Parameter, f: RegisterFile)
    requires EncodableParameter(p) && CanonicalParameter(p)
    ensures ParameterMeaning(ShowParameter(p), f) == Some(ParameterOperand(p, f))
  {
    hide Load, NamedRegister;
    match p {
      case RegisterParameter(name) => NamedRegisterMeaning(name, f);
      case ConstantParameter(_, _) =>
    }
  }

  lemma {:induction false} TargetShown(t: Target, f: RegisterFile)
    requires EncodableTarget(t) && CanonicalTarget(t)
    ensures OperandMeaning(Show(t), f) == Some(OperandOf(t, f))
  {
    hide ParameterMeaning, ParameterOperand, ShowParameter, EncodableParameter, CanonicalParameter, Wrap64;
    hide TwosComplement;
    match t {
      case Register(name) =>
        if name.Numbered? {
          PatternDigits(name);
        }
      case Constant(_, _) =>
      case Memory(_, _, base, offset1, offset2) =>
        ParameterShown(base, f);
        ParameterShown(offset1, f);
        ParameterShown(offset2, f);
    }
  }

  /** An encoded instruction placed at CB:IP is what the CPU decodes: same operation, width
      and operands, every memory address evaluated, and IP just past the encoding. */
  lemma {:induction false} CpuRunsEncoding(i: Instruction, f: RegisterFile, m: FlatMemory, rest: seq<byte>)
    requires Accepts(i) && Canonical(i) && Window(f, m, Encode(i) + rest)
    ensures var c := FetchInstruction(f, m);
            && c.Got? && c.file == Advance(f, |Encode(i)|)
            && c.value.mnemonic == i.mnemonic && c.value.width == i.width
            && |c.value.operands| == |i.operands|
            && forall k :: 0 <= k < |i.operands| ==> c.value.operands[k] == OperandOf(i.operands[k], f)
  {
    hide Window, Advance, Encode, OperandMeaning, OperandOf, Show, DecodeInstruction, FetchInstruction;
    hide EncodableTarget, CanonicalTarget, WidthConsistent, PassesSanityCheck, ArgumentCount, RequiresWidth;
    InstructionRoundTrip(i, rest);
    DecodersAgree(f, m, Encode(i) + rest);
    var texts := ShowAll(i.operands);
    forall k | 0 <= k < |texts|
      ensures OperandMeaning(texts[k], f) == Some(OperandOf(i.operands[k], f))
    {
      assert i.operands == CheckedOperands(i);
      TargetShown(i.operands[k], f);
    }
  }
}
