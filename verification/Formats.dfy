/** The byte formats by example: two instructions and a symbol table, byte by byte. */
module Formats {
  import opened Bytes
  import opened InstructionSet
  import opened Operands
  import opened Encoder
  import opened SymbolTable

  lemma LeStep(v: nat, n: nat)
    ensures Le(v, n + 1) == [v % 256] + Le(v / 256, n)
  {
  }

  lemma ZeroBytes(n: nat)
    ensures Le(0, n) == seq(n, _ => 0)
  {
    if n > 0 {
      ZeroBytes(n - 1);
    }
  }

  lemma NumberedRegister(kind: Kind, digits: string, n: nat)
    requires |digits| == 1 && '0' <= digits[0] <= '7' && n == digits[0] as int - '0' as int
    ensures EncodableRegister(Numbered(kind, digits))
    ensures EncRegister(Numbered(kind, digits)) == [0x01, kind.Width().Prefix(), n]
  {
    assert digits[..0] == [];
    assert DigitsValue(digits) == n;
  }

  lemma EightBytes()
    ensures Le(0x1122334455667788, 8) == [0x88, 0x77, 0x66, 0x55, 0x44, 0x33, 0x22, 0x11]
  {
    hide Le;
    LeStep(0x1122334455667788, 7);
    LeStep(0x11223344556677, 6);
    LeStep(0x112233445566, 5);
    LeStep(0x1122334455, 4);
    LeStep(0x11223344, 3);
    LeStep(0x112233, 2);
    LeStep(0x1122, 1);
    LeStep(0x11, 0);
    ZeroBytes(0);
  }

  /** A move with its two operands encoded. */
  lemma Move(w: Width, t: Target, u: Target)
    requires EncodableTarget(t) && EncodableTarget(u) && !t.Constant?
    requires WidthConsistent(w, t) && WidthConsistent(w, u)
    ensures var i := Instruction(MOV, Some(w), [t, u]);
            Accepts(i) && Encode(i) == [0x20, w.Prefix()] + EncTarget(t) + EncTarget(u)
  {
    hide EncTarget, EncodableTarget, WidthConsistent;
    assert [t, u][1..] == [u] && [u][1..] == [];
    assert EncTargets([u]) == EncTarget(u) + EncTargets([]);
  }

  /** `MOV .64bit <%FER3>, <$64(0x1122334455667788)>`. */
  lemma MoveConstant()
    ensures
      var i := Instruction(MOV, Some(W64), [Register(Numbered(KindFER, "3")), Constant(W64, 0x1122334455667788)]);
      && Accepts(i)
      && Encode(i) == [0x20, 0x64] + [0x01, 0x64, 0x03]
                      + [0x02, 0x64, 0x88, 0x77, 0x66, 0x55, 0x44, 0x33, 0x22, 0x11]
  {
    hide Le, EncRegister, EncodableRegister, Accepts, Encode;
    NumberedRegister(KindFER, "3", 3);
    EightBytes();
    Move(W64, Register(Numbered(KindFER, "3")), Constant(W64, 0x1122334455667788));
  }

  /** `<*4&16(%SB, $32(0x10), %FER7)>`. */
  lemma MemoryBytes()
    ensures
      var t := Memory(X4, W16, RegisterParameter(SB), ConstantParameter(W32, 0x10),
                      RegisterParameter(Numbered(KindFER, "7")));
      && EncodableTarget(t)
      && EncTarget(t) == [0x03, 0x16] + [0x01, 0x64, 0xA0] + [0x02, 0x32, 0x10, 0x00, 0x00, 0x00]
                         + [0x01, 0x64, 0x07] + [0x04]
  {
    hide Le, EncRegister;
    NumberedRegister(KindFER, "7", 7);
    LeStep(0x10, 3);
    ZeroBytes(3);
    BaseBytes();
  }

  lemma BaseBytes()
    ensures EncodableRegister(SB) && EncRegister(SB) == [0x01, 0x64, 0xA0]
  {
  }

  /** `MOV .16bit <*4&16(%SB, $32(0x10), %FER7)>, <%EXR2>`. */
  lemma MoveToMemory()
    ensures
      var t := Memory(X4, W16, RegisterParameter(SB), ConstantParameter(W32, 0x10),
                      RegisterParameter(Numbered(KindFER, "7")));
      var i := Instruction(MOV, Some(W16), [t, Register(Numbered(KindEXR, "2"))]);
      && Accepts(i)
      && Encode(i) == [0x20, 0x16] + ([0x03, 0x16] + [0x01, 0x64, 0xA0] + [0x02, 0x32, 0x10, 0x00, 0x00, 0x00]
                                      + [0x01, 0x64, 0x07] + [0x04]) + [0x01, 0x16, 0x02]
  {
    hide EncTarget, EncodableTarget, Accepts, Encode;
    var t := Memory(X4, W16, RegisterParameter(SB), ConstantParameter(W32, 0x10),
                    RegisterParameter(Numbered(KindFER, "7")));
    var u := Register(Numbered(KindEXR, "2"));
    MemoryBytes();
    SecondOperand();
    Move(W16, t, u);
  }

  lemma SecondOperand()
    ensures
      var u := Register(Numbered(KindEXR, "2"));
      EncodableTarget(u) && EncTarget(u) == [0x01, 0x16, 0x02] && WidthConsistent(W16, u)
  {
    hide EncRegister, EncodableRegister;
    NumberedRegister(KindEXR, "2", 2);
  }

  /** A symbol table of one symbol, `AB` at 0xC1900. */
  lemma OneSymbol()
    ensures
      TableBytes([Entry([0x41, 0x42], 0xC1900)]) ==
      [0x01, 0x00, 0x00, 0x00, 0x00, 0x00, 0x00, 0x00] + [0x02, 0x00] + [0x41, 0x42]
      + [0x00, 0x19, 0x0C, 0x00, 0x00, 0x00, 0x00, 0x00]
  {
    hide Le;
    var e := Entry([0x41, 0x42], 0xC1900);
    LeStep(1, 7);
    LeStep(2, 1);
    LeStep(0xC1900, 7);
    LeStep(0xC19, 6);
    LeStep(0xC, 5);
    ZeroBytes(7);
    ZeroBytes(1);
    ZeroBytes(5);
    assert Le(1, 8) == [0x01, 0x00, 0x00, 0x00, 0x00, 0x00, 0x00, 0x00];
    assert Le(2, 2) == [0x02, 0x00];
    assert Le(0xC1900, 8) == [0x00, 0x19, 0x0C, 0x00, 0x00, 0x00, 0x00, 0x00];
    assert [e][1..] == [];
    assert EntriesBytes([e]) == EntryBytes(e) + EntriesBytes([]);
  }
}
