/** Where a fetch ends: the fields of an instruction read one by one off the bytes at CB:IP. */
module FetchFaults {
  import opened Bytes
  import opened InstructionSet
  import opened Operands
  import opened Registers
  import opened CpuDecoder
  import opened TwoDecoders

  /** What is read next. The index of a register inside a memory operand must select one. */
  datatype Field =
    | OpcodeField
    | WidthField(mnemonic: Mnemonic)
    | OperandField
    | RegisterWidth(inMemory: bool) | RegisterIndex(inMemory: bool, width: byte)
    | ConstantWidth | ConstantValue(number: Width)
    | MemoryWidth | PartField | RatioField(width: byte)

  function FieldSize(x: Field): (n: nat)
    ensures 1 <= n <= 8
  {
    if x.ConstantValue? then x.number.Size() else 1
  }

  function OperandFields(count: nat): seq<Field> {
    seq(count, _ => OperandField)
  }

  /** The fields a byte calls for when it is read as the given field; none where it is illegal.
      The width of a memory operand is looked at together with its ratio. */
  ghost function CalledFor(x: Field, b: byte): Option<seq<Field>> {
    match x
    case OpcodeField =>
      (match MnemonicOf(b)
       case None => None
       case Some(m) => Some(if RequiresWidth(m) then [WidthField(m)] else OperandFields(ArgumentCount(m))))
    case WidthField(m) => if CodedSize(b) == 0 then None else Some(OperandFields(ArgumentCount(m)))
    case OperandField =>
      if b == 0x01 then Some([RegisterWidth(false)])
      else if b == 0x02 then Some([ConstantWidth])
      else if b == 0x03 then Some([MemoryWidth])
      else None
    case RegisterWidth(inMemory) => Some([RegisterIndex(inMemory, b)])
    case RegisterIndex(inMemory, width) => if inMemory && SelectRegister(width, b).None? then None else Some([])
    case ConstantWidth => if WidthOf(b).None? then None else Some([ConstantValue(WidthOf(b).value)])
    case ConstantValue(_) => Some([])
    case MemoryWidth => Some([PartField, PartField, PartField, RatioField(b)])
    case PartField =>
      if b == 0x01 then Some([RegisterWidth(true)])
      else if b == 0x02 then Some([ConstantWidth])
      else None
    case RatioField(width) => if RatioOf(b).None? || CodedSize(width) == 0 then None else Some([])
  }

  /** How reading ends: with every field read, at a field longer than what is left, or behind a
      field that is illegal. */
  datatype End = Complete(at: nat) | Short(at: nat) | Illegal(at: nat)

  ghost function ReadFields(fields: seq<Field>, w: seq<byte>, at: nat): (e: End)
    requires at <= |w|
    ensures e.at <= |w|
    decreases |w| - at
  {
    if fields == [] then Complete(at)
    else
      var n := FieldSize(fields[0]);
      if |w| - at < n then Short(at)
      else
        match CalledFor(fields[0], w[at])
        case None => Illegal(at + n)
        case Some(more) => ReadFields(more + fields[1..], w, at + n)
  }

  lemma {:induction false} ReadBoth(a: seq<Field>, b: seq<Field>, w: seq<byte>, at: nat)
    requires at <= |w|
    ensures
      ReadFields(a + b, w, at) ==
      if ReadFields(a, w, at).Complete? then ReadFields(b, w, ReadFields(a, w, at).at) else ReadFields(a, w, at)
    decreases |w| - at
  {
    hide CalledFor;
    if a == [] {
      assert a + b == b;
    } else {
      var n := FieldSize(a[0]);
      assert (a + b)[0] == a[0] && (a + b)[1..] == a[1..] + b;
      if |w| - at >= n {
        var more := CalledFor(a[0], w[at]);
        if more.Some? {
          assert more.value + (a[1..] + b) == more.value + a[1..] + b;
          ReadBoth(more.value + a[1..], b, w, at + n);
        }
      }
    }
  }

  /** A fetch from `f` on does what reading the fields says. */
  ghost predicate EndsAs<T>(c: Fetch<T>, e: End, f: RegisterFile) {
    match e
    case Complete(at) => c.Got? && c.file == Advance(f, at)
    case Short(at) => c == Raised(StackOverflow, Advance(f, at))
    case Illegal(at) => c == Raised(IllegalInstruction, Advance(f, at))
  }

  /** Reading a number somewhere behind the start. */
  lemma {:induction false} CodeAt(f: RegisterFile, m: FlatMemory, w: seq<byte>, at: nat, n: Width)
    requires Window(f, m, w) && at <= |w|
    ensures
      if |w| - at < n.Size() then PopCode(Advance(f, at), m, n) == Raised(StackOverflow, Advance(f, at))
      else PopCode(Advance(f, at), m, n) == Got(FromLe(w[at..at + n.Size()]), Advance(f, at + n.Size()))
  {
    hide Window, Advance, PopCode, FromLe;
    AdvanceMovesWindow(f, m, w, at);
    FetchPopsWindow(Advance(f, at), m, w[at..], n);
    AdvanceTwice(f, at, n.Size());
    if |w| - at >= n.Size() {
      assert w[at..][..n.Size()] == w[at..at + n.Size()];
    }
  }

  lemma {:induction false} ByteAt(f: RegisterFile, m: FlatMemory, w: seq<byte>, at: nat)
    requires Window(f, m, w) && at <= |w|
    ensures
      if at == |w| then PopByte(Advance(f, at), m) == Raised(StackOverflow, Advance(f, at))
      else PopByte(Advance(f, at), m) == Got(w[at], Advance(f, at + 1))
  {
    hide Window, Advance, PopByte;
    AdvanceMovesWindow(f, m, w, at);
    FetchPopsByte(Advance(f, at), m, w[at..]);
    AdvanceTwice(f, at, 1);
  }

  lemma OneField(x: Field, w: seq<byte>, at: nat)
    requires at <= |w|
    ensures
      ReadFields([x], w, at) ==
      var n := FieldSize(x);
      if |w| - at < n then Short(at)
      else if CalledFor(x, w[at]).None? then Illegal(at + n)
      else ReadFields(CalledFor(x, w[at]).value, w, at + n)
  {
    hide CalledFor;
    var more := if |w| > at then CalledFor(x, w[at]) else None;
    assert [x][1..] == [];
    if more.Some? {
      assert more.value + [] == more.value;
    }
  }

  lemma NoField(w: seq<byte>, at: nat)
    requires at <= |w|
    ensures ReadFields([], w, at) == Complete(at)
  {
  }

  lemma {:induction false} RegisterEnds(f: RegisterFile, m: FlatMemory, w: seq<byte>, at: nat)
    requires Window(f, m, w) && at <= |w|
    ensures var c := FetchRegister(Advance(f, at), m);
            && EndsAs(c, ReadFields([RegisterWidth(false)], w, at), f)
            && (c.Got? ==> at + 2 <= |w| && c == Got(RegisterCode(w[at], w[at + 1]), Advance(f, at + 2)))
            && (ReadFields([RegisterWidth(true)], w, at) ==
                if c.Got? && SelectRegister(w[at], w[at + 1]).None? then Illegal(at + 2)
                else ReadFields([RegisterWidth(false)], w, at))
  {
    hide Window, Advance, PopByte, ReadFields, SelectRegister;
    ByteAt(f, m, w, at);
    OneField(RegisterWidth(false), w, at);
    OneField(RegisterWidth(true), w, at);
    if at < |w| {
      ByteAt(f, m, w, at + 1);
      OneField(RegisterIndex(false, w[at]), w, at + 1);
      OneField(RegisterIndex(true, w[at]), w, at + 1);
      if at + 1 < |w| {
        NoField(w, at + 2);
      }
    }
  }

  lemma {:induction false} ConstantEnds(f: RegisterFile, m: FlatMemory, w: seq<byte>, at: nat)
    requires Window(f, m, w) && at <= |w|
    ensures EndsAs(FetchConstant(Advance(f, at), m), ReadFields([ConstantWidth], w, at), f)
  {
    hide Window, Advance, PopByte, PopCode, ReadFields, FromLe;
    ByteAt(f, m, w, at);
    OneField(ConstantWidth, w, at);
    if at < |w| && WidthOf(w[at]).Some? {
      var n := WidthOf(w[at]).value;
      CodeAt(f, m, w, at + 1, n);
      OneField(ConstantValue(n), w, at + 1);
      if |w| - at - 1 >= n.Size() {
        NoField(w, at + 1 + n.Size());
      }
    }
  }

  lemma {:induction false} PartEnds(f: RegisterFile, m: FlatMemory, w: seq<byte>, at: nat)
    requires Window(f, m, w) && at <= |w|
    ensures EndsAs(FetchParameter(Advance(f, at), m), ReadFields([PartField], w, at), f)
  {
    hide Window, Advance, PopByte, FetchRegister, FetchConstant, ReadFields, Load, SelectRegister;
    ByteAt(f, m, w, at);
    OneField(PartField, w, at);
    if at < |w| {
      if w[at] == REGISTER_PREFIX {
        RegisterEnds(f, m, w, at + 1);
      } else if w[at] == CONSTANT_PREFIX {
        ConstantEnds(f, m, w, at + 1);
      }
    }
  }

  lemma {:induction false} MemoryEnds(f: RegisterFile, m: FlatMemory, w: seq<byte>, at: nat)
    requires Window(f, m, w) && at <= |w|
    ensures EndsAs(FetchMemory(Advance(f, at), m), ReadFields([MemoryWidth], w, at), f)
  {
    hide Window, Advance, PopByte, FetchParameter, ReadFields, SecondOffset, MakeAddress;
    ByteAt(f, m, w, at);
    OneField(MemoryWidth, w, at);
    if at < |w| {
      var ratio := RatioField(w[at]);
      var first := ReadFields([PartField], w, at + 1);
      PartEnds(f, m, w, at + 1);
      ReadBoth([PartField], [PartField, PartField, ratio], w, at + 1);
      assert [PartField] + [PartField, PartField, ratio] == [PartField, PartField, PartField, ratio];
      if first.Complete? {
        var second := ReadFields([PartField], w, first.at);
        PartEnds(f, m, w, first.at);
        ReadBoth([PartField], [PartField, ratio], w, first.at);
        assert [PartField] + [PartField, ratio] == [PartField, PartField, ratio];
        if second.Complete? {
          var third := ReadFields([PartField], w, second.at);
          PartEnds(f, m, w, second.at);
          ReadBoth([PartField], [ratio], w, second.at);
          assert [PartField] + [ratio] == [PartField, ratio];
          if third.Complete? {
            var g, h, i := Advance(f, at + 1), Advance(f, first.at), Advance(f, second.at);
            var offset2 := FetchParameter(i, m).value;
            RatioEnds(f, m, w, third.at, w[at], FetchParameter(g, m).value.value, FetchParameter(h, m).value.value,
                      SecondOffset(offset2.value, offset2.width));
          }
        }
      }
    }
  }

  lemma {:induction false} RatioEnds(f: RegisterFile, m: FlatMemory, w: seq<byte>, at: nat, width: byte,
                                      base: u64, offset1: u64, offset2: int)
    requires Window(f, m, w) && at <= |w|
    ensures var e := ReadFields([RatioField(width)], w, at);
            if at == |w| then e == Short(at) && PopByte(Advance(f, at), m) == Raised(StackOverflow, Advance(f, at))
            else
              && PopByte(Advance(f, at), m) == Got(w[at], Advance(f, at + 1))
              && EndsAs(FinishMemory(width, base, offset1, offset2, w[at], Advance(f, at + 1)), e, f)
  {
    hide Window, Advance, PopByte, ReadFields, MakeAddress;
    ByteAt(f, m, w, at);
    OneField(RatioField(width), w, at);
    WidthCodes(width);
    if at < |w| {
      NoField(w, at + 1);
    }
  }

  lemma {:induction false} OperandEnds(f: RegisterFile, m: FlatMemory, w: seq<byte>, at: nat)
    requires Window(f, m, w) && at <= |w|
    ensures EndsAs(FetchOperand(Advance(f, at), m), ReadFields([OperandField], w, at), f)
  {
    hide Window, Advance, PopByte, FetchRegister, FetchConstant, FetchMemory, ReadFields;
    ByteAt(f, m, w, at);
    OneField(OperandField, w, at);
    if at < |w| {
      if w[at] == REGISTER_PREFIX {
        RegisterEnds(f, m, w, at + 1);
      } else if w[at] == CONSTANT_PREFIX {
        ConstantEnds(f, m, w, at + 1);
      } else if w[at] == MEMORY_PREFIX {
        MemoryEnds(f, m, w, at + 1);
      }
    }
  }

  lemma {:induction false} OperandsEnd(f: RegisterFile, m: FlatMemory, w: seq<byte>, at: nat, count: nat)
    requires Window(f, m, w) && at <= |w|
    ensures EndsAs(FetchOperands(Advance(f, at), m, count), ReadFields(OperandFields(count), w, at), f)
    decreases count
  {
    hide Window, Advance, FetchOperand, ReadFields;
    if count == 0 {
      NoField(w, at);
    } else {
      OperandEnds(f, m, w, at);
      var first := ReadFields([OperandField], w, at);
      assert OperandFields(count) == [OperandField] + OperandFields(count - 1);
      ReadBoth([OperandField], OperandFields(count - 1), w, at);
      if first.Complete? {
        OperandsEnd(f, m, w, first.at, count - 1);
      }
    }
  }

  /** A fetch succeeds, or runs out of memory, or is illegal exactly as reading the fields at
      CB:IP does, and leaves IP where that ends: in front of a field that is cut short, behind
      one that is illegal. */
  lemma {:induction false} FetchEnds(f: RegisterFile, m: FlatMemory, w: seq<byte>)
    requires Window(f, m, w)
    ensures EndsAs(FetchInstruction(f, m), ReadFields([OpcodeField], w, 0), f)
  {
    hide Window, Advance, PopByte, FetchOperands, ReadFields, MnemonicOf, RequiresWidth, ArgumentCount;
    AdvanceNowhere(f);
    ByteAt(f, m, w, 0);
    OneField(OpcodeField, w, 0);
    if w != [] && MnemonicOf(w[0]).Some? {
      var n := MnemonicOf(w[0]).value;
      if !RequiresWidth(n) {
        OperandsEnd(f, m, w, 1, ArgumentCount(n));
      } else {
        ByteAt(f, m, w, 1);
        OneField(WidthField(n), w, 1);
        if |w| > 1 {
          WidthCodes(w[1]);
          if WidthOf(w[1]).Some? {
            OperandsEnd(f, m, w, 2, ArgumentCount(n));
          }
        }
      }
    }
  }

  /** A fetch never raises the illegal-memory fault. */
  lemma FetchFaultKinds(f: RegisterFile, m: FlatMemory, w: seq<byte>)
    requires Window(f, m, w) && FetchInstruction(f, m).Raised?
    ensures var c := FetchInstruction(f, m);
            && (c.fault == StackOverflow || c.fault == IllegalInstruction)
            && exists at: nat :: at <= |w| && c.after == Advance(f, at)
  {
    hide Advance, Window, FetchInstruction, ReadFields;
    FetchEnds(f, m, w);
  }

  /** A byte that is no opcode, with nothing behind it looked at. */
  lemma UnknownOpcode(f: RegisterFile, m: FlatMemory, w: seq<byte>)
    requires Window(f, m, w) && w != [] && forall n: Mnemonic :: Opcode(n) != w[0]
    ensures FetchInstruction(f, m) == Raised(IllegalInstruction, Advance(f, 1))
  {
    hide Advance, Window, PopByte, Opcode;
    FetchPopsByte(f, m, w);
  }

  /** A width code that is none. */
  lemma UnknownWidth(f: RegisterFile, m: FlatMemory, w: seq<byte>, n: Mnemonic)
    requires Window(f, m, w) && |w| > 1 && Opcode(n) == w[0] && RequiresWidth(n) && w[1] !in {0x08, 0x16, 0x32, 0x64}
    ensures FetchInstruction(f, m) == Raised(IllegalInstruction, Advance(f, 2))
  {
    hide Advance, Window, PopByte, Opcode, RequiresWidth, FetchOperands;
    FetchPopsByte(f, m, w);
    FetchPopsByte(Advance(f, 1), m, w[1..]);
    AdvanceTwice(f, 1, 1);
    OpcodesAreUnique(n, MnemonicOf(w[0]).value);
  }

  /** Nothing at CB:IP, and an opcode with its width cut off. */
  lemma CutShort(f: RegisterFile, m: FlatMemory, w: seq<byte>)
    requires Window(f, m, w)
    ensures w == [] ==> FetchInstruction(f, m) == Raised(StackOverflow, f)
    ensures
      |w| == 1 && (exists n: Mnemonic :: Opcode(n) == w[0] && RequiresWidth(n)) ==>
        FetchInstruction(f, m) == Raised(StackOverflow, Advance(f, 1))
  {
    hide Advance, Window, PopByte, Opcode, RequiresWidth, FetchOperands;
    FetchPopsByte(f, m, w);
    if |w| == 1 && exists n: Mnemonic :: Opcode(n) == w[0] && RequiresWidth(n) {
      var n: Mnemonic :| Opcode(n) == w[0] && RequiresWidth(n);
      FetchPopsByte(Advance(f, 1), m, w[1..]);
      OpcodesAreUnique(n, MnemonicOf(w[0]).value);
    }
  }
}
