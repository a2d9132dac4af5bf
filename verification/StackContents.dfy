/** What the stack instructions move, in bytes of memory and values of registers. */
module StackContents {
  import opened Bytes
  import opened Operands
  import opened Registers
  import opened Memory
  import opened CpuDecoder
  import opened Machine
  import opened StackOperations
  import opened StackRuns

  /** The address a base and a pointer name together, round the address space. */
  function AddressOf(base: u64, pointer: int): u64 {
    Wrap64(base + pointer)
  }

  /** The top of the stack, `n` bytes above where the stack pointer stands. */
  function Top(s: State, n: nat): u64 {
    AddressOf(Load(s.file, StackBase), Load(s.file, StackPointer) + n)
  }

  /** `data` was pushed: it lies right below the old top, no other byte of memory and no register
      but SP changed. */
  ghost predicate PushedBytes(s: State, t: State, data: seq<byte>) {
    var top, n := Top(s, 0), |data|;
    && n <= top <= |s.mem| == |t.mem| && t.mem[top - n..top] == data
    && (forall k :: 0 <= k < |s.mem| && !(top - n <= k < top) ==> t.mem[k] == s.mem[k])
    && Load(s.file, StackPointer) >= n && Load(t.file, StackPointer) == Load(s.file, StackPointer) - n
    && forall r: Registers.Register :: r.Exists() && r != StackPointer ==> Load(t.file, r) == Load(s.file, r)
  }

  lemma {:induction false} PushLands(s: State, data: seq<byte>)
    requires 0 < |data| <= 256 && Push(s, data).Some?
    ensures PushedBytes(s, Push(s, data).value, data)
  {
    hide Load, Store, Push;
    PushGoesBelowTop(s, data);
    SpliceBelow(s.mem, TopAddress(s.file), data);
    forall r: Registers.Register | r.Exists() && r != StackPointer
      ensures Load(Push(s, data).value.file, r) == Load(s.file, r)
    {
      PushKeepsRegister(s, data, r);
    }
  }

  /** A pop succeeds exactly where the bytes at the top lie in memory; it takes them, moves SP
      above them and changes nothing else. */
  lemma {:induction false} PopTakes(s: State, n: nat)
    requires 0 < n <= 256
    ensures Pop(s, n).Some? <==> Top(s, 0) + n <= |s.mem|
    ensures
      Pop(s, n).Some? ==>
        var (data, t) := Pop(s, n).value;
        && data == s.mem[Top(s, 0)..Top(s, 0) + n] && t.mem == s.mem
        && Load(t.file, StackPointer) == Wrap64(Load(s.file, StackPointer) + n)
        && forall r: Registers.Register :: r.Exists() && r != StackPointer ==> Load(t.file, r) == Load(s.file, r)
  {
    hide Load, Store, Refuses, Wrap64;
    SmallAccess(|s.mem|, TopAddress(s.file), n);
    LoadStoredWide(s.file, StackPointer, Wrap64(Load(s.file, StackPointer) + n));
    if Pop(s, n).Some? {
      forall r: Registers.Register | r.Exists() && r != StackPointer
        ensures Load(Pop(s, n).value.1.file, r) == Load(s.file, r)
      {
        PopElsewhere(s, n, r);
      }
    }
  }

  // ---- push and pop ----

  /** A push stores the low bytes of its operand, lowest first. */
  lemma {:induction false} PushStores(s: State, w: Width, source: CpuOperand)
    requires Execute(s, PushOp(w, source)).fault.None?
    ensures var (t, n, top) := (Execute(s, PushOp(w, source)).state, w.Size(), Top(s, 0));
            && GetVal(s, source).Done? && n <= top <= |t.mem|
            && PushedBytes(s, t, t.mem[top - n..top])
            && FromLe(t.mem[top - n..top]) == GetVal(s, source).value % Pow256(n)
  {
    hide Load, Push, GetVal, Le, FromLe, Top;
    var v := GetVal(s, source).value;
    PushLands(s, Le(v, w.Size()));
    FromLeOfLe(v, w.Size());
  }

  /** A pop writes the number at the top, lowest byte first, to its target, after SP has moved. */
  lemma {:induction false} PopDelivers(s: State, w: Width, target: CpuOperand)
    requires Execute(s, PopOp(w, target)).fault.None?
    ensures Top(s, 0) + w.Size() <= |s.mem|
    ensures FromLe(s.mem[Top(s, 0)..Top(s, 0) + w.Size()]) < TWO64 && Pop(s, w.Size()).Some?
    ensures
      SetVal(Pop(s, w.Size()).value.1, target, FromLe(s.mem[Top(s, 0)..Top(s, 0) + w.Size()])) ==
      Done(Execute(s, PopOp(w, target)).state)
  {
    hide Load, Pop, SetVal, FromLe, Top;
    PopTakes(s, w.Size());
    PoppedFits(Pop(s, w.Size()).value.0, w.Size());
  }

  // ---- all registers ----

  lemma {:induction false} FrameHolds(f: RegisterFile, k: nat, j: nat)
    requires j < k <= |SAVED| && SAVED[j].Exists()
    ensures FromLe(SaveFrame(f, k)[8 * j..8 * j + 8]) == Load(f, SAVED[j])
  {
    hide Load, SaveFrame, FromLe;
    SavedWord(f, k, j);
  }

  /** A push of all registers leaves each of the 24 in its place below the old top: %FER0 lowest,
      then the others in the order of the register file, CB and IP left out. */
  lemma {:induction false} PushAllStores(s: State, j: nat)
    requires Execute(s, PushAll).fault.None? && j < |SAVED|
    ensures var (t, top) := (Execute(s, PushAll).state, Top(s, 0));
            && 192 <= top <= |t.mem| && PushedBytes(s, t, t.mem[top - 192..top])
            && SAVED[j].Exists() && SAVED[j].Size() == 8 && SAVED[j].Slot() == (if j < 19 then j else j + 2)
            && FromLe(t.mem[top - 192 + 8 * j..top - 192 + 8 * j + 8]) == Load(s.file, SAVED[j])
  {
    hide Load, Push, SaveFrame, FromLe, Top;
    var (t, top, frame) := (Execute(s, PushAll).state, Top(s, 0), SaveFrame(s.file, |SAVED|));
    SavedSlot(j);
    PushLands(s, frame);
    FrameHolds(s.file, |SAVED|, j);
    WordOfSlice(t.mem, top - 192, top, frame, 8 * j);
  }

  lemma WordOfSlice(m: seq<byte>, from: nat, to: nat, data: seq<byte>, at: nat)
    requires from <= to <= |m| && m[from..to] == data && at + 8 <= |data|
    ensures m[from + at..from + at + 8] == data[at..at + 8]
  {
    SliceOfSlice(m, from, to, at, 8);
  }

  lemma FrameWordIs(frame: seq<byte>, j: nat)
    requires 8 * j + 8 <= |frame|
    ensures FrameWord(frame, j) == FromLe(frame[8 * j..8 * j + 8])
  {
    hide FromLe;
  }

  /** A pop of all registers loads each from its place above the top, SP included. */
  lemma {:induction false} PopAllDelivers(s: State, j: nat)
    requires Execute(s, PopAll).fault.None? && j < |SAVED|
    ensures var (t, top) := (Execute(s, PopAll).state, Top(s, 0));
            && top + 192 <= |s.mem| && t.mem == s.mem && SAVED[j].Exists()
            && Load(t.file, SAVED[j]) == FromLe(s.mem[top + 8 * j..top + 8 * j + 8])
  {
    hide Load, Pop, RestoreFrame, FromLe, Top, FrameWord;
    PopTakes(s, 192);
    var (data, u) := Pop(s, 8 * |SAVED|).value;
    SavedSlot(j);
    RestoredWord(u.file, data, |SAVED|, j);
    FrameWordIs(data, j);
    WordOfSlice(s.mem, Top(s, 0), Top(s, 0) + 192, data, 8 * j);
  }

  // ---- call and return ----

  /** Both words of a call are pushed: code base above instruction pointer, nothing else changed. */
  ghost predicate ReturnAddressPushed(s: State, u: State) {
    var top := Top(s, 0);
    && 16 <= top <= |s.mem| == |u.mem|
    && FromLe(u.mem[top - 8..top]) == Load(s.file, CodeBase)
    && FromLe(u.mem[top - 16..top - 8]) == Load(s.file, InstructionPointer)
    && (forall k :: 0 <= k < |s.mem| && !(top - 16 <= k < top) ==> u.mem[k] == s.mem[k])
    && Load(u.file, StackPointer) == Load(s.file, StackPointer) - 16
    && forall r: Registers.Register :: r.Exists() && r != StackPointer ==> Load(u.file, r) == Load(s.file, r)
  }

  lemma {:induction false} TwoWordsPushed(s: State, t: State, u: State, v: u64, w: u64)
    requires PushedBytes(s, t, Le(v, 8)) && PushedBytes(t, u, Le(w, 8))
    ensures var top := Top(s, 0);
            && 16 <= top <= |s.mem| == |u.mem|
            && u.mem[top - 8..top] == Le(v, 8) && u.mem[top - 16..top - 8] == Le(w, 8)
            && (forall k :: 0 <= k < |s.mem| && !(top - 16 <= k < top) ==> u.mem[k] == s.mem[k])
            && Load(u.file, StackPointer) == Load(s.file, StackPointer) - 16
  {
    hide Load, Le;
    var top := Top(s, 0);
    TopBelow(Load(s.file, StackBase), Load(s.file, StackPointer), 8);
    assert Top(t, 0) == top - 8;
    assert u.mem[top - 8..top] == t.mem[top - 8..top];
  }

  lemma TopBelow(base: u64, pointer: u64, n: nat)
    requires n <= AddressOf(base, pointer)
    ensures AddressOf(base, pointer - n) == AddressOf(base, pointer) - n
  {
  }

  lemma {:induction false} WordBack(v: u64)
    ensures FromLe(Le(v, 8)) == v
  {
    hide Le, FromLe;
    FromLeOfLe(v, 8);
    Pow256Values();
  }

  /** A call pushes CB and IP and goes to its two operands, read once both words are pushed. */
  lemma {:induction false} CallGoes(s: State, base: CpuOperand, ip: CpuOperand) returns (u: State)
    requires Execute(s, Call(base, ip)).fault.None?
    ensures ReturnAddressPushed(s, u)
    ensures var t := Execute(s, Call(base, ip)).state;
            && GetVal(u, base) == Done(Load(t.file, CodeBase))
            && GetVal(u, ip) == Done(Load(t.file, InstructionPointer))
            && t.mem == u.mem
            && forall r: Registers.Register ::
                 r.Exists() && r != CodeBase && r != InstructionPointer ==> Load(t.file, r) == Load(u.file, r)
  {
    hide Load, Store, Push, GetVal, Le, FromLe, Top, JumpFile, StackKept;
    var cb, here := Load(s.file, CodeBase), Load(s.file, InstructionPointer);
    var first := Push(s, Le(cb, 8)).value;
    PushLands(s, Le(cb, 8));
    u := Push(first, Le(here, 8)).value;
    PushLands(first, Le(here, 8));
    TwoWordsPushed(s, first, u, cb, here);
    WordBack(cb);
    WordBack(here);
    var b, p := GetVal(u, base).value, GetVal(u, ip).value;
    JumpKeepsStack(u, b, p);
    forall r: Registers.Register | r.Exists() && r != CodeBase && r != InstructionPointer
      ensures Load(JumpFile(u.file, b, p), r) == Load(u.file, r)
    {
      JumpElsewhere(u.file, b, p, r);
    }
  }

  /** A call to constants goes there. */
  lemma CallToConstants(s: State, base: u64, ip: u64, w: byte, x: byte)
    requires Execute(s, Call(ConstantOperand(base, w), ConstantOperand(ip, x))).fault.None?
    ensures var t := Execute(s, Call(ConstantOperand(base, w), ConstantOperand(ip, x))).state;
            Load(t.file, CodeBase) == base && Load(t.file, InstructionPointer) == ip
  {
    hide Execute, Load, ReturnAddressPushed;
    var u := CallGoes(s, ConstantOperand(base, w), ConstantOperand(ip, x));
  }

  lemma {:induction false} PopWordTakes(s: State)
    ensures PopWord(s).Some? <==> Top(s, 0) + 8 <= |s.mem|
    ensures
      PopWord(s).Some? ==>
        var (v, t) := PopWord(s).value;
        && v == FromLe(s.mem[Top(s, 0)..Top(s, 0) + 8]) && t.mem == s.mem && Top(t, 0) == Top(s, 8)
        && Load(t.file, StackPointer) == Wrap64(Load(s.file, StackPointer) + 8)
  {
    hide Load, Pop, FromLe, AddressOf, Wrap64;
    PopTakes(s, 8);
    SteppedTop(Load(s.file, StackBase), Load(s.file, StackPointer));
  }

  /** A return takes IP from the top and CB from the word above it. */
  lemma {:induction false} RetGoes(s: State)
    requires Execute(s, Ret).fault.None?
    ensures var t := Execute(s, Ret).state;
            && t.mem == s.mem && Top(s, 0) + 8 <= |s.mem| && Top(s, 8) + 8 <= |s.mem|
            && Load(t.file, InstructionPointer) == FromLe(s.mem[Top(s, 0)..Top(s, 0) + 8])
            && Load(t.file, CodeBase) == FromLe(s.mem[Top(s, 8)..Top(s, 8) + 8])
            && Load(t.file, StackPointer) == Wrap64(Load(s.file, StackPointer) + 16)
  {
    hide Load, PopWord, FromLe, JumpFile, StackKept, Wrap64, Top;
    PopWordTakes(s);
    var (ip, u) := PopWord(s).value;
    PopWordTakes(u);
    var (cb, v) := PopWord(u).value;
    SteppedTop(Load(s.file, StackBase), Load(s.file, StackPointer));
    JumpKeepsStack(v, cb, ip);
    JumpElsewhere(v.file, cb, ip, StackPointer);
  }

  lemma SteppedTop(base: u64, pointer: u64)
    ensures AddressOf(base, Wrap64(pointer + 8)) == AddressOf(base, pointer + 8)
    ensures Wrap64(Wrap64(pointer + 8) + 8) == Wrap64(pointer + 16)
  {
    hide Wrap64;
    WrapTwice(pointer + 8, base);
    WrapTwice(pointer + 8, 8);
    assert base + Wrap64(pointer + 8) == Wrap64(pointer + 8) + base;
  }
}
