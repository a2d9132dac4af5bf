/** A linked program in memory: what the CPU fetches at its labels. */
module LinkedProgramRuns {
  import opened Bytes
  import opened Registers
  import opened Encoder
  import opened RoundTrip
  import opened CpuDecoder
  import opened TwoDecoders
  import opened Assembler
  import opened Linker
  import opened ObjectLayout
  import opened LinkedProgram

  /** The image lies in memory from its origin on. */
  ghost predicate Loaded(m: FlatMemory, origin: u64, image: seq<seq<byte>>) {
    var end := origin + |Concat(image)|;
    end <= |m| && m[origin..end] == Concat(image)
  }

  lemma {:induction false} ConcatAround(parts: seq<seq<byte>>, n: nat)
    requires n < |parts|
    ensures Concat(parts) == Concat(parts[..n]) + (parts[n] + Concat(parts[n + 1..]))
  {
    ConcatAppend(parts[..n], parts[n..]);
    assert parts[..n] + parts[n..] == parts;
    assert parts[n..][0] == parts[n] && parts[n..][1..] == parts[n + 1..];
  }

  lemma BufferInMemory(m: FlatMemory, origin: u64, image: seq<seq<byte>>, n: nat)
    requires Loaded(m, origin, image) && n < |image|
    ensures var at := origin + |Concat(image[..n])|;
            at + |image[n]| <= |m| && m[at..] == image[n] + m[at + |image[n]|..]
  {
    ConcatAround(image, n);
    PartInMemory(m, origin, Concat(image[..n]), image[n], Concat(image[n + 1..]));
  }

  lemma PartInMemory(m: FlatMemory, origin: u64, a: seq<byte>, b: seq<byte>, c: seq<byte>)
    requires origin + |a + (b + c)| <= |m| && m[origin..origin + |a + (b + c)|] == a + (b + c)
    ensures var at := origin + |a|; at + |b| <= |m| && m[at..] == b + m[at + |b|..]
  {
    var at, all := origin + |a|, a + (b + c);
    assert all[|a|..|a| + |b|] == b;
    assert m[at..at + |b|] == m[origin..origin + |all|][|a|..|a| + |b|];
  }

  /** The CPU fetches this instruction, its operands evaluated, and moves IP behind it. */
  ghost predicate Fetches(f: RegisterFile, m: FlatMemory, i: Instruction)
    requires Accepts(i) && Canonical(i)
  {
    var c := FetchInstruction(f, m);
    && c.Got? && c.file == Advance(f, |Encode(i)|)
    && c.value.mnemonic == i.mnemonic && c.value.width == i.width
    && |c.value.operands| == |i.operands|
    && forall k :: 0 <= k < |i.operands| ==> c.value.operands[k] == OperandOf(i.operands[k], f)
  }

  lemma {:induction false} BufferIsFetched(m: FlatMemory, origin: u64, image: seq<seq<byte>>, n: nat, i: Instruction,
                                           f: RegisterFile)
    requires Loaded(m, origin, image) && n < |image|
    requires Accepts(i) && Canonical(i) && image[n] == Encode(i)
    requires CodeAddress(f) == Wrap64(origin + |Concat(image[..n])|)
    ensures Fetches(f, m, i)
    ensures CodeAddress(FetchInstruction(f, m).file) == Wrap64(origin + |Concat(image[..n + 1])|)
  {
    hide Loaded, FetchInstruction, Accepts, Canonical, Encode, OperandOf, Concat, Advance, CodeAddress;
    var at, size := origin + |Concat(image[..n])|, |Encode(i)|;
    BufferInMemory(m, origin, image, n);
    var rest := m[at + size..];
    WindowAt(f, m, at);
    CpuRunsEncoding(i, f, m, rest);
    AdvanceMovesWindow(f, m, Encode(i) + rest, size);
    WindowSize(Advance(f, size), m, rest, at + size);
    assert image[..n + 1] == image[..n] + [image[n]];
    ConcatSnoc(image[..n], image[n]);
  }

  lemma WindowAt(f: RegisterFile, m: FlatMemory, at: nat)
    requires at <= |m| && CodeAddress(f) == Wrap64(at)
    ensures Window(f, m, m[at..])
  {
    hide Load;
  }

  lemma WindowSize(f: RegisterFile, m: FlatMemory, w: seq<byte>, at: nat)
    requires Window(f, m, w) && at <= |m| && w == m[at..]
    ensures CodeAddress(f) == Wrap64(at)
  {
    hide Load;
  }

  /** From the linked image loaded at its origin, wherever CB:IP stands at a line's code the CPU
      fetches that line's instruction with addresses for symbols, if that is canonical, and
      CB:IP then stands behind the line's code. */
  lemma {:induction false} LineIsFetched(files: seq<SourceFile>, origin: u64, bc: Calculator, f: nat, l: nat,
                                         file: RegisterFile, m: FlatMemory)
    requires forall g :: g in files ==> DistinctDeclarations(g)
    requires Build(files, origin, bc).Ok? && Loaded(m, origin, Build(files, origin, bc).value)
    requires f < |files| && l < |files[f].lines| && files[f].lines[l].Code?
    requires LinesBefore(files, f, l) <= |Build(files, origin, bc).value|
    requires Canonical(Resolved(files[f].lines[l].source, Symbols(files, origin)))
    requires
      var image := Build(files, origin, bc).value;
      CodeAddress(file) == Wrap64(origin + |Concat(image[..LinesBefore(files, f, l)])|)
    ensures
      var (image, n, i) := (Build(files, origin, bc).value, LinesBefore(files, f, l),
                            Resolved(files[f].lines[l].source, Symbols(files, origin)));
      && n < |image| && Accepts(i) && Fetches(file, m, i)
      && CodeAddress(FetchInstruction(file, m).file) == Wrap64(origin + |Concat(image[..n + 1])|)
  {
    hide Build, LinesBefore, Symbols, BindingsOf, DistinctDeclarations, AssembleAll, FetchInstruction, Canonical;
    hide CodeAddress;
    hide Accepts, Encode, Resolved, Loaded, Fetches, Concat, Wrap64;
    LinkedImage(files, origin, bc, f, l);
    var i := Resolved(files[f].lines[l].source, Symbols(files, origin));
    BufferIsFetched(m, origin, Build(files, origin, bc).value, LinesBefore(files, f, l), i, file);
  }

  /** Jumping to a label runs the program: with the linked image loaded at its origin and CB:IP
      at the label's address, the CPU fetches the first instruction behind the label, in the same
      file or a later one, as its line with addresses for symbols, if that is canonical. */
  lemma {:induction false} LabelIsEntered(files: seq<SourceFile>, origin: u64, bc: Calculator, f: nat, l: nat,
                                          g: nat, k: nat, file: RegisterFile, m: FlatMemory)
    requires forall h :: h in files ==> DistinctDeclarations(h)
    requires Build(files, origin, bc).Ok? && Loaded(m, origin, Build(files, origin, bc).value)
    requires f < |files| && l < |files[f].lines| && files[f].lines[l].Label?
    requires g < |files| && k < |files[g].lines| && files[g].lines[k].Code?
    requires LinesBefore(files, g, k) == LinesBefore(files, f, l)
    requires CodeAddress(file) == At(Symbols(files, origin), files[f].lines[l].name).address
    ensures
      var i := Resolved(files[g].lines[k].source, Symbols(files, origin));
      Accepts(i) && (Canonical(i) ==> Fetches(file, m, i))
  {
    hide Build, LinesBefore, Symbols, BindingsOf, DistinctDeclarations, AssembleAll, FetchInstruction, Canonical;
    hide CodeAddress;
    hide Accepts, Encode, Resolved, Loaded, Fetches, Concat, Wrap64, At;
    LabelLayout(files, origin, bc, f, l);
    LinkedImage(files, origin, bc, g, k);
    if Canonical(Resolved(files[g].lines[k].source, Symbols(files, origin))) {
      LineIsFetched(files, origin, bc, g, k, file, m);
    }
  }
}
