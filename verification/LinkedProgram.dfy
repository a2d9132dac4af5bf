/** Building a program from several source files, and what the linked image means. */
module LinkedProgram {
  import opened Bytes
  import opened InstructionSet
  import opened Operands
  import opened Encoder
  import opened Disassembler
  import opened RoundTrip
  import opened Assembler
  import opened Linker
  import opened Patching
  import opened ObjectLayout
  import opened LinkFacts

  /** Assembles file after file, each at the origin where the previous one ended. */
  function AssembleAll(files: seq<SourceFile>, origin: u64): (r: Result<seq<Progress>>)
    ensures r.Ok? ==> |r.value| == |files| && forall p :: p in r.value ==> AllDrafted(p.emitted)
    decreases |files|
  {
    if files == [] then Ok([])
    else
      match Assemble(files[0], origin)
      case Err(e) => Err(e)
      case Ok(p) =>
        match AssembleAll(files[1..], EndOf(p, origin))
        case Err(e) => Err(e)
        case Ok(rest) => Ok([p] + rest)
  }

  function EndOf(p: Progress, origin: u64): u64
    requires AllDrafted(p.emitted)
  {
    Wrap64(origin + |Concat(Drafts(p.emitted))|)
  }

  function Objects(ps: seq<Progress>): (r: seq<ObjectFile>)
    requires forall p :: p in ps ==> AllDrafted(p.emitted)
    ensures |r| == |ps|
  {
    seq(|ps|, k requires 0 <= k < |ps| => ObjectOf(ps[k]))
  }

  ghost predicate AllMatch(ps: seq<Progress>) {
    forall p :: p in ps ==> AllDrafted(p.emitted) && TableMatches(p.table, p.emitted)
  }

  lemma {:induction false} AssembledTablesMatch(files: seq<SourceFile>, origin: u64)
    requires AssembleAll(files, origin).Ok? && forall f :: f in files ==> DistinctDeclarations(f)
    ensures AllMatch(AssembleAll(files, origin).value)
    decreases |files|
  {
    hide Assemble, AllDrafted, TableMatches, DistinctDeclarations, EndOf;
    if files != [] {
      FileTableMatches(files[0], origin);
      AssembledTablesMatch(files[1..], EndOf(Assemble(files[0], origin).value, origin));
    }
  }

  lemma ObjectsAreWellFormed(ps: seq<Progress>)
    requires AllMatch(ps)
    ensures forall o :: o in Objects(ps) ==> WellFormed(o)
  {
    hide AllDrafted, TableMatches, WellFormed;
    forall p | p in ps
      ensures WellFormed(ObjectOf(p))
    {
      ObjectIsWellFormed(p);
    }
  }

  function Build(files: seq<SourceFile>, origin: u64, bc: Calculator): Result<seq<seq<byte>>>
    requires forall f :: f in files ==> DistinctDeclarations(f)
  {
    match AssembleAll(files, origin)
    case Err(e) => Err(e)
    case Ok(ps) =>
      AssembledTablesMatch(files, origin);
      ObjectsAreWellFormed(ps);
      Link(Objects(ps), bc)
  }

  /** The linker's symbol table. */
  function Symbols(files: seq<SourceFile>, origin: u64): SymbolMap {
    match AssembleAll(files, origin)
    case Err(_) => map[]
    case Ok(ps) =>
      match Unify(map[], Objects(ps))
      case Err(_) => map[]
      case Ok(u) => u
  }

  /** How many lines emit code or data before line `l` of file `f`. */
  function LinesBefore(files: seq<SourceFile>, f: nat, l: nat): nat
    requires f < |files| && l <= |files[f].lines|
    decreases f
  {
    if f == 0 then CountEmitting(files[0].lines[..l])
    else CountEmitting(files[0].lines) + LinesBefore(files[1..], f - 1, l)
  }

  function Flat(ps: seq<Progress>): seq<Emission> {
    if ps == [] then [] else ps[0].emitted + Flat(ps[1..])
  }

  lemma {:induction false} FlatIsDrafted(ps: seq<Progress>)
    requires forall p :: p in ps ==> AllDrafted(p.emitted)
    ensures AllDrafted(Flat(ps))
  {
    hide Draft;
    if ps != [] {
      FlatIsDrafted(ps[1..]);
    }
  }

  lemma DraftsAppend(a: seq<Emission>, b: seq<Emission>, n: nat)
    requires AllDrafted(a) && AllDrafted(b) && n <= |b|
    ensures AllDrafted(a + b) && Drafts(a + b)[..|a| + n] == Drafts(a) + Drafts(b)[..n]
  {
    hide Draft;
  }

  /** A label is defined at the origin of the whole program plus everything emitted before it,
      in its own file and in earlier ones. */
  lemma {:induction false} DraftLayout(files: seq<SourceFile>, origin: u64, f: nat, l: nat)
    requires AssembleAll(files, origin).Ok?
    requires f < |files| && l < |files[f].lines| && files[f].lines[l].Label?
    ensures var (ps, n) := (AssembleAll(files, origin).value, LinesBefore(files, f, l));
            && AllDrafted(Flat(ps)) && n <= |Flat(ps)|
            && DefinedAt(ps[f].table, files[f].lines[l].name, Wrap64(origin + |Concat(Drafts(Flat(ps))[..n])|))
    decreases f
  {
    hide AllDrafted, Draft, Concat, Assemble, AssembleAll, Flat, DefinedAt, CountEmitting, Wrap64, Drafts;
    var ps := AssembleAll(files, origin).value;
    AssembledFirst(files, origin);
    FlatIsDrafted(ps);
    FlatIsDrafted(ps[1..]);
    if f == 0 {
      LabelInFile(files[0], origin, l);
      DraftsOfFirst(ps, CountEmitting(files[0].lines[..l]));
    } else {
      DraftLayout(files[1..], EndOf(ps[0], origin), f - 1, l);
      FileLength(files[0], origin);
      DraftsBehindFirst(ps, origin, LinesBefore(files[1..], f - 1, l));
    }
  }

  lemma AssembledFirst(files: seq<SourceFile>, origin: u64)
    requires AssembleAll(files, origin).Ok? && files != []
    ensures var ps := AssembleAll(files, origin).value;
            && Assemble(files[0], origin) == Ok(ps[0])
            && AssembleAll(files[1..], EndOf(ps[0], origin)) == Ok(ps[1..])
            && Flat(ps) == ps[0].emitted + Flat(ps[1..])
  {
    hide Assemble, AllDrafted, EndOf;
  }

  lemma DraftsOfFirst(ps: seq<Progress>, n: nat)
    requires ps != [] && AllDrafted(ps[0].emitted) && AllDrafted(Flat(ps)) && n <= |ps[0].emitted|
    ensures n <= |Flat(ps)| && Drafts(Flat(ps))[..n] == Drafts(ps[0].emitted)[..n]
  {
    hide Draft;
  }

  lemma {:induction false} DraftsBehindFirst(ps: seq<Progress>, origin: u64, n: nat)
    requires ps != [] && AllDrafted(ps[0].emitted) && AllDrafted(Flat(ps[1..])) && AllDrafted(Flat(ps))
    requires n <= |Flat(ps[1..])|
    ensures
      Wrap64(origin + |Concat(Drafts(Flat(ps))[..|ps[0].emitted| + n])|) ==
      Wrap64(EndOf(ps[0], origin) + |Concat(Drafts(Flat(ps[1..]))[..n])|)
  {
    hide AllDrafted, Concat, Wrap64, Drafts;
    var first, rest := ps[0].emitted, Flat(ps[1..]);
    DraftsAppend(first, rest, n);
    ConcatAppend(Drafts(first), Drafts(rest)[..n]);
    WrapTwice(origin + |Concat(Drafts(first))|, |Concat(Drafts(rest)[..n])|);
  }

  lemma FileLength(file: SourceFile, origin: u64)
    requires Assemble(file, origin).Ok?
    ensures |Assemble(file, origin).value.emitted| == CountEmitting(file.lines)
  {
    hide AssembleFrom, AllDrafted;
    StartOfFile();
    LinesAppend(Progress([], InitialTable(file.declared)), file.lines, origin);
  }

  // ---- linking keeps every buffer's length ----

  ghost predicate SameLengths(a: seq<seq<byte>>, b: seq<seq<byte>>) {
    |a| == |b| && forall n :: 0 <= n < |a| ==> |a[n]| == |b[n]|
  }

  lemma {:induction false} SameLengthsConcat(a: seq<seq<byte>>, b: seq<seq<byte>>)
    requires SameLengths(a, b)
    ensures |Concat(a)| == |Concat(b)|
  {
    if a != [] {
      assert a[0] == a[0] && |a[0]| == |b[0]|;
      SameLengthsConcat(a[1..], b[1..]);
    }
  }

  lemma PatchKeepsLength(draft: seq<byte>, address: u64)
    ensures |WithAddress(draft, address)| == |draft|
  {
    hide Search;
    assert |PLACEHOLDER| == 10 == |EncConstant(W64, address)|;
    OccurrenceFits(draft, Search(draft, PLACEHOLDER, 0));
  }

  lemma {:induction false} LinkKeepsLengths(p: Progress, u: SymbolMap, bc: Calculator)
    requires AllDrafted(p.emitted) && TableMatches(p.table, p.emitted) && WellFormed(ObjectOf(p))
    requires LinkObject(ObjectOf(p), u, bc).Ok?
    ensures SameLengths(LinkObject(ObjectOf(p), u, bc).value, Drafts(p.emitted))
  {
    hide Draft, AllDrafted, Finished, LinkObject, TableMatches, WellFormed, Bindings, OnePlaceholderEach, AllDefined;
    LinkObjectPointwise(p, u, bc);
    forall n | 0 <= n < |p.emitted|
      ensures |LinkObject(ObjectOf(p), u, bc).value[n]| == |Drafts(p.emitted)[n]|
    {
      EachDrafted(p.emitted, n);
      FinishingKeepsLength(p.emitted[n], p.table, u, Bindings(p.table, u), bc);
    }
  }

  lemma EachDrafted(es: seq<Emission>, n: nat)
    requires AllDrafted(es) && n < |es|
    ensures Draft(es[n]).Some? && Drafts(es)[n] == Draft(es[n]).value
  {
    hide Draft;
  }

  lemma FinishingKeepsLength(e: Emission, table: seq<Marker>, u: SymbolMap, bindings: seq<Binding>, bc: Calculator)
    requires Draft(e).Some?
    ensures |Finished(e, Draft(e).value, table, u, bindings, bc)| == |Draft(e).value|
  {
    hide Accepts, Encode, WithAddress, Lists, Substitute;
    if RefersInto(e, table) {
      PatchKeepsLength(Draft(e).value, At(u, e.symbol.value).address);
    }
  }

  lemma {:induction false} ImageLengths(ps: seq<Progress>, u: SymbolMap, bc: Calculator)
    requires AllMatch(ps) && (forall o :: o in Objects(ps) ==> WellFormed(o))
    requires LinkFrom(Objects(ps), u, bc).Ok?
    ensures AllDrafted(Flat(ps)) && SameLengths(LinkFrom(Objects(ps), u, bc).value, Drafts(Flat(ps)))
  {
    hide Draft, LinkObject, TableMatches, WellFormed, ObjectOf, SameLengths;
    if ps == [] {
      NoLengths();
    } else {
      assert Objects(ps)[0] == ObjectOf(ps[0]) && Objects(ps)[1..] == Objects(ps[1..]);
      LinkKeepsLengths(ps[0], u, bc);
      ImageLengths(ps[1..], u, bc);
      SameLengthsAppend(LinkObject(ObjectOf(ps[0]), u, bc).value, Drafts(ps[0].emitted),
                        LinkFrom(Objects(ps[1..]), u, bc).value, Drafts(Flat(ps[1..])));
      assert Drafts(Flat(ps)) == Drafts(ps[0].emitted) + Drafts(Flat(ps[1..]));
    }
  }

  lemma NoLengths()
    ensures SameLengths([], [])
  {
  }

  lemma SameLengthsAppend(a: seq<seq<byte>>, b: seq<seq<byte>>, c: seq<seq<byte>>, d: seq<seq<byte>>)
    requires SameLengths(a, b) && SameLengths(c, d)
    ensures SameLengths(a + c, b + d)
  {
  }

  // ---- what the image means ----

  /** The instruction with every symbol replaced by its address. */
  function Resolved(source: SourceInstruction, u: SymbolMap): Instruction {
    Instruction(source.mnemonic, source.width,
                if ArgumentCount(source.mnemonic) == 0 then []
                else
                  seq(|source.operands|,
                      k requires 0 <= k < |source.operands| => ResolvedOperand(source.operands[k], u)))
  }

  function ResolvedOperand(o: SourceOperand, u: SymbolMap): Target {
    match o
    case Plain(t) => t
    case Symbol(name) => Constant(W64, At(u, name).address)
  }

  /** The bytes a line stands for once all symbols have their addresses. */
  ghost predicate Means(bytes: seq<byte>, line: Line, u: SymbolMap, bindings: seq<Binding>, bc: Calculator) {
    match line
    case Literal(literal) => bytes == literal
    case Data(width, expression) =>
      |bytes| == width.Size() && FromLe(bytes) == bc(expression, bindings) % Pow256(width.Size())
    case Code(source) => Accepts(Resolved(source, u)) && bytes == Encode(Resolved(source, u))
    case _ => bytes == []
  }

  lemma {:induction false} FinishedLine(e: Emission, line: Line, table: seq<Marker>, u: SymbolMap,
                                        bindings: seq<Binding>, bc: Calculator)
    requires Draft(e).Some? && Stems(e, line)
    requires e.Statement? && e.symbol.Some? ==> RefersInto(e, table)
    requires RefersInto(e, table) ==> Count(Draft(e).value, PLACEHOLDER) == 1
    ensures Means(Finished(e, Draft(e).value, table, u, bindings, bc), line, u, bindings, bc)
  {
    hide Count, Accepts, Encode, EncConstant, Replace, ArgumentCount, DataBytes, Lists, FromLe, Pow256;
    if e.Word? {
      DataBytesValue(bc(e.expression, bindings), e.width);
    }
    if e.Statement? {
      match e.symbol {
        case None =>
          assert Substitute(e.source, None, ALL_ONES).value == Resolved(e.source, u);
        case Some(name) =>
          var address := At(u, name).address;
          PatchedStatement(e.source, name, address);
          assert Substitute(e.source, Some(name), address).value == Resolved(e.source, u);
      }
    }
  }

  lemma {:induction false} ObjectMeans(file: SourceFile, origin: u64, u: SymbolMap, bc: Calculator, l: nat)
    requires DistinctDeclarations(file) && Assemble(file, origin).Ok?
    requires WellFormed(ObjectOf(Assemble(file, origin).value))
    requires LinkObject(ObjectOf(Assemble(file, origin).value), u, bc).Ok?
    requires l < |file.lines| && Emits(file.lines[l])
    ensures var (p, n) := (Assemble(file, origin).value, CountEmitting(file.lines[..l]));
            && n < |p.emitted| && (forall m :: m in p.table ==> m.name in u)
            && Means(LinkObject(ObjectOf(p), u, bc).value[n], file.lines[l], u, Bindings(p.table, u), bc)
  {
    hide AllDrafted, Draft, LinkObject, Means, Finished, Count, WellFormed, Assemble, Stems;
    var p, n := Assemble(file, origin).value, CountEmitting(file.lines[..l]);
    FileTableMatches(file, origin);
    LineInFile(file, origin, l);
    LinkObjectPointwise(p, u, bc);
    var e := p.emitted[n];
    EachDrafted(p.emitted, n);
    assert e in p.emitted;
    if e.Statement? && e.symbol.Some? {
      assert Refers(e, e.symbol.value) && RefersInto(e, p.table);
    }
    FinishedLine(e, file.lines[l], p.table, u, Bindings(p.table, u), bc);
  }

  lemma ObjectSize(p: Progress, u: SymbolMap, bc: Calculator)
    requires AllDrafted(p.emitted) && WellFormed(ObjectOf(p)) && LinkObject(ObjectOf(p), u, bc).Ok?
    ensures |LinkObject(ObjectOf(p), u, bc).value| == |p.emitted|
  {
    hide LinkObject, WellFormed, AllDrafted;
  }

  // ---- the theorems ----

  lemma {:induction false} ImageMeans(files: seq<SourceFile>, origin: u64, u: SymbolMap, bc: Calculator, f: nat, l: nat)
    requires (forall g :: g in files ==> DistinctDeclarations(g)) && AssembleAll(files, origin).Ok?
    requires forall o :: o in Objects(AssembleAll(files, origin).value) ==> WellFormed(o)
    requires LinkFrom(Objects(AssembleAll(files, origin).value), u, bc).Ok?
    requires f < |files| && l < |files[f].lines| && Emits(files[f].lines[l])
    ensures var (ps, n) := (AssembleAll(files, origin).value, LinesBefore(files, f, l));
            var image := LinkFrom(Objects(ps), u, bc).value;
            && n < |image| && (forall m :: m in ps[f].table ==> m.name in u)
            && Means(image[n], files[f].lines[l], u, Bindings(ps[f].table, u), bc)
    decreases f
  {
    hide AllDrafted, LinkObject, Means, WellFormed, Assemble, Emits, CountEmitting, ObjectOf, DistinctDeclarations;
    var ps := AssembleAll(files, origin).value;
    assert Objects(ps)[0] == ObjectOf(ps[0]) && Objects(ps)[1..] == Objects(ps[1..]);
    ObjectSize(ps[0], u, bc);
    var code, rest := LinkObject(Objects(ps)[0], u, bc).value, LinkFrom(Objects(ps[1..]), u, bc).value;
    assert LinkFrom(Objects(ps), u, bc).value == code + rest;
    if f == 0 {
      ObjectMeans(files[0], origin, u, bc, l);
    } else {
      FileLength(files[0], origin);
      ImageMeans(files[1..], EndOf(ps[0], origin), u, bc, f - 1, l);
    }
  }

  function BindingsOf(files: seq<SourceFile>, origin: u64, f: nat): seq<Binding>
    requires f < |files| && AssembleAll(files, origin).Ok?
    requires forall m :: m in AssembleAll(files, origin).value[f].table ==> m.name in Symbols(files, origin)
  {
    Bindings(AssembleAll(files, origin).value[f].table, Symbols(files, origin))
  }

  /** Every buffer of a linked image holds what its source line means, with every symbol
      replaced by its address: an instruction is the encoding of the resolved instruction, a
      data line its evaluated expression, and a literal its own bytes. */
  lemma {:induction false} LinkedImage(files: seq<SourceFile>, origin: u64, bc: Calculator, f: nat, l: nat)
    requires forall g :: g in files ==> DistinctDeclarations(g)
    requires Build(files, origin, bc).Ok?
    requires f < |files| && l < |files[f].lines| && Emits(files[f].lines[l])
    ensures var (image, n, u) := (Build(files, origin, bc).value, LinesBefore(files, f, l), Symbols(files, origin));
            && n < |image| && (forall m :: m in AssembleAll(files, origin).value[f].table ==> m.name in u)
            && Means(image[n], files[f].lines[l], u, BindingsOf(files, origin, f), bc)
  {
    hide LinkFrom, Means, WellFormed, AllMatch, DistinctDeclarations, Emits, LinesBefore, Unify, AssembleAll;
    var ps := AssembleAll(files, origin).value;
    AssembledTablesMatch(files, origin);
    ObjectsAreWellFormed(ps);
    ImageMeans(files, origin, Symbols(files, origin), bc, f, l);
  }

  /** A label's address is the program's origin plus the length of everything in front of it in
      the linked image, across files and after all patching. */
  lemma {:induction false} LabelLayout(files: seq<SourceFile>, origin: u64, bc: Calculator, f: nat, l: nat)
    requires forall g :: g in files ==> DistinctDeclarations(g)
    requires Build(files, origin, bc).Ok?
    requires f < |files| && l < |files[f].lines| && files[f].lines[l].Label?
    ensures var (image, n) := (Build(files, origin, bc).value, LinesBefore(files, f, l));
            var entry := At(Symbols(files, origin), files[f].lines[l].name);
            n <= |image| && entry.defined && entry.address == Wrap64(origin + |Concat(image[..n])|)
  {
    hide LinkFrom, WellFormed, AllMatch, AllDrafted, DistinctDeclarations, LinesBefore, AssembleAll, Concat;
    hide Wrap64, At, Unify;
    var ps, n := AssembleAll(files, origin).value, LinesBefore(files, f, l);
    AssembledTablesMatch(files, origin);
    ObjectsAreWellFormed(ps);
    DraftLayout(files, origin, f, l);
    ImageLengths(ps, Symbols(files, origin), bc);
    var image, drafts := Build(files, origin, bc).value, Drafts(Flat(ps));
    SameLengthsConcat(image[..n], drafts[..n]);
    DefinitionIsUnified(ps, f, files[f].lines[l].name, Wrap64(origin + |Concat(drafts[..n])|));
  }

  lemma DefinitionIsUnified(ps: seq<Progress>, f: nat, name: string, position: u64)
    requires (forall p :: p in ps ==> AllDrafted(p.emitted)) && Unify(map[], Objects(ps)).Ok?
    requires f < |ps| && DefinedAt(ps[f].table, name, position)
    ensures var entry := At(Unify(map[], Objects(ps)).value, name); entry.defined && entry.address == position
  {
    hide AllDrafted, At, Unify, AddTable;
    UnifyIsAddTable(map[], Objects(ps));
    AddTableFacts(map[], AllMarkers(Objects(ps)));
    var k :| 0 <= k < |ps[f].table| && ps[f].table[k].name == name && ps[f].table[k].defined
      && ps[f].table[k].position == position;
    MarkerListed(Objects(ps), f, k);
    assert Defines(AllMarkers(Objects(ps)), name);
  }

  lemma {:induction false} MarkerListed(objects: seq<ObjectFile>, f: nat, k: nat)
    requires f < |objects| && k < |objects[f].symbols|
    ensures objects[f].symbols[k] in AllMarkers(objects)
    decreases f
  {
    if f > 0 {
      MarkerListed(objects[1..], f - 1, k);
    }
  }

  /** A linked instruction disassembles to its source line with addresses for symbols, exactly
      when that instruction is canonical, and the rest of the image is left to decode. */
  lemma {:induction false} LinkedInstructionDecodes(files: seq<SourceFile>, origin: u64, bc: Calculator, f: nat, l: nat)
    requires forall g :: g in files ==> DistinctDeclarations(g)
    requires Build(files, origin, bc).Ok?
    requires f < |files| && l < |files[f].lines| && files[f].lines[l].Code?
    ensures var (image, n) := (Build(files, origin, bc).value, LinesBefore(files, f, l));
            var i := Resolved(files[f].lines[l].source, Symbols(files, origin));
            && n < |image| && Accepts(i)
            && DecodeInstruction(Concat(image[n..])).1 == Concat(image[n + 1..])
            && (DecodeInstruction(Concat(image[n..])).0 == [ShowInstruction(i)] <==> Canonical(i))
  {
    hide Build, LinesBefore, Symbols, BindingsOf, DistinctDeclarations, AssembleAll, DecodeInstruction, Canonical;
    hide ShowInstruction;
    hide Accepts, Encode, Resolved;
    LinkedImage(files, origin, bc, f, l);
    var image, n := Build(files, origin, bc).value, LinesBefore(files, f, l);
    var i := Resolved(files[f].lines[l].source, Symbols(files, origin));
    assert image[n..][0] == Encode(i) && image[n..][1..] == image[n + 1..];
    InstructionRoundTrip(i, Concat(image[n + 1..]));
  }

  ghost predicate LinksCleanly(ps: seq<Progress>, ms: seq<Marker>)
    requires forall p :: p in ps ==> AllDrafted(p.emitted)
  {
    forall p :: p in ps ==> LinksHere(p, ms)
  }

  ghost predicate LinksHere(p: Progress, ms: seq<Marker>)
    requires AllDrafted(p.emitted)
  {
    (forall m :: m in p.table ==> Defines(ms, m.name)) && OnePlaceholderEach(Drafts(p.emitted), p.table, p.emitted)
  }

  lemma {:induction false} LinkFromSucceeds(ps: seq<Progress>, u: SymbolMap, bc: Calculator)
    requires AllMatch(ps) && (forall o :: o in Objects(ps) ==> WellFormed(o))
    ensures
      LinkFrom(Objects(ps), u, bc).Ok? <==>
      forall p :: p in ps ==> AllDefined(p.table, u) && OnePlaceholderEach(Drafts(p.emitted), p.table, p.emitted)
  {
    hide AllDrafted, TableMatches, WellFormed, LinkObject, ObjectOf, AllDefined, OnePlaceholderEach;
    if ps != [] {
      assert Objects(ps)[0] == ObjectOf(ps[0]) && Objects(ps)[1..] == Objects(ps[1..]);
      LinkObjectPointwise(ps[0], u, bc);
      LinkFromSucceeds(ps[1..], u, bc);
    }
  }

  /** A program that assembles links exactly when no symbol is defined twice, every listed
      symbol is defined in some file, and every referring line holds one placeholder. */
  lemma {:induction false} BuildSucceeds(files: seq<SourceFile>, origin: u64, bc: Calculator)
    requires (forall g :: g in files ==> DistinctDeclarations(g)) && AssembleAll(files, origin).Ok?
    ensures var ps := AssembleAll(files, origin).value;
            var ms := AllMarkers(Objects(ps));
            Build(files, origin, bc).Ok? <==> DefinedOnce(ms) && LinksCleanly(ps, ms)
  {
    hide AllDrafted, TableMatches, WellFormed, LinkFrom, ObjectOf, AllDefined, OnePlaceholderEach, AssembleAll;
    hide DistinctDeclarations, Unify, DefinedOnce, AddTable, Defines;
    var ps := AssembleAll(files, origin).value;
    var ms := AllMarkers(Objects(ps));
    AssembledTablesMatch(files, origin);
    ObjectsAreWellFormed(ps);
    UnifyIsAddTable(map[], Objects(ps));
    AddTableFacts(map[], ms);
    if AddTable(map[], ms).Ok? {
      var u := AddTable(map[], ms).value;
      LinkFromSucceeds(ps, u, bc);
      forall p | p in ps
        ensures AllDefined(p.table, u) <==> forall m :: m in p.table ==> Defines(ms, m.name)
      {
        DefinedEverywhere(p.table, u, ms);
      }
    }
  }

  lemma DefinedEverywhere(table: seq<Marker>, u: SymbolMap, ms: seq<Marker>)
    requires forall name :: At(u, name).defined <==> Defines(ms, name)
    ensures AllDefined(table, u) <==> forall m :: m in table ==> Defines(ms, m.name)
  {
    hide At, Defines;
    assert forall k :: 0 <= k < |table| ==> table[k] in table;
  }

  /** Assembles all files and links them. */
  method BuildProgram(files: seq<SourceFile>, origin: u64, bc: Calculator) returns (r: Result<seq<seq<byte>>>)
    requires forall f :: f in files ==> DistinctDeclarations(f)
    ensures r == Build(files, origin, bc)
  {
    hide AllDrafted, AssembleFrom, DistinctDeclarations, WellFormed, Link, InitialTable, ObjectOf;
    var org := origin;
    var objects: seq<ObjectFile> := [];
    ghost var done: seq<Progress> := [];
    PrependNothing(AssembleAll(files, origin));
    assert files[0..] == files;
    for k := 0 to |files|
      invariant |done| == k && (forall p :: p in done ==> AllDrafted(p.emitted)) && objects == Objects(done)
      invariant Prepend(done, AssembleAll(files[k..], org)) == AssembleAll(files, origin)
    {
      assert files[k..][1..] == files[k + 1..];
      var assembled, end := SysdarftAssemble(files[k].lines, org, InitialTable(files[k].declared));
      if assembled.Err? {
        return Err(assembled.error);
      }
      ghost var p := Assemble(files[k], org).value;
      PrependTwice(done, [p], AssembleAll(files[k + 1..], end));
      objects, done, org := objects + [assembled.value], done + [p], end;
    }
    assert files[|files|..] == [] && done + [] == done;
    AssembledTablesMatch(files, origin);
    ObjectsAreWellFormed(done);
    var linkable := new ObjectFile[|objects|](k requires 0 <= k < |objects| => objects[k]);
    assert linkable[..] == objects;
    r := SysdarftLink(linkable, bc);
  }
}
