/** When a program builds, told from its source lines alone. */
module BuildConditions {
  import opened Bytes
  import opened InstructionSet
  import opened Operands
  import opened Encoder
  import opened Assembler
  import opened Linker
  import opened Patching
  import opened Placeholders
  import opened ObjectLayout
  import opened LinkFacts
  import opened LinkedProgram

  // ---- one line ----

  /** The first declared name the instruction mentions. */
  function FirstDeclared(declared: seq<string>, source: SourceInstruction): (r: Option<string>)
    ensures r.Some? ==> r.value in declared && Symbol(r.value) in source.operands
    ensures r.None? ==> forall n :: n in declared ==> Symbol(n) !in source.operands
  {
    if declared == [] then None
    else if Symbol(declared[0]) in source.operands then Some(declared[0])
    else FirstDeclared(declared[1..], source)
  }

  /** What the assembler emits for the instruction. */
  function StatementOf(source: SourceInstruction, declared: seq<string>): Emission {
    Statement(source, FirstDeclared(declared, source))
  }

  /** What the assembler asks of a line. */
  predicate Compiles(source: SourceInstruction, declared: seq<string>) {
    Draft(StatementOf(source, declared)).Some?
  }

  /** What the linker asks of a line: a reference leaves one placeholder to patch. */
  predicate Patchable(e: Emission) {
    e.Statement? && e.symbol.Some? && Draft(e).Some? ==> Count(Draft(e).value, PLACEHOLDER) == 1
  }

  /** Any symbol operand names a declared symbol, is the only one, and no other operand holds
      the constant that marks the place of an address. */
  predicate OneAddress(source: SourceInstruction, declared: seq<string>) {
    var os := source.operands;
    forall j :: 0 <= j < |os| && os[j].Symbol? ==>
      os[j].name in declared && forall k :: 0 <= k < |os| && k != j ==> os[k].Plain? && !HoldsAllOnes(os[k].target)
  }

  /** An instruction that builds: with addresses for symbols, whatever they are, it can be
      encoded, and it refers to at most one address; one that takes no operands to none. */
  predicate LineBuilds(source: SourceInstruction, declared: seq<string>) {
    && Accepts(Resolved(source, map[]))
    && if ArgumentCount(source.mnemonic) == 0 then FirstDeclared(declared, source).None?
       else OneAddress(source, declared)
  }

  lemma AcceptanceIgnoresAddresses(source: SourceInstruction, u: SymbolMap, v: SymbolMap)
    requires Accepts(Resolved(source, u))
    ensures Accepts(Resolved(source, v))
  {
    hide At, ArgumentCount;
    ShapeDecidesAcceptance(Resolved(source, u), Resolved(source, v));
  }

  lemma {:induction false} SubstituteIsResolved(source: SourceInstruction, symbol: Option<string>)
    ensures
      Draft(Statement(source, symbol)).Some? <==>
      && Accepts(Resolved(source, map[]))
      && (ArgumentCount(source.mnemonic) > 0 ==>
            forall o :: o in source.operands && o.Symbol? ==> Some(o.name) == symbol)
  {
    hide Accepts, ArgumentCount, At;
    var i, r := Substitute(source, symbol, ALL_ONES), Resolved(source, map[]);
    if i.Some? {
      if Accepts(i.value) {
        ShapeDecidesAcceptance(i.value, r);
      }
      if Accepts(r) {
        ShapeDecidesAcceptance(r, i.value);
      }
    }
  }

  /** Without operands to encode there is nothing to patch. */
  lemma NothingToPatch(i: Instruction)
    requires Accepts(i) && ArgumentCount(i.mnemonic) == 0
    ensures Count(Encode(i), PLACEHOLDER) != 1
  {
    hide Accepts, ArgumentCount, Encode, Occurs, Count;
    NoOperandsNoPlaceholder(i);
    CountOneIsUnique(Encode(i));
  }

  lemma {:induction false} OneAddressExactly(source: SourceInstruction, declared: seq<string>, name: string)
    requires FirstDeclared(declared, source) == Some(name) && ArgumentCount(source.mnemonic) > 0
    requires Compiles(source, declared)
    ensures Patchable(StatementOf(source, declared)) <==> OneAddress(source, declared)
  {
    hide Accepts, ArgumentCount, Encode, Count, FirstDeclared, HoldsAllOnes;
    var os := source.operands;
    var i := Substitute(source, Some(name), ALL_ONES).value;
    FirstDeclaredFacts(declared, source);
    AcceptedCount(i);
    var j :| 0 <= j < |os| && os[j] == Symbol(name);
    OnePlaceholderExactly(i, j);
    assert forall k :: 0 <= k < |os| ==> i.operands[k] == SubstituteOperand(os[k], ALL_ONES);
    assert forall k :: 0 <= k < |os| ==> os[k] in os;
    AddressHoldsAllOnes();
    assert forall k :: 0 <= k < |os| ==> (os[k].Plain? && !HoldsAllOnes(os[k].target)) == !HoldsAllOnes(i.operands[k]);
  }

  lemma AddressHoldsAllOnes()
    ensures HoldsAllOnes(Constant(W64, ALL_ONES))
  {
  }

  lemma FirstDeclaredFacts(declared: seq<string>, source: SourceInstruction)
    ensures var r := FirstDeclared(declared, source);
            && (r.Some? ==> r.value in declared && Symbol(r.value) in source.operands)
            && (r.None? ==> forall n :: n in declared ==> Symbol(n) !in source.operands)
  {
  }

  /** Assembler and linker together take exactly the lines that build. */
  lemma {:induction false} LineBuildsExactly(source: SourceInstruction, declared: seq<string>)
    ensures
      LineBuilds(source, declared) <==>
      Compiles(source, declared) && Patchable(StatementOf(source, declared))
  {
    hide Accepts, ArgumentCount, Encode, Count, FirstDeclared, HoldsAllOnes, Resolved;
    var symbol, os := FirstDeclared(declared, source), source.operands;
    SubstituteIsResolved(source, symbol);
    FirstDeclaredFacts(declared, source);
    if ArgumentCount(source.mnemonic) == 0 {
      if Compiles(source, declared) && symbol.Some? {
        NothingToPatch(Substitute(source, symbol, ALL_ONES).value);
      }
    } else {
      if OneAddress(source, declared) {
        forall o | o in os && o.Symbol?
          ensures Some(o.name) == symbol
        {
          var j :| 0 <= j < |os| && os[j] == o;
          if symbol.Some? {
            var k :| 0 <= k < |os| && os[k] == Symbol(symbol.value);
          }
        }
      }
      if Compiles(source, declared) && symbol.Some? {
        OneAddressExactly(source, declared, symbol.value);
      }
    }
  }

  // ---- one file ----

  function LabelOf(line: Line): seq<string> {
    if line.Label? then [line.name] else []
  }

  function Labels(lines: seq<Line>): seq<string> {
    if lines == [] then []
    else LabelOf(lines[0]) + Labels(lines[1..])
  }

  predicate NoRepeats(names: seq<string>) {
    forall i, j :: 0 <= i < j < |names| ==> names[i] != names[j]
  }

  /** The declared symbols include the file's own labels, which the preprocessor collects. */
  predicate DeclaresLabels(file: SourceFile) {
    forall n :: n in Labels(file.lines) ==> n in file.declared
  }

  predicate AllCompile(lines: seq<Line>, declared: seq<string>) {
    forall l :: 0 <= l < |lines| && lines[l].Code? ==> Compiles(lines[l].source, declared)
  }

  function EmissionFor(line: Line, declared: seq<string>): Emission
    requires Emits(line)
  {
    match line
    case Literal(bytes) => Fixed(bytes)
    case Data(width, expression) => Word(width, expression)
    case Code(source) => StatementOf(source, declared)
  }

  function EmittedFor(line: Line, declared: seq<string>): seq<Emission> {
    if Emits(line) then [EmissionFor(line, declared)] else []
  }

  function Emissions(lines: seq<Line>, declared: seq<string>): seq<Emission> {
    if lines == [] then []
    else EmittedFor(lines[0], declared) + Emissions(lines[1..], declared)
  }

  ghost predicate IsDefined(table: seq<Marker>, name: string) {
    exists k :: 0 <= k < |table| && table[k].name == name && table[k].defined
  }

  /** The table lists the declared names in order, each once. */
  ghost predicate ListsDeclared(table: seq<Marker>, declared: seq<string>) {
    NoRepeats(declared) && |table| == |declared| && forall k :: 0 <= k < |table| ==> table[k].name == declared[k]
  }

  lemma {:induction false} FirstMentionedByName(table: seq<Marker>, declared: seq<string>, source: SourceInstruction)
    requires |table| == |declared| && forall k :: 0 <= k < |table| ==> table[k].name == declared[k]
    ensures FirstMentioned(table, source) == FirstDeclared(declared, source)
  {
    if table != [] {
      FirstMentionedByName(table[1..], declared[1..], source);
    }
  }

  lemma DefineExactly(table: seq<Marker>, declared: seq<string>, name: string, at: u64)
    requires ListsDeclared(table, declared) && name in declared
    ensures Define(table, name, at).Ok? <==> !IsDefined(table, name)
    ensures
      Define(table, name, at).Ok? ==>
        var t := Define(table, name, at).value;
        ListsDeclared(t, declared) && forall n :: IsDefined(t, n) <==> n == name || IsDefined(table, n)
  {
    var k := IndexOfMarker(table, name);
    assert k < |table|;
    if !table[k].defined {
      var t := Define(table, name, at).value;
      assert t[k].name == name && t[k].defined;
      forall n
        ensures IsDefined(t, n) <==> n == name || IsDefined(table, n)
      {
        if IsDefined(table, n) {
          var i :| 0 <= i < |table| && table[i].name == n && table[i].defined;
          assert t[i].name == n && t[i].defined;
        }
      }
    }
  }

  lemma RecordKeepsNames(table: seq<Marker>, declared: seq<string>, e: Emission, site: nat)
    requires ListsDeclared(table, declared) && (e.Statement? && e.symbol.Some? ==> e.symbol.value in declared)
    ensures var t := Record(table, e, site);
            ListsDeclared(t, declared) && forall n :: IsDefined(t, n) <==> IsDefined(table, n)
  {
    var t := Record(table, e, site);
    assert |t| == |table| && forall k :: 0 <= k < |t| ==>
      t[k].name == table[k].name && t[k].defined == table[k].defined;
  }

  /** What holds of a state from which a file's remaining lines are assembled. */
  ghost predicate Ready(p: Progress, declared: seq<string>) {
    AllDrafted(p.emitted) && ListsDeclared(p.table, declared)
  }

  /** From one state to a later one: these emissions and these definitions were added. */
  ghost predicate Advanced(p: Progress, q: Progress, es: seq<Emission>, names: seq<string>, declared: seq<string>) {
    && Ready(q, declared) && q.emitted == p.emitted + es
    && forall n :: IsDefined(q.table, n) <==> IsDefined(p.table, n) || n in names
  }

  lemma AdvancedTwice(p: Progress, q: Progress, r: Progress, es: seq<Emission>, names: seq<string>,
                      moreEs: seq<Emission>, moreNames: seq<string>, declared: seq<string>)
    requires Advanced(p, q, es, names, declared) && Advanced(q, r, moreEs, moreNames, declared)
    ensures Advanced(p, r, es + moreEs, names + moreNames, declared)
  {
    hide IsDefined, Ready;
    assert p.emitted + es + moreEs == p.emitted + (es + moreEs);
  }

  ghost predicate Unclaimed(p: Progress, names: seq<string>) {
    forall n :: n in names ==> !IsDefined(p.table, n)
  }

  /** One line: when it assembles, and what it adds. */
  lemma {:induction false} LineExactly(p: Progress, line: Line, origin: u64, declared: seq<string>)
    requires Ready(p, declared) && forall n :: n in LabelOf(line) ==> n in declared
    ensures
      AssembleLine(p, line, origin).Ok? <==>
      Unclaimed(p, LabelOf(line)) && (line.Code? ==> Compiles(line.source, declared))
    ensures
      AssembleLine(p, line, origin).Ok? ==>
        Advanced(p, AssembleLine(p, line, origin).value, EmittedFor(line, declared), LabelOf(line), declared)
  {
    hide IsDefined, ListsDeclared, Record, Define, Concat, Wrap64, Substitute, Accepts, Encode;
    if line.Label? {
      assert line.name in LabelOf(line);
      DefineExactly(p.table, declared, line.name, Wrap64(|Concat(Drafts(p.emitted))| + origin));
    } else if !line.Blank? {
      if line.Code? {
        TableNames(p.table, declared);
        FirstMentionedByName(p.table, declared, line.source);
      }
      assert EmissionOf(line, p.table) == EmissionFor(line, declared);
      RecordKeepsNames(p.table, declared, EmissionFor(line, declared), |p.emitted|);
    }
  }

  lemma TableNames(table: seq<Marker>, declared: seq<string>)
    requires ListsDeclared(table, declared)
    ensures |table| == |declared| && forall k :: 0 <= k < |table| ==> table[k].name == declared[k]
  {
  }

  /** The remaining lines assemble exactly when they define each label once and not again, and
      every instruction compiles. */
  lemma {:induction false} LinesExactly(p: Progress, lines: seq<Line>, origin: u64, declared: seq<string>)
    requires Ready(p, declared) && forall n :: n in Labels(lines) ==> n in declared
    ensures
      AssembleFrom(p, lines, origin).Ok? <==>
      NoRepeats(Labels(lines)) && Unclaimed(p, Labels(lines)) && AllCompile(lines, declared)
    ensures
      AssembleFrom(p, lines, origin).Ok? ==>
        Advanced(p, AssembleFrom(p, lines, origin).value, Emissions(lines, declared), Labels(lines), declared)
    decreases |lines|
  {
    hide IsDefined, ListsDeclared, AssembleLine, EmittedFor, LabelOf, Compiles, AllDrafted, NoRepeats, AllCompile;
    hide Advanced;
    if lines == [] {
      NoLines(p, declared);
    } else {
      var line, rest := lines[0], lines[1..];
      LineExactly(p, line, origin, declared);
      LabelsOnce(lines);
      FirstCompiles(lines, declared);
      if AssembleLine(p, line, origin).Ok? {
        var q := AssembleLine(p, line, origin).value;
        AdvancedIsReady(p, q, EmittedFor(line, declared), LabelOf(line), declared);
        LinesExactly(q, rest, origin, declared);
        if AssembleFrom(q, rest, origin).Ok? {
          AdvancedTwice(p, q, AssembleFrom(q, rest, origin).value, EmittedFor(line, declared), LabelOf(line),
                        Emissions(rest, declared), Labels(rest), declared);
        }
      }
    }
  }

  lemma AdvancedIsReady(p: Progress, q: Progress, es: seq<Emission>, names: seq<string>, declared: seq<string>)
    requires Advanced(p, q, es, names, declared)
    ensures Ready(q, declared)
    ensures forall more :: Unclaimed(q, more) <==> Unclaimed(p, more) && forall n :: n in names ==> n !in more
  {
    hide IsDefined, Ready;
  }

  lemma NoLines(p: Progress, declared: seq<string>)
    requires Ready(p, declared)
    ensures NoRepeats(Labels([])) && AllCompile([], declared)
            && Advanced(p, p, Emissions([], declared), Labels([]), declared)
  {
  }

  lemma LabelsOnce(lines: seq<Line>)
    requires lines != []
    ensures
      NoRepeats(Labels(lines)) <==>
      NoRepeats(Labels(lines[1..])) && forall n :: n in LabelOf(lines[0]) ==> n !in Labels(lines[1..])
  {
    RepeatsApart(LabelOf(lines[0]), Labels(lines[1..]));
  }

  lemma {:induction false} RepeatsApart(a: seq<string>, b: seq<string>)
    ensures NoRepeats(a + b) <==> NoRepeats(a) && NoRepeats(b) && forall n :: n in a ==> n !in b
  {
    var c := a + b;
    if NoRepeats(c) {
      forall i, j | 0 <= i < j < |b|
        ensures b[i] != b[j]
      {
        assert c[|a| + i] != c[|a| + j];
      }
      forall i, j | 0 <= i < |a| && 0 <= j < |b|
        ensures a[i] != b[j]
      {
        assert c[i] != c[|a| + j];
      }
      assert forall i :: 0 <= i < |a| ==> a[i] == c[i];
    }
    if NoRepeats(a) && NoRepeats(b) && forall n :: n in a ==> n !in b {
      forall i, j | 0 <= i < j < |c|
        ensures c[i] != c[j]
      {
        if i < |a| <= j {
          assert a[i] in a && b[j - |a|] in b;
        } else if |a| <= i {
          assert b[i - |a|] != b[j - |a|];
        }
      }
    }
  }

  lemma FirstCompiles(lines: seq<Line>, declared: seq<string>)
    requires lines != []
    ensures
      AllCompile(lines, declared) <==>
      AllCompile(lines[1..], declared) && (lines[0].Code? ==> Compiles(lines[0].source, declared))
  {
    hide Compiles;
    assert forall l :: 0 < l < |lines| ==> lines[l] == lines[1..][l - 1];
  }

  /** A file assembles exactly when its labels are distinct and each of its instructions
      compiles with the first declared symbol it mentions. */
  lemma {:induction false} FileAssembles(file: SourceFile, origin: u64)
    requires DistinctDeclarations(file) && DeclaresLabels(file)
    ensures Assemble(file, origin).Ok? <==> NoRepeats(Labels(file.lines)) && AllCompile(file.lines, file.declared)
    ensures Assemble(file, origin).Ok? ==> FileState(file, Assemble(file, origin).value)
  {
    hide Compiles, AllCompile, AssembleFrom;
    NothingEmitted(file);
    LinesExactly(Progress([], InitialTable(file.declared)), file.lines, origin, file.declared);
  }

  lemma NothingEmitted(file: SourceFile)
    requires DistinctDeclarations(file)
    ensures var p := Progress([], InitialTable(file.declared));
            && Ready(p, file.declared) && (forall n :: !IsDefined(p.table, n))
            && [] + Emissions(file.lines, file.declared) == Emissions(file.lines, file.declared)
  {
  }

  /** What an assembled file has come to. */
  ghost predicate FileState(file: SourceFile, p: Progress) {
    && Ready(p, file.declared) && p.emitted == Emissions(file.lines, file.declared)
    && forall n :: IsDefined(p.table, n) <==> n in Labels(file.lines)
  }

  // ---- a program ----

  /** The labels of all files, in order. */
  function ProgramLabels(files: seq<SourceFile>): seq<string> {
    if files == [] then [] else Labels(files[0].lines) + ProgramLabels(files[1..])
  }

  /** The program as its source: no label twice in all files together, every declared symbol a
      label of some file, every instruction one that builds. */
  predicate Buildable(files: seq<SourceFile>) {
    && NoRepeats(ProgramLabels(files))
    && forall f :: f in files ==> LinesBuild(f) && NamesLabels(f, ProgramLabels(files))
  }

  /** Every symbol the file declares is one of the labels. */
  predicate NamesLabels(file: SourceFile, labels: seq<string>) {
    forall n :: n in file.declared ==> n in labels
  }

  predicate LinesBuild(file: SourceFile) {
    forall l :: 0 <= l < |file.lines| && file.lines[l].Code? ==> LineBuilds(file.lines[l].source, file.declared)
  }

  ghost predicate WellDeclared(file: SourceFile) {
    DistinctDeclarations(file) && DeclaresLabels(file)
  }

  predicate FileCompiles(file: SourceFile) {
    NoRepeats(Labels(file.lines)) && AllCompile(file.lines, file.declared)
  }

  ghost predicate FileStates(files: seq<SourceFile>, ps: seq<Progress>) {
    |ps| == |files| && forall k :: 0 <= k < |files| ==> FileState(files[k], ps[k])
  }

  lemma {:induction false} AllAssemble(files: seq<SourceFile>, origin: u64)
    requires forall f :: f in files ==> WellDeclared(f)
    ensures AssembleAll(files, origin).Ok? <==> forall f :: f in files ==> FileCompiles(f)
    ensures AssembleAll(files, origin).Ok? ==> FileStates(files, AssembleAll(files, origin).value)
    decreases |files|
  {
    hide Assemble, FileState, AllCompile, NoRepeats, AllDrafted, EndOf;
    if files != [] {
      assert files[0] in files && WellDeclared(files[0]);
      FileAssembles(files[0], origin);
      if Assemble(files[0], origin).Ok? {
        AllAssemble(files[1..], EndOf(Assemble(files[0], origin).value, origin));
      }
      assert files == [files[0]] + files[1..];
    }
  }

  lemma {:induction false} DefinedApart(a: seq<Marker>, b: seq<Marker>)
    ensures
      DefinedOnce(a + b) <==>
      DefinedOnce(a) && DefinedOnce(b) && forall n :: Defines(a, n) ==> !Defines(b, n)
    ensures forall n :: Defines(a + b, n) <==> Defines(a, n) || Defines(b, n)
    decreases |a|
  {
    if a == [] {
      assert a + b == b;
    } else {
      assert (a + b)[0] == a[0] && (a + b)[1..] == a[1..] + b;
      SplitFirst(map[], a + b);
      SplitFirst(map[], a);
      DefinedApart(a[1..], b);
    }
  }

  lemma DefinedByFile(file: SourceFile, p: Progress)
    requires FileState(file, p)
    ensures DefinedOnce(p.table) && forall n :: Defines(p.table, n) <==> n in Labels(file.lines)
  {
    forall n
      ensures Defines(p.table, n) <==> IsDefined(p.table, n)
    {
      if IsDefined(p.table, n) {
        var k :| 0 <= k < |p.table| && p.table[k].name == n && p.table[k].defined;
        assert p.table[k] in p.table;
      }
    }
  }

  /** Defined symbols are labels, and defined once when the labels are distinct. */
  lemma {:induction false} DefinedByProgram(files: seq<SourceFile>, ps: seq<Progress>)
    requires FileStates(files, ps) && forall p :: p in ps ==> AllDrafted(p.emitted)
    requires forall f :: f in files ==> NoRepeats(Labels(f.lines))
    ensures var ms := AllMarkers(Objects(ps));
            && (DefinedOnce(ms) <==> NoRepeats(ProgramLabels(files)))
            && forall n :: Defines(ms, n) <==> n in ProgramLabels(files)
  {
    hide FileState, AllDrafted, NoRepeats, DefinedOnce, Defines, Labels;
    if files == [] {
      NothingDefined();
    } else {
      DefinedByFile(files[0], ps[0]);
      DefinedByProgram(files[1..], ps[1..]);
      assert Objects(ps)[0].symbols == ps[0].table && Objects(ps)[1..] == Objects(ps[1..]);
      DefinedApart(ps[0].table, AllMarkers(Objects(ps[1..])));
      RepeatsApart(Labels(files[0].lines), ProgramLabels(files[1..]));
    }
  }

  lemma NothingDefined()
    ensures DefinedOnce([]) && NoRepeats([]) && forall n :: !Defines([], n)
  {
  }

  lemma {:induction false} StatementsOf(lines: seq<Line>, declared: seq<string>)
    ensures
      (forall e :: e in Emissions(lines, declared) ==> Patchable(e)) <==>
      forall l :: 0 <= l < |lines| && lines[l].Code? ==> Patchable(StatementOf(lines[l].source, declared))
  {
    hide Patchable, StatementOf;
    if lines != [] {
      StatementsOf(lines[1..], declared);
      assert forall l :: 0 < l < |lines| ==> lines[l] == lines[1..][l - 1];
      OthersArePatchable(lines[0], declared);
    }
  }

  lemma OthersArePatchable(line: Line, declared: seq<string>)
    ensures
      (forall e :: e in EmittedFor(line, declared) ==> Patchable(e)) <==>
      (line.Code? ==> Patchable(StatementOf(line.source, declared)))
  {
    hide Count, Draft;
    if line.Code? {
      assert EmittedFor(line, declared)[0] == StatementOf(line.source, declared);
    }
  }

  ghost predicate AllPatchable(file: SourceFile) {
    forall l :: 0 <= l < |file.lines| && file.lines[l].Code? ==>
      Patchable(StatementOf(file.lines[l].source, file.declared))
  }

  lemma LinesBuildExactly(file: SourceFile)
    ensures LinesBuild(file) <==> AllCompile(file.lines, file.declared) && AllPatchable(file)
  {
    hide LineBuilds, Compiles, Patchable, StatementOf;
    forall l | 0 <= l < |file.lines| && file.lines[l].Code?
      ensures
        LineBuilds(file.lines[l].source, file.declared) <==>
        Compiles(file.lines[l].source, file.declared) && Patchable(StatementOf(file.lines[l].source, file.declared))
    {
      LineBuildsExactly(file.lines[l].source, file.declared);
    }
  }

  lemma {:induction false} ReferencesAreDeclared(lines: seq<Line>, declared: seq<string>)
    ensures forall e :: e in Emissions(lines, declared) && e.Statement? && e.symbol.Some? ==> e.symbol.value in declared
  {
    if lines != [] {
      ReferencesAreDeclared(lines[1..], declared);
      if lines[0].Code? {
        FirstDeclaredFacts(declared, lines[0].source);
      }
    }
  }

  lemma DeclaredIsListed(file: SourceFile, p: Progress, name: string)
    requires FileState(file, p) && name in file.declared
    ensures Lists(p.table, name)
  {
    var k :| 0 <= k < |file.declared| && file.declared[k] == name;
    assert p.table[k].name == name;
  }

  /** The linker's demand on a file's buffers, on its lines. */
  lemma {:induction false} PlaceholdersByFile(file: SourceFile, p: Progress)
    requires FileState(file, p)
    ensures OnePlaceholderEach(Drafts(p.emitted), p.table, p.emitted) <==> AllPatchable(file)
  {
    hide Count, Draft, Emissions, StatementOf, Lists, IsDefined;
    StatementsOf(file.lines, file.declared);
    ReferencesAreDeclared(file.lines, file.declared);
    forall n | 0 <= n < |p.emitted|
      ensures
        (RefersInto(p.emitted[n], p.table) ==> Count(Drafts(p.emitted)[n], PLACEHOLDER) == 1) <==>
        Patchable(p.emitted[n])
    {
      var e := p.emitted[n];
      EachDrafted(p.emitted, n);
      assert e in p.emitted;
      if e.Statement? && e.symbol.Some? {
        DeclaredIsListed(file, p, e.symbol.value);
      }
    }
  }

  lemma {:induction false} FilesHaveDistinctLabels(files: seq<SourceFile>)
    requires NoRepeats(ProgramLabels(files))
    ensures forall f :: f in files ==> NoRepeats(Labels(f.lines))
  {
    hide NoRepeats, Labels;
    if files != [] {
      RepeatsApart(Labels(files[0].lines), ProgramLabels(files[1..]));
      FilesHaveDistinctLabels(files[1..]);
    }
  }

  lemma DefinedNames(file: SourceFile, p: Progress, ms: seq<Marker>, labels: seq<string>)
    requires FileState(file, p) && forall n :: Defines(ms, n) <==> n in labels
    ensures (forall m :: m in p.table ==> Defines(ms, m.name)) <==> forall n :: n in file.declared ==> n in labels
  {
    hide Defines, IsDefined;
    assert forall k :: 0 <= k < |p.table| ==> p.table[k] in p.table && p.table[k].name == file.declared[k];
  }

  lemma {:induction false} FileLinksExactly(file: SourceFile, p: Progress, ms: seq<Marker>, labels: seq<string>)
    requires FileState(file, p) && forall n :: Defines(ms, n) <==> n in labels
    ensures LinksHere(p, ms) <==> AllPatchable(file) && NamesLabels(file, labels)
  {
    hide FileState, AllPatchable, OnePlaceholderEach, Defines;
    DefinedNames(file, p, ms, labels);
    PlaceholdersByFile(file, p);
  }

  /** Files that assemble link cleanly exactly when their lines do and their names are labels. */
  lemma {:induction false} LinksExactly(files: seq<SourceFile>, ps: seq<Progress>, ms: seq<Marker>, labels: seq<string>)
    requires FileStates(files, ps) && (forall p :: p in ps ==> AllDrafted(p.emitted))
    requires forall n :: Defines(ms, n) <==> n in labels
    ensures LinksCleanly(ps, ms) <==> forall f :: f in files ==> AllPatchable(f) && NamesLabels(f, labels)
  {
    hide FileState, AllDrafted, Defines, AllPatchable, LinksHere, NamesLabels;
    if files != [] {
      FileLinksExactly(files[0], ps[0], ms, labels);
      LinksExactly(files[1..], ps[1..], ms, labels);
      assert ps == [ps[0]] + ps[1..] && files == [files[0]] + files[1..];
    }
  }

  /** A program builds exactly when its source says so: whatever its origin and its data. */
  lemma {:induction false} BuildsExactly(files: seq<SourceFile>, origin: u64, bc: Calculator)
    requires forall f :: f in files ==> DistinctDeclarations(f) && DeclaresLabels(f)
    ensures Build(files, origin, bc).Ok? <==> Buildable(files)
  {
    hide DistinctDeclarations, DeclaresLabels, LinesBuild, AssembleAll, FileStates, Build, AllPatchable;
    hide AllCompile, NoRepeats, DefinedOnce;
    hide LinksCleanly, ProgramLabels, Labels, AllDrafted, NamesLabels;
    AllAssemble(files, origin);
    forall f | f in files
      ensures LinesBuild(f) <==> AllCompile(f.lines, f.declared) && AllPatchable(f)
    {
      LinesBuildExactly(f);
    }
    if AssembleAll(files, origin).Ok? {
      var ps := AssembleAll(files, origin).value;
      BuildSucceeds(files, origin, bc);
      DefinedByProgram(files, ps);
      LinksExactly(files, ps, AllMarkers(Objects(ps)), ProgramLabels(files));
    } else {
      FailsEarly(files, origin, bc);
      if Buildable(files) {
        FilesHaveDistinctLabels(files);
      }
    }
  }

  lemma FailsEarly(files: seq<SourceFile>, origin: u64, bc: Calculator)
    requires (forall f :: f in files ==> DistinctDeclarations(f)) && AssembleAll(files, origin).Err?
    ensures Build(files, origin, bc).Err?
  {
    hide AssembleAll, DistinctDeclarations;
  }

  /** An instruction with operands that mentions two symbols, or one symbol twice, is in no
      program that builds. */
  lemma TwoSymbolsDoNotBuild(files: seq<SourceFile>, origin: u64, bc: Calculator, f: nat, l: nat, i: nat, j: nat)
    requires forall g :: g in files ==> DistinctDeclarations(g) && DeclaresLabels(g)
    requires f < |files| && l < |files[f].lines| && files[f].lines[l].Code?
    requires ArgumentCount(files[f].lines[l].source.mnemonic) > 0
    requires i < j < |files[f].lines[l].source.operands|
    requires files[f].lines[l].source.operands[i].Symbol? && files[f].lines[l].source.operands[j].Symbol?
    ensures Build(files, origin, bc).Err?
  {
    hide DistinctDeclarations, DeclaresLabels, Build, LineBuilds, ArgumentCount;
    BuildsExactly(files, origin, bc);
    TwoSymbolsDoNotFit(files[f].lines[l].source, files[f].declared, i, j);
    assert files[f] in files;
  }

  lemma TwoSymbolsDoNotFit(source: SourceInstruction, declared: seq<string>, i: nat, j: nat)
    requires i < j < |source.operands| && source.operands[i].Symbol? && source.operands[j].Symbol?
    requires ArgumentCount(source.mnemonic) > 0
    ensures !LineBuilds(source, declared)
  {
    hide Resolved, ArgumentCount, FirstDeclared, HoldsAllOnes, Accepts;
  }
}
