/** What a failed build reports is true of the source, and what a data line of a built one holds. */
module BuildErrors {
  import opened Bytes
  import opened Operands
  import opened Encoder
  import opened Assembler
  import opened Linker
  import opened ObjectLayout
  import opened LinkFacts
  import opened LinkedProgram
  import opened BuildConditions

  // ---- data lines ----

  /** The declared names in order, each with the address the program gives it. */
  function Addresses(names: seq<string>, u: SymbolMap): seq<Binding> {
    seq(|names|, k requires 0 <= k < |names| => (names[k], At(u, names[k]).address))
  }

  /** A data line's buffer is the number its expression comes to, with every declared symbol's
      address at hand, in the line's width and lowest byte first. */
  lemma {:induction false} DataLineMeans(files: seq<SourceFile>, origin: u64, bc: Calculator, f: nat, l: nat)
    requires forall g :: g in files ==> DistinctDeclarations(g) && DeclaresLabels(g)
    requires Build(files, origin, bc).Ok?
    requires f < |files| && l < |files[f].lines| && files[f].lines[l].Data?
    ensures
      var (image, n, line) := (Build(files, origin, bc).value, LinesBefore(files, f, l), files[f].lines[l]);
      && n < |image| && |image[n]| == line.width.Size()
      && FromLe(image[n]) ==
         bc(line.expression, Addresses(files[f].declared, Symbols(files, origin))) % Pow256(line.width.Size())
  {
    hide Build, LinesBefore, Symbols, DeclaresLabels, DistinctDeclarations, AssembleAll, FileState, FromLe, Pow256, At;
    BuiltFromAssembled(files, origin, bc);
    LinkedImage(files, origin, bc, f, l);
    AllAssemble(files, origin);
    var table := AssembleAll(files, origin).value[f].table;
    StateNames(files[f], AssembleAll(files, origin).value[f]);
    BindingsAreAddresses(table, files[f].declared, Symbols(files, origin));
  }

  lemma BuiltFromAssembled(files: seq<SourceFile>, origin: u64, bc: Calculator)
    requires (forall f :: f in files ==> DistinctDeclarations(f)) && Build(files, origin, bc).Ok?
    ensures AssembleAll(files, origin).Ok?
  {
    hide AssembleAll, DistinctDeclarations;
  }

  lemma StateNames(file: SourceFile, p: Progress)
    requires FileState(file, p)
    ensures |p.table| == |file.declared| && forall k :: 0 <= k < |p.table| ==> p.table[k].name == file.declared[k]
  {
  }

  lemma BindingsAreAddresses(table: seq<Marker>, names: seq<string>, u: SymbolMap)
    requires |table| == |names| && forall k :: 0 <= k < |table| ==> table[k].name == names[k]
    requires forall m :: m in table ==> m.name in u
    ensures Bindings(table, u) == Addresses(names, u)
  {
    forall k | 0 <= k < |table|
      ensures Bindings(table, u)[k] == Addresses(names, u)[k]
    {
      assert table[k] in table;
    }
  }

  // ---- errors ----

  ghost predicate Repeated(names: seq<string>, n: string) {
    exists i, j :: 0 <= i < j < |names| && names[i] == n && names[j] == n
  }

  ghost predicate SomeLineFails(file: SourceFile) {
    !AllCompile(file.lines, file.declared)
  }

  /** The file has a line that refers to `n` and holds its placeholder not once. */
  ghost predicate RefersAmbiguously(file: SourceFile, n: string) {
    exists l :: 0 <= l < |file.lines| && RefersBadly(file.lines[l], file.declared, n)
  }

  ghost predicate RefersBadly(line: Line, declared: seq<string>, n: string) {
    line.Code? && FirstDeclared(declared, line.source) == Some(n) && !Patchable(StatementOf(line.source, declared))
  }

  ghost predicate ErrorIsTrue(files: seq<SourceFile>, e: BuildError) {
    match e
    case MultipleDefinition(n) => Repeated(ProgramLabels(files), n)
    case CannotEncode => exists f :: f in files && SomeLineFails(f)
    case UndefinedReference(n) => n !in ProgramLabels(files) && exists f :: f in files && n in f.declared
    case AmbiguousReference(n) => exists f :: f in files && RefersAmbiguously(f, n)
  }

  lemma RepeatedInSum(a: seq<string>, b: seq<string>, n: string)
    requires Repeated(a, n) || Repeated(b, n) || (n in a && n in b)
    ensures Repeated(a + b, n)
  {
    var c := a + b;
    if Repeated(a, n) {
      var i, j :| 0 <= i < j < |a| && a[i] == n && a[j] == n;
      assert c[i] == n && c[j] == n;
    } else if Repeated(b, n) {
      var i, j :| 0 <= i < j < |b| && b[i] == n && b[j] == n;
      assert c[|a| + i] == n && c[|a| + j] == n;
    } else {
      var i :| 0 <= i < |a| && a[i] == n;
      var j :| 0 <= j < |b| && b[j] == n;
      assert c[i] == n && c[|a| + j] == n;
    }
  }

  // ---- the assembler's errors ----

  lemma {:induction false} LineError(p: Progress, line: Line, origin: u64, declared: seq<string>)
    requires Ready(p, declared) && (forall n :: n in LabelOf(line) ==> n in declared)
    requires AssembleLine(p, line, origin).Err?
    ensures var e := AssembleLine(p, line, origin).error;
            || (line.Label? && e == MultipleDefinition(line.name) && IsDefined(p.table, line.name))
            || (line.Code? && e == CannotEncode && !Compiles(line.source, declared))
  {
    hide IsDefined, ListsDeclared, Record, Concat, Wrap64, Compiles, Draft;
    LineExactly(p, line, origin, declared);
  }

  lemma {:induction false} LinesError(p: Progress, lines: seq<Line>, origin: u64, declared: seq<string>)
    requires Ready(p, declared) && (forall n :: n in Labels(lines) ==> n in declared)
    requires AssembleFrom(p, lines, origin).Err?
    ensures match AssembleFrom(p, lines, origin).error
            case MultipleDefinition(n) => n in Labels(lines) && (IsDefined(p.table, n) || Repeated(Labels(lines), n))
            case CannotEncode => !AllCompile(lines, declared)
            case _ => false
    decreases |lines|
  {
    hide IsDefined, ListsDeclared, AssembleLine, EmittedFor, Compiles, AllDrafted, AllCompile, Advanced, Repeated;
    var line, rest := lines[0], lines[1..];
    FirstCompiles(lines, declared);
    LineExactly(p, line, origin, declared);
    if AssembleLine(p, line, origin).Err? {
      LineError(p, line, origin, declared);
    } else {
      var q := AssembleLine(p, line, origin).value;
      AdvancedDefines(p, q, EmittedFor(line, declared), LabelOf(line), declared);
      LinesError(q, rest, origin, declared);
      if AssembleFrom(q, rest, origin).error.MultipleDefinition? {
        var n := AssembleFrom(q, rest, origin).error.name;
        if !IsDefined(p.table, n) {
          RepeatedInSum(LabelOf(line), Labels(rest), n);
        }
      }
    }
  }

  lemma AdvancedDefines(p: Progress, q: Progress, es: seq<Emission>, names: seq<string>, declared: seq<string>)
    requires Advanced(p, q, es, names, declared)
    ensures Ready(q, declared) && forall n :: IsDefined(q.table, n) <==> IsDefined(p.table, n) || n in names
  {
  }

  lemma {:induction false} FileError(file: SourceFile, origin: u64)
    requires WellDeclared(file) && Assemble(file, origin).Err?
    ensures match Assemble(file, origin).error
            case MultipleDefinition(n) => Repeated(Labels(file.lines), n)
            case CannotEncode => SomeLineFails(file)
            case _ => false
  {
    hide Compiles, AllCompile, AssembleFrom, Repeated;
    NothingEmitted(file);
    LinesError(Progress([], InitialTable(file.declared)), file.lines, origin, file.declared);
  }

  lemma {:induction false} AssembleError(files: seq<SourceFile>, origin: u64)
    requires (forall f :: f in files ==> WellDeclared(f)) && AssembleAll(files, origin).Err?
    ensures ErrorIsTrue(files, AssembleAll(files, origin).error)
    ensures
      var e := AssembleAll(files, origin).error;
      e.MultipleDefinition? || e.CannotEncode?
    decreases |files|
  {
    hide Assemble, SomeLineFails, AllDrafted, EndOf, Repeated, Labels, WellDeclared;
    assert files[0] in files;
    if Assemble(files[0], origin).Err? {
      FileError(files[0], origin);
      if Assemble(files[0], origin).error.MultipleDefinition? {
        RepeatedInSum(Labels(files[0].lines), ProgramLabels(files[1..]), Assemble(files[0], origin).error.name);
      }
    } else {
      var end := EndOf(Assemble(files[0], origin).value, origin);
      AssembleError(files[1..], end);
      var e := AssembleAll(files[1..], end).error;
      if e.MultipleDefinition? {
        RepeatedInSum(Labels(files[0].lines), ProgramLabels(files[1..]), e.name);
      }
    }
  }

  // ---- the linker's errors ----

  ghost predicate DefinedTwice(ms: seq<Marker>, n: string) {
    exists i, j :: 0 <= i < j < |ms| && ms[i].defined && ms[i].name == n && ms[j].defined && ms[j].name == n
  }

  lemma {:induction false} UnifyError(u: SymbolMap, ms: seq<Marker>)
    requires AddTable(u, ms).Err?
    ensures match AddTable(u, ms).error
            case MultipleDefinition(n) => Defines(ms, n) && (At(u, n).defined || DefinedTwice(ms, n))
            case _ => false
    decreases |ms|
  {
    hide At, AddSymbol;
    AddSymbolFacts(u, ms[0]);
    SplitFirst(u, ms);
    FirstError(u, ms[0]);
    if AddSymbol(u, ms[0]).Ok? {
      UnifyError(AddSymbol(u, ms[0]).value, ms[1..]);
      var n := AddTable(AddSymbol(u, ms[0]).value, ms[1..]).error.name;
      if !At(u, n).defined {
        TwiceInRest(ms, n);
      }
    }
  }

  lemma FirstError(u: SymbolMap, m: Marker)
    ensures AddSymbol(u, m).Err? ==>
              m.defined && At(u, m.name).defined && AddSymbol(u, m).error == MultipleDefinition(m.name)
  {
  }

  lemma TwiceInRest(ms: seq<Marker>, n: string)
    requires ms != [] && Defines(ms[1..], n) && (DefinedTwice(ms[1..], n) || (ms[0].defined && ms[0].name == n))
    ensures DefinedTwice(ms, n)
  {
    var rest := ms[1..];
    if DefinedTwice(rest, n) {
      var i, j :| 0 <= i < j < |rest|
        && rest[i].defined && rest[i].name == n && rest[j].defined && rest[j].name == n;
      assert ms[i + 1] == rest[i] && ms[j + 1] == rest[j];
    } else {
      var m :| m in rest && m.defined && m.name == n;
      var j :| 0 <= j < |rest| && rest[j] == m;
      assert ms[j + 1] == m;
    }
  }

  lemma TwiceInSum(a: seq<Marker>, b: seq<Marker>, n: string)
    requires DefinedTwice(a + b, n) && !DefinedTwice(b, n)
    ensures DefinedTwice(a, n) || (Defines(a, n) && Defines(b, n))
  {
    var c := a + b;
    var i, j :| 0 <= i < j < |c| && c[i].defined && c[i].name == n && c[j].defined && c[j].name == n;
    if j < |a| {
      assert a[i] == c[i] && a[j] == c[j];
    } else if i < |a| {
      assert a[i] in a && b[j - |a|] in b;
    }
  }

  lemma {:induction false} TwiceIsRepeated(files: seq<SourceFile>, ps: seq<Progress>, n: string)
    requires FileStates(files, ps) && (forall p :: p in ps ==> AllDrafted(p.emitted))
    requires (forall f :: f in files ==> NoRepeats(Labels(f.lines))) && DefinedTwice(AllMarkers(Objects(ps)), n)
    ensures Repeated(ProgramLabels(files), n)
  {
    hide FileState, AllDrafted, NoRepeats, DefinedOnce, Defines, Labels, DefinedTwice, Repeated;
    if files == [] {
      NoneTwice(n);
    } else {
      var rest := AllMarkers(Objects(ps[1..]));
      DefinedByFile(files[0], ps[0]);
      assert Objects(ps)[0].symbols == ps[0].table && Objects(ps)[1..] == Objects(ps[1..]);
      if DefinedTwice(rest, n) {
        TwiceIsRepeated(files[1..], ps[1..], n);
      } else {
        TwiceInSum(ps[0].table, rest, n);
        NotTwice(ps[0].table, n);
        DefinedByProgram(files[1..], ps[1..]);
      }
      RepeatedInSum(Labels(files[0].lines), ProgramLabels(files[1..]), n);
    }
  }

  lemma NoneTwice(n: string)
    ensures !DefinedTwice([], n)
  {
  }

  lemma NotTwice(ms: seq<Marker>, n: string)
    requires DefinedOnce(ms)
    ensures !DefinedTwice(ms, n)
  {
  }

  lemma {:induction false} PatchSitesError(code: seq<seq<byte>>, name: string, sites: seq<nat>, address: u64)
    requires forall i :: 0 <= i < |sites| ==> sites[i] < |code|
    requires PatchSites(code, name, sites, address).Err?
    ensures PatchSites(code, name, sites, address).error == AmbiguousReference(name)
    decreases |sites|
  {
    hide Count, Replace, EncConstant;
    if Count(code[sites[0]], PLACEHOLDER) == 1 {
      PatchSitesError(code[sites[0] := Replace(code[sites[0]], PLACEHOLDER, EncConstant(W64, address))], name,
                      sites[1..], address);
    }
  }

  /** A buffer that refers to `n` and holds its placeholder not once. */
  ghost predicate Ambiguous(code: seq<seq<byte>>, es: seq<Emission>, n: string)
    requires |code| == |es|
  {
    exists i :: 0 <= i < |es| && Refers(es[i], n) && Count(code[i], PLACEHOLDER) != 1
  }

  ghost predicate TableErrorIsTrue(code: seq<seq<byte>>, table: seq<Marker>, u: SymbolMap, es: seq<Emission>,
                                   e: BuildError)
    requires |code| == |es|
  {
    match e
    case UndefinedReference(n) => Lists(table, n) && !At(u, n).defined
    case AmbiguousReference(n) => Lists(table, n) && Ambiguous(code, es, n)
    case _ => false
  }

  lemma {:induction false} SitesError(code: seq<seq<byte>>, m: Marker, address: u64, es: seq<Emission>)
    requires |code| == |es| && m.sites == SitesOf(es, m.name)
    requires (forall i :: 0 <= i < |m.sites| ==> m.sites[i] < |code|) && PatchSites(code, m.name, m.sites, address).Err?
    ensures Ambiguous(code, es, m.name)
  {
    hide Count, PatchSites, SitesOf, Refers;
    SitesOfFacts(es, m.name);
    PatchSitesPointwise(code, m.name, m.sites, address);
    var i :| 0 <= i < |m.sites| && Count(code[m.sites[i]], PLACEHOLDER) != 1;
    assert m.sites[i] in m.sites;
  }

  lemma {:induction false} PatchTableError(code: seq<seq<byte>>, table: seq<Marker>, u: SymbolMap, es: seq<Emission>)
    requires |code| == |es| && SitesMatch(table, es) && SitesInside(table, |code|) && PatchTable(code, table, u).Err?
    ensures TableErrorIsTrue(code, table, u, es, PatchTable(code, table, u).error)
    decreases |table|
  {
    hide Count, WithAddress, SitesOf, SitesMatch, Lists, PatchSites, SitesInside, Ambiguous, Refers;
    ListsFirst(table, es);
    var first, rest := table[0], table[1..];
    SitesAreInside(table, es);
    FirstSites(code, table, es);
    if At(u, first.name).defined {
      var address := u[first.name].address;
      var patched := PatchSites(code, first.name, first.sites, address);
      FirstMatches(table, es);
      PatchSitesPointwise(code, first.name, first.sites, address);
      if patched.Err? {
        PatchSitesError(code, first.name, first.sites, address);
        SitesError(code, first, address, es);
      } else {
        PatchTableError(patched.value, rest, u, es);
        var e := PatchTable(patched.value, rest, u).error;
        if e.AmbiguousReference? {
          StillAmbiguous(code, patched.value, first, es, e.name);
        }
      }
    }
  }

  lemma FirstMatches(table: seq<Marker>, es: seq<Emission>)
    requires table != [] && SitesMatch(table, es)
    ensures table[0].sites == SitesOf(es, table[0].name)
  {
  }

  lemma StillAmbiguous(code: seq<seq<byte>>, patched: seq<seq<byte>>, m: Marker, es: seq<Emission>, n: string)
    requires |code| == |patched| == |es| && m.sites == SitesOf(es, m.name) && Ambiguous(patched, es, n) && n != m.name
    requires forall k: nat :: k < |code| ==> k in m.sites || patched[k] == code[k]
    ensures Ambiguous(code, es, n)
  {
    hide Count, SitesOf;
    SitesOfFacts(es, m.name);
    var i: nat :| i < |es| && Refers(es[i], n) && Count(patched[i], PLACEHOLDER) != 1;
    assert i !in m.sites;
  }

  lemma {:induction false} ObjectError(file: SourceFile, p: Progress, u: SymbolMap, bc: Calculator)
    requires FileState(file, p) && TableMatches(p.table, p.emitted) && WellFormed(ObjectOf(p))
    requires LinkObject(ObjectOf(p), u, bc).Err?
    ensures match LinkObject(ObjectOf(p), u, bc).error
            case UndefinedReference(n) => n in file.declared && !At(u, n).defined
            case AmbiguousReference(n) => RefersAmbiguously(file, n)
            case _ => false
  {
    hide AllDrafted, Count, PatchTable, Drafts, Refers, SitesOf, Lists, At, IsDefined, RefersAmbiguously;
    ObjectIsWellFormed(p);
    PatchTableError(Drafts(p.emitted), p.table, u, p.emitted);
    var e := LinkObject(ObjectOf(p), u, bc).error;
    if e.UndefinedReference? {
      ListedIsDeclared(file, p, e.name);
    } else {
      AmbiguousLine(file, p, e.name);
    }
  }

  lemma ListedIsDeclared(file: SourceFile, p: Progress, n: string)
    requires FileState(file, p) && Lists(p.table, n)
    ensures n in file.declared
  {
    var k :| 0 <= k < |p.table| && p.table[k].name == n;
    assert file.declared[k] == n;
  }

  lemma {:induction false} AmbiguousLine(file: SourceFile, p: Progress, n: string)
    requires FileState(file, p) && Ambiguous(Drafts(p.emitted), p.emitted, n)
    ensures RefersAmbiguously(file, n)
  {
    hide Count, Draft, Emissions, IsDefined, ListsDeclared;
    var i: nat :| i < |p.emitted| && Refers(p.emitted[i], n) && Count(Drafts(p.emitted)[i], PLACEHOLDER) != 1;
    EachDrafted(p.emitted, i);
    LineOfEmission(file.lines, file.declared, i, n);
  }

  lemma {:induction false} LineOfEmission(lines: seq<Line>, declared: seq<string>, i: nat, n: string)
    requires i < |Emissions(lines, declared)| && Refers(Emissions(lines, declared)[i], n)
    requires !Patchable(Emissions(lines, declared)[i])
    ensures exists l :: 0 <= l < |lines| && RefersBadly(lines[l], declared, n)
  {
    hide Patchable, FirstDeclared;
    if Emits(lines[0]) && i == 0 {
      assert RefersBadly(lines[0], declared, n);
    } else {
      LineOfEmission(lines[1..], declared, i - |EmittedFor(lines[0], declared)|, n);
      var l :| 0 <= l < |lines[1..]| && RefersBadly(lines[1..][l], declared, n);
      assert RefersBadly(lines[l + 1], declared, n);
    }
  }

  lemma {:induction false} LinkError(files: seq<SourceFile>, ps: seq<Progress>, u: SymbolMap, bc: Calculator)
    requires FileStates(files, ps) && AllMatch(ps) && (forall o :: o in Objects(ps) ==> WellFormed(o))
    requires LinkFrom(Objects(ps), u, bc).Err?
    ensures match LinkFrom(Objects(ps), u, bc).error
            case UndefinedReference(n) => !At(u, n).defined && exists f :: f in files && n in f.declared
            case AmbiguousReference(n) => exists f :: f in files && RefersAmbiguously(f, n)
            case _ => false
    decreases |files|
  {
    hide FileState, AllDrafted, TableMatches, WellFormed, LinkObject, ObjectOf, RefersAmbiguously, At;
    assert Objects(ps)[0] == ObjectOf(ps[0]) && Objects(ps)[1..] == Objects(ps[1..]);
    assert files[0] in files;
    if LinkObject(Objects(ps)[0], u, bc).Err? {
      ObjectError(files[0], ps[0], u, bc);
    } else {
      LinkError(files[1..], ps[1..], u, bc);
    }
  }

  /** A failed build names a true fault of the source: a label defined twice, a line that cannot
      be encoded, a declared symbol that is no label, or a reference to a symbol in a line that
      holds its placeholder not once. */
  lemma {:induction false} BuildErrorIsTrue(files: seq<SourceFile>, origin: u64, bc: Calculator)
    requires forall g :: g in files ==> DistinctDeclarations(g) && DeclaresLabels(g)
    requires Build(files, origin, bc).Err?
    ensures ErrorIsTrue(files, Build(files, origin, bc).error)
  {
    hide DistinctDeclarations, DeclaresLabels, AssembleAll, FileState, AllDrafted, TableMatches, WellFormed, LinkFrom;
    hide Repeated, ProgramLabels, Labels, NoRepeats, AllCompile, RefersAmbiguously, Unify, AddTable;
    if AssembleAll(files, origin).Err? {
      AssembleError(files, origin);
    } else {
      var ps := AssembleAll(files, origin).value;
      var ms := AllMarkers(Objects(ps));
      AllAssemble(files, origin);
      AssembledTablesMatch(files, origin);
      ObjectsAreWellFormed(ps);
      UnifyIsAddTable(map[], Objects(ps));
      if AddTable(map[], ms).Err? {
        UnifyError(map[], ms);
        TwiceIsRepeated(files, ps, AddTable(map[], ms).error.name);
      } else {
        var u := AddTable(map[], ms).value;
        AddTableFacts(map[], ms);
        DefinedByProgram(files, ps);
        LinkError(files, ps, u, bc);
      }
    }
  }
}
