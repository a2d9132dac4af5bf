/** What assembling one file establishes: label positions, recorded sites, emitted lines. */
module ObjectLayout {
  import opened Bytes
  import opened Assembler

  predicate Emits(line: Line) {
    !line.Blank? && !line.Label?
  }

  function CountEmitting(lines: seq<Line>): nat {
    if lines == [] then 0 else (if Emits(lines[0]) then 1 else 0) + CountEmitting(lines[1..])
  }

  predicate Refers(e: Emission, name: string) {
    e.Statement? && e.symbol == Some(name)
  }

  /** The indices of the emissions that refer to a symbol. */
  function SitesOf(es: seq<Emission>, name: string): seq<nat> {
    if es == [] then []
    else SitesOf(es[..|es| - 1], name) + if Refers(es[|es| - 1], name) then [|es| - 1] else []
  }

  ghost predicate DistinctNames(table: seq<Marker>) {
    forall i, j :: 0 <= i < j < |table| ==> table[i].name != table[j].name
  }

  ghost predicate Lists(table: seq<Marker>, name: string) {
    exists k :: 0 <= k < |table| && table[k].name == name
  }

  ghost predicate AllListed(table: seq<Marker>, es: seq<Emission>) {
    forall e, name :: e in es && Refers(e, name) ==> Lists(table, name)
  }

  /** Each symbol is listed once, with exactly the sites of the emissions that refer to it. */
  ghost predicate TableMatches(table: seq<Marker>, es: seq<Emission>) {
    && DistinctNames(table) && AllListed(table, es)
    && forall k :: 0 <= k < |table| ==> table[k].sites == SitesOf(es, table[k].name)
  }

  lemma SitesOfSnoc(es: seq<Emission>, e: Emission, name: string)
    ensures SitesOf(es + [e], name) == SitesOf(es, name) + if Refers(e, name) then [|es|] else []
  {
    assert (es + [e])[..|es|] == es;
  }

  lemma {:induction false} NoSitesUnlessListed(es: seq<Emission>, name: string)
    requires forall e :: e in es ==> !Refers(e, name)
    ensures SitesOf(es, name) == []
  {
    if es != [] {
      NoSitesUnlessListed(es[..|es| - 1], name);
    }
  }

  lemma {:induction false} FirstMentionedIsListed(table: seq<Marker>, source: SourceInstruction)
    ensures var s := FirstMentioned(table, source);
            && (s.Some? ==> Lists(table, s.value) && Symbol(s.value) in source.operands)
            && (s.None? ==> forall k :: 0 <= k < |table| ==> Symbol(table[k].name) !in source.operands)
  {
    if table != [] {
      FirstMentionedIsListed(table[1..], source);
      var s := FirstMentioned(table, source);
      if Symbol(table[0].name) !in source.operands {
        if s.Some? {
          var k :| 0 <= k < |table| - 1 && table[1..][k].name == s.value;
          assert table[k + 1].name == s.value;
        }
        assert forall k :: 0 < k < |table| ==> table[k] == table[1..][k - 1];
      }
    }
  }

  lemma DefineKeepsTable(table: seq<Marker>, es: seq<Emission>, name: string, at: u64)
    requires TableMatches(table, es) && Define(table, name, at).Ok?
    ensures TableMatches(Define(table, name, at).value, es)
  {
    hide SitesOf, Refers;
    var k, t := IndexOfMarker(table, name), Define(table, name, at).value;
    if k == |table| {
      forall e | e in es
        ensures !Refers(e, name)
      {
        assert !Lists(table, name);
      }
      NoSitesUnlessListed(es, name);
    }
    assert forall j :: 0 <= j < |table| ==> t[j].name == table[j].name;
    forall e, n | e in es && Refers(e, n)
      ensures Lists(t, n)
    {
      assert Lists(table, n);
    }
  }

  lemma RecordKeepsTable(table: seq<Marker>, es: seq<Emission>, e: Emission)
    requires TableMatches(table, es) && (e.Statement? && e.symbol.Some? ==> Lists(table, e.symbol.value))
    ensures TableMatches(Record(table, e, |es|), es + [e])
  {
    hide SitesOf;
    var t := Record(table, e, |es|);
    if e.Statement? && e.symbol.Some? {
      var k := IndexOfMarker(table, e.symbol.value);
      assert k < |table|;
    }
    assert |t| == |table| && forall j :: 0 <= j < |table| ==> t[j].name == table[j].name;
    forall k | 0 <= k < |t|
      ensures t[k].sites == SitesOf(es + [e], t[k].name)
    {
      SitesOfSnoc(es, e, t[k].name);
    }
    forall d, n | d in es + [e] && Refers(d, n)
      ensures Lists(t, n)
    {
      assert Lists(table, n);
    }
  }

  lemma {:induction false} LineKeepsTable(p: Progress, line: Line, origin: u64)
    requires AllDrafted(p.emitted) && TableMatches(p.table, p.emitted)
    requires AssembleLine(p, line, origin).Ok?
    ensures var q := AssembleLine(p, line, origin).value; TableMatches(q.table, q.emitted)
  {
    hide TableMatches, Define, Record, Draft, FirstMentioned, Lists, Concat, Wrap64;
    if line.Label? {
      DefineKeepsTable(p.table, p.emitted, line.name, Wrap64(|Concat(Drafts(p.emitted))| + origin));
    } else if !line.Blank? {
      if line.Code? {
        FirstMentionedIsListed(p.table, line.source);
      }
      RecordKeepsTable(p.table, p.emitted, EmissionOf(line, p.table));
    }
  }

  lemma {:induction false} LinesKeepTable(p: Progress, lines: seq<Line>, origin: u64)
    requires AllDrafted(p.emitted) && TableMatches(p.table, p.emitted)
    requires AssembleFrom(p, lines, origin).Ok?
    ensures var q := AssembleFrom(p, lines, origin).value; TableMatches(q.table, q.emitted)
    decreases |lines|
  {
    hide TableMatches, AssembleLine, AllDrafted;
    if lines != [] {
      LineKeepsTable(p, lines[0], origin);
      LinesKeepTable(AssembleLine(p, lines[0], origin).value, lines[1..], origin);
    }
  }

  // ---- definitions ----

  ghost predicate DefinedAt(table: seq<Marker>, name: string, position: u64) {
    exists k :: 0 <= k < |table| && table[k].name == name && table[k].defined && table[k].position == position
  }

  lemma {:induction false} LineKeepsDefinition(p: Progress, line: Line, origin: u64, name: string, position: u64)
    requires AllDrafted(p.emitted) && AssembleLine(p, line, origin).Ok?
    requires DefinedAt(p.table, name, position)
    ensures DefinedAt(AssembleLine(p, line, origin).value.table, name, position)
  {
    hide Draft, FirstMentioned, Concat, Wrap64;
    var q := AssembleLine(p, line, origin).value;
    var k :| 0 <= k < |p.table| && p.table[k].name == name && p.table[k].defined && p.table[k].position == position;
    assert q.table[k].name == name && q.table[k].defined && q.table[k].position == position;
  }

  lemma {:induction false} LinesKeepDefinition(p: Progress, lines: seq<Line>, origin: u64, name: string, position: u64)
    requires AllDrafted(p.emitted) && AssembleFrom(p, lines, origin).Ok?
    requires DefinedAt(p.table, name, position)
    ensures DefinedAt(AssembleFrom(p, lines, origin).value.table, name, position)
    decreases |lines|
  {
    hide AssembleLine, AllDrafted, DefinedAt;
    if lines != [] {
      LineKeepsDefinition(p, lines[0], origin, name, position);
      LinesKeepDefinition(AssembleLine(p, lines[0], origin).value, lines[1..], origin, name, position);
    }
  }

  // ---- the state at a given line ----

  lemma {:induction false} LinesAppend(p: Progress, lines: seq<Line>, origin: u64)
    requires AllDrafted(p.emitted) && AssembleFrom(p, lines, origin).Ok?
    ensures var q := AssembleFrom(p, lines, origin).value;
            p.emitted <= q.emitted && |q.emitted| == |p.emitted| + CountEmitting(lines)
    decreases |lines|
  {
    hide Draft, AllDrafted, Define, Record, EmissionOf, Concat, Drafts, Wrap64;
    if lines != [] {
      LinesAppend(AssembleLine(p, lines[0], origin).value, lines[1..], origin);
    }
  }

  /** The state in front of line `l`, the step it takes, and what follows. */
  lemma {:induction false} AtLine(p: Progress, lines: seq<Line>, origin: u64, l: nat) returns (here: Progress)
    requires AllDrafted(p.emitted) && AssembleFrom(p, lines, origin).Ok? && l < |lines|
    ensures AllDrafted(here.emitted) && |here.emitted| == |p.emitted| + CountEmitting(lines[..l])
    ensures AssembleLine(here, lines[l], origin).Ok?
    ensures AssembleFrom(AssembleLine(here, lines[l], origin).value, lines[l + 1..], origin) ==
            AssembleFrom(p, lines, origin)
    decreases l
  {
    hide AssembleLine, AllDrafted;
    if l == 0 {
      here := p;
    } else {
      var next := AssembleLine(p, lines[0], origin).value;
      LineAppends(p, lines[0], origin);
      here := AtLine(next, lines[1..], origin, l - 1);
      assert lines[..l][1..] == lines[1..][..l - 1] && lines[1..][l..] == lines[l + 1..];
    }
  }

  lemma LineAppends(p: Progress, line: Line, origin: u64)
    requires AllDrafted(p.emitted) && AssembleLine(p, line, origin).Ok?
    ensures |AssembleLine(p, line, origin).value.emitted| == |p.emitted| + if Emits(line) then 1 else 0
  {
  }

  /** A label's symbol is defined at the origin plus the length of all code before it. */
  lemma {:induction false} LabelInFile(file: SourceFile, origin: u64, l: nat)
    requires Assemble(file, origin).Ok? && l < |file.lines| && file.lines[l].Label?
    ensures var (q, n) := (Assemble(file, origin).value, CountEmitting(file.lines[..l]));
            && n <= |q.emitted|
            && DefinedAt(q.table, file.lines[l].name, Wrap64(origin + |Concat(Drafts(q.emitted)[..n])|))
  {
    hide AllDrafted, Concat, Draft, Wrap64, IndexOfMarker;
    var p := Progress([], InitialTable(file.declared));
    StartOfFile();
    var here := AtLine(p, file.lines, origin, l);
    var next := AssembleLine(here, file.lines[l], origin).value;
    LinesAppend(next, file.lines[l + 1..], origin);
    var at := Wrap64(|Concat(Drafts(here.emitted))| + origin);
    DefinedWhereSaid(here.table, file.lines[l].name, at);
    LinesKeepDefinition(next, file.lines[l + 1..], origin, file.lines[l].name, at);
    assert Drafts(here.emitted) == Drafts(Assemble(file, origin).value.emitted)[..|here.emitted|];
  }

  lemma DefinedWhereSaid(table: seq<Marker>, name: string, at: u64)
    requires Define(table, name, at).Ok?
    ensures DefinedAt(Define(table, name, at).value, name, at)
  {
    var k, t := IndexOfMarker(table, name), Define(table, name, at).value;
    assert t[k].name == name && t[k].defined && t[k].position == at;
  }

  /** What a line contributes, apart from the choice of symbol. */
  ghost predicate Stems(e: Emission, line: Line) {
    match line
    case Literal(bytes) => e == Fixed(bytes)
    case Data(width, expression) => e == Word(width, expression)
    case Code(source) =>
      && e.Statement? && e.source == source
      && (e.symbol.Some? ==> Symbol(e.symbol.value) in source.operands)
    case _ => false
  }

  /** The emission of a line is found behind those of the emitting lines before it. */
  lemma {:induction false} LineInFile(file: SourceFile, origin: u64, l: nat)
    requires Assemble(file, origin).Ok? && l < |file.lines| && Emits(file.lines[l])
    ensures var (q, n) := (Assemble(file, origin).value, CountEmitting(file.lines[..l]));
            n < |q.emitted| && Stems(q.emitted[n], file.lines[l])
  {
    hide AllDrafted, Draft, FirstMentioned, Record;
    var p := Progress([], InitialTable(file.declared));
    StartOfFile();
    var here := AtLine(p, file.lines, origin, l);
    var next := AssembleLine(here, file.lines[l], origin).value;
    LinesAppend(next, file.lines[l + 1..], origin);
    if file.lines[l].Code? {
      FirstMentionedIsListed(here.table, file.lines[l].source);
    }
    assert next.emitted[|here.emitted|] == EmissionOf(file.lines[l], here.table);
  }

  ghost predicate DistinctDeclarations(file: SourceFile) {
    forall i, j :: 0 <= i < j < |file.declared| ==> file.declared[i] != file.declared[j]
  }

  lemma {:induction false} FileTableMatches(file: SourceFile, origin: u64)
    requires Assemble(file, origin).Ok? && DistinctDeclarations(file)
    ensures var q := Assemble(file, origin).value; TableMatches(q.table, q.emitted)
  {
    assert forall name :: SitesOf([], name) == [];
    LinesKeepTable(Progress([], InitialTable(file.declared)), file.lines, origin);
  }
}
