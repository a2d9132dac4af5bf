/** The assembler: lines of one source file to an object of byte buffers and symbols. */
module Assembler {
  import opened Bytes
  import opened InstructionSet
  import opened Operands
  import opened Encoder

  datatype SourceOperand = Plain(target: Target) | Symbol(name: string)

  datatype SourceInstruction = SourceInstruction(mnemonic: Mnemonic, width: Option<Width>, operands: seq<SourceOperand>)

  /** A preprocessed source line, classified. */
  datatype Line =
    | Blank
    | Label(name: string)
    | Literal(bytes: seq<byte>)                     // strings and reserved bytes
    | Data(width: Width, expression: string)        // evaluated at link time
    | Code(source: SourceInstruction)

  datatype Marker = Marker(name: string, position: u64, defined: bool, referenced: bool, sites: seq<nat>)

  datatype DataSite = DataSite(site: nat, width: Width, expression: string)

  datatype ObjectFile = ObjectFile(code: seq<seq<byte>>, symbols: seq<Marker>, data: seq<DataSite>)

  datatype BuildError =
    | MultipleDefinition(name: string)
    | CannotEncode
    | UndefinedReference(name: string)
    | AmbiguousReference(name: string)

  datatype Result<+T> = Ok(value: T) | Err(error: BuildError)

  /** A result with more in front of it. */
  ghost function Prepend<T>(before: seq<T>, r: Result<seq<T>>): Result<seq<T>> {
    match r
    case Err(e) => Err(e)
    case Ok(rest) => Ok(before + rest)
  }

  lemma PrependNothing<T>(r: Result<seq<T>>)
    ensures Prepend([], r) == r
  {
    if r.Ok? {
      assert [] + r.value == r.value;
    }
  }

  lemma PrependTwice<T>(a: seq<T>, b: seq<T>, r: Result<seq<T>>)
    ensures Prepend(a, Prepend(b, r)) == Prepend(a + b, r)
  {
    if r.Ok? {
      assert a + (b + r.value) == a + b + r.value;
    }
  }

  const ALL_ONES: u64 := 0xFFFF_FFFF_FFFF_FFFF

  // ---- symbol operands ----

  function SubstituteOperand(o: SourceOperand, value: u64): Target {
    match o
    case Plain(t) => t
    case Symbol(_) => Constant(W64, value)
  }

  /** The instruction with one symbol replaced by a 64-bit constant. Any other symbol makes
      it unparsable, unless the instruction takes no operands and never looks at them. */
  function Substitute(source: SourceInstruction, symbol: Option<string>, value: u64): Option<Instruction> {
    if ArgumentCount(source.mnemonic) == 0 then
      Some(Instruction(source.mnemonic, source.width, []))
    else if exists o :: o in source.operands && o.Symbol? && Some(o.name) != symbol then
      None
    else
      Some(Instruction(source.mnemonic, source.width,
                       seq(|source.operands|,
                         k requires 0 <= k < |source.operands| => SubstituteOperand(source.operands[k], value))))
  }

  /** What one line contributes to the code. */
  datatype Emission =
    | Fixed(bytes: seq<byte>)
    | Word(width: Width, expression: string)
    | Statement(source: SourceInstruction, symbol: Option<string>)

  /** The bytes emitted before linking: symbols are all ones and data is zero. */
  function Draft(e: Emission): Option<seq<byte>> {
    match e
    case Fixed(bytes) => Some(bytes)
    case Word(width, _) => Some(seq(width.Size(), _ => 0))
    case Statement(source, symbol) =>
      var i := Substitute(source, symbol, ALL_ONES);
      if i.Some? && Accepts(i.value) then Some(Encode(i.value)) else None
  }

  predicate AllDrafted(es: seq<Emission>) {
    forall e :: e in es ==> Draft(e).Some?
  }

  function Drafts(es: seq<Emission>): (r: seq<seq<byte>>)
    requires AllDrafted(es)
    ensures |r| == |es|
  {
    seq(|es|, k requires 0 <= k < |es| => Draft(es[k]).value)
  }

  lemma DraftsSnoc(es: seq<Emission>, e: Emission)
    requires AllDrafted(es) && Draft(e).Some?
    ensures AllDrafted(es + [e]) && Drafts(es + [e]) == Drafts(es) + [Draft(e).value]
  {
    hide Draft;
  }

  function DataSites(es: seq<Emission>): seq<DataSite>
  {
    if es == [] then []
    else
      var n, before := |es| - 1, DataSites(es[..|es| - 1]);
      if es[n].Word? then before + [DataSite(n, es[n].width, es[n].expression)] else before
  }

  // ---- the symbol table of one file ----

  function IndexOfMarker(table: seq<Marker>, name: string): (k: nat)
    ensures k <= |table|
    ensures k < |table| ==> table[k].name == name
    ensures forall j :: 0 <= j < k ==> table[j].name != name
  {
    if table == [] || table[0].name == name then 0
    else
      var k := IndexOfMarker(table[1..], name);
      assert forall j :: 0 < j < k + 1 ==> table[j] == table[1..][j - 1];
      k + 1
  }

  function Define(table: seq<Marker>, name: string, at: u64): Result<seq<Marker>> {
    var k := IndexOfMarker(table, name);
    if k == |table| then Ok(table + [Marker(name, at, true, false, [])])
    else if table[k].defined then Err(MultipleDefinition(name))
    else Ok(table[k := table[k].(defined := true, position := at)])
  }

  function AddReference(table: seq<Marker>, name: string, site: nat): seq<Marker> {
    var k := IndexOfMarker(table, name);
    if k == |table| then table + [Marker(name, 0, false, true, [site])]
    else table[k := table[k].(referenced := true, sites := table[k].sites + [site])]
  }

  /** The first symbol of the table, in table order, that the instruction mentions. */
  function FirstMentioned(table: seq<Marker>, source: SourceInstruction): Option<string>
  {
    if table == [] then None
    else if Symbol(table[0].name) in source.operands then Some(table[0].name)
    else FirstMentioned(table[1..], source)
  }

  function InitialTable(declared: seq<string>): seq<Marker> {
    seq(|declared|, k requires 0 <= k < |declared| => Marker(declared[k], 0, false, false, []))
  }

  // ---- one line, then all lines ----

  datatype Progress = Progress(emitted: seq<Emission>, table: seq<Marker>)

  function EmissionOf(line: Line, table: seq<Marker>): Emission
    requires !line.Blank? && !line.Label?
  {
    match line
    case Literal(bytes) => Fixed(bytes)
    case Data(width, expression) => Word(width, expression)
    case Code(source) => Statement(source, FirstMentioned(table, source))
  }

  function Record(table: seq<Marker>, e: Emission, site: nat): seq<Marker> {
    if e.Statement? && e.symbol.Some? then AddReference(table, e.symbol.value, site) else table
  }

  function AssembleLine(p: Progress, line: Line, origin: u64): (r: Result<Progress>)
    requires AllDrafted(p.emitted)
    ensures r.Ok? ==> AllDrafted(r.value.emitted)
  {
    match line
    case Blank => Ok(p)
    case Label(name) =>
      (match Define(p.table, name, Wrap64(|Concat(Drafts(p.emitted))| + origin))
       case Err(e) => Err(e)
       case Ok(table) => Ok(Progress(p.emitted, table)))
    case _ =>
      var e := EmissionOf(line, p.table);
      if Draft(e).None? then Err(CannotEncode)
      else Ok(Progress(p.emitted + [e], Record(p.table, e, |p.emitted|)))
  }

  function AssembleFrom(p: Progress, lines: seq<Line>, origin: u64): (r: Result<Progress>)
    requires AllDrafted(p.emitted)
    ensures r.Ok? ==> AllDrafted(r.value.emitted)
    decreases |lines|
  {
    if lines == [] then Ok(p)
    else
      match AssembleLine(p, lines[0], origin)
      case Err(e) => Err(e)
      case Ok(q) => AssembleFrom(q, lines[1..], origin)
  }

  function ObjectOf(p: Progress): ObjectFile
    requires AllDrafted(p.emitted)
  {
    ObjectFile(Drafts(p.emitted), p.table, DataSites(p.emitted))
  }

  datatype SourceFile = SourceFile(lines: seq<Line>, declared: seq<string>)

  function Assemble(file: SourceFile, origin: u64): (r: Result<Progress>)
    ensures r.Ok? ==> AllDrafted(r.value.emitted)
  {
    AssembleFrom(Progress([], InitialTable(file.declared)), file.lines, origin)
  }

  // ---- the assembler's methods ----

  method CodeSizeNow(code: seq<seq<byte>>) returns (size: nat)
    ensures size == |Concat(code)|
  {
    size := 0;
    for i := 0 to |code|
      invariant size + |Concat(code[i..])| == |Concat(code)|
    {
      size := size + |code[i]|;
    }
  }

  method FindMarker(table: seq<Marker>, name: string) returns (k: nat)
    ensures k == IndexOfMarker(table, name)
  {
    k := 0;
    while k < |table| && table[k].name != name
      invariant k <= |table| && k + IndexOfMarker(table[k..], name) == IndexOfMarker(table, name)
    {
      k := k + 1;
    }
  }

  method EmplaceMarker(table: seq<Marker>, name: string, at: u64) returns (r: Result<seq<Marker>>)
    ensures r == Define(table, name, at)
  {
    var k := FindMarker(table, name);
    if k < |table| {
      if table[k].defined {
        return Err(MultipleDefinition(name));
      }
      return Ok(table[k := table[k].(defined := true, position := at)]);
    }
    return Ok(table + [Marker(name, at, true, false, [])]);
  }

  method AddMarkerReference(table: seq<Marker>, name: string, site: nat) returns (r: seq<Marker>)
    ensures r == AddReference(table, name, site)
  {
    var k := FindMarker(table, name);
    if k < |table| {
      return table[k := table[k].(referenced := true, sites := table[k].sites + [site])];
    }
    return table + [Marker(name, 0, false, true, [site])];
  }

  method MatchMarker(table: seq<Marker>, source: SourceInstruction) returns (r: Option<string>)
    ensures r == FirstMentioned(table, source)
  {
    for k := 0 to |table|
      invariant FirstMentioned(table[k..], source) == FirstMentioned(table, source)
    {
      if Symbol(table[k].name) in source.operands {
        return Some(table[k].name);
      }
    }
    return None;
  }

  /** A statement's code appended to a fresh buffer. */
  method CompileStatement(source: SourceInstruction, symbol: Option<string>) returns (r: Option<seq<byte>>)
    ensures r == Draft(Statement(source, symbol))
  {
    hide Accepts, Encode, Substitute;
    var i := Substitute(source, symbol, ALL_ONES);
    if i.None? {
      return None;
    }
    var buffer := new CodeBuffer([]);
    var ok := EncodeInstruction(buffer, i.value);
    assert ok ==> buffer.code == Encode(i.value);
    return if ok then Some(buffer.code) else None;
  }

  lemma DataSitesSnoc(es: seq<Emission>, e: Emission)
    ensures
      DataSites(es + [e]) ==
      DataSites(es) + if e.Word? then [DataSite(|es|, e.width, e.expression)] else []
  {
    assert (es + [e])[..|es|] == es;
  }

  lemma AssembleStep(p: Progress, lines: seq<Line>, n: nat, origin: u64)
    requires AllDrafted(p.emitted) && n < |lines|
    ensures
      AssembleFrom(p, lines[n..], origin) ==
      match AssembleLine(p, lines[n], origin)
      case Err(e) => Err(e)
      case Ok(q) => AssembleFrom(q, lines[n + 1..], origin)
  {
    hide AssembleLine;
    assert lines[n..][1..] == lines[n + 1..];
  }

  lemma EmptyHead(code: seq<seq<byte>>)
    ensures Concat([[]] + code) == Concat(code)
  {
    assert ([[]] + code)[1..] == code;
    assert Concat([[]] + code) == [] + Concat(code);
  }

  /** A line that emits code or data: the new buffer and what is recorded about it. The
      index recorded is the one the buffer has once the empty head entry is gone. */
  method AssembleStatement(code: seq<seq<byte>>, table: seq<Marker>, data: seq<DataSite>, line: Line)
    returns (buffer: Option<seq<byte>>, newTable: seq<Marker>, newData: seq<DataSite>)
    requires code != [] && !line.Blank? && !line.Label?
    ensures buffer == Draft(EmissionOf(line, table))
    ensures newTable == Record(table, EmissionOf(line, table), |code| - 1)
    ensures
      newData ==
      data + if line.Data? then [DataSite(|code| - 1, line.width, line.expression)] else []
  {
    newTable, newData := table, data;
    match line {
      case Literal(bytes) =>
        buffer := Some(bytes);
      case Data(width, expression) =>
        newData := data + [DataSite(|code| - 1, width, expression)];
        buffer := Some(seq(width.Size(), _ => 0));
      case Code(source) =>
        var symbol := MatchMarker(table, source);
        if symbol.Some? {
          newTable := AddMarkerReference(table, symbol.value, |code| - 1);
        }
        buffer := CompileStatement(source, symbol);
    }
  }

  /** Assembles a file: the object and the origin its code ends at. The buffer list starts
      with an empty head entry, which is dropped at the end. */
  method SysdarftAssemble(lines: seq<Line>, origin: u64, declared: seq<Marker>)
    returns (r: Result<ObjectFile>, end: u64)
    ensures var spec := AssembleFrom(Progress([], declared), lines, origin);
            && (spec.Err? ==> r == Err(spec.error))
            && (spec.Ok? ==>
                  && r == Ok(ObjectOf(spec.value))
                  && end == Wrap64(origin + |Concat(Drafts(spec.value.emitted))|))
  {
    hide Draft, FirstMentioned, Concat, DataSites, Define, Record, Wrap64, AllDrafted, Drafts, AssembleFrom;
    var code: seq<seq<byte>> := [[]];
    var table, data := declared, [];
    ghost var emitted: seq<Emission> := [];
    StartOfFile();
    end := origin;
    for n := 0 to |lines|
      invariant AllDrafted(emitted) && code == [[]] + Drafts(emitted) && data == DataSites(emitted)
      invariant AssembleFrom(Progress(emitted, table), lines[n..], origin) ==
        AssembleFrom(Progress([], declared), lines, origin)
    {
      AssembleStep(Progress(emitted, table), lines, n, origin);
      var line := lines[n];
      if line.Label? {
        EmptyHead(Drafts(emitted));
        var size := CodeSizeNow(code);
        var defined := EmplaceMarker(table, line.name, Wrap64(size + origin));
        if defined.Err? {
          return Err(defined.error), origin;
        }
        table := defined.value;
      } else if !line.Blank? {
        ghost var e := EmissionOf(line, table);
        var buffer, newTable, newData := AssembleStatement(code, table, data, line);
        if buffer.None? {
          return Err(CannotEncode), origin;
        }
        DraftsSnoc(emitted, e);
        DataSitesSnoc(emitted, e);
        Associate([[]], Drafts(emitted), [buffer.value]);
        code, table, data := code + [buffer.value], newTable, newData;
        emitted := emitted + [e];
      }
    }
    assert lines[|lines|..] == [];
    AssembledAll(Progress(emitted, table), origin);
    code := code[1..];
    assert code == Drafts(emitted);
    var size := CodeSizeNow(code);
    return Ok(ObjectFile(code, table, data)), Wrap64(origin + size);
  }

  lemma StartOfFile()
    ensures AllDrafted([]) && Drafts([]) == [] && DataSites([]) == []
  {
  }

  lemma AssembledAll(p: Progress, origin: u64)
    requires AllDrafted(p.emitted)
    ensures AssembleFrom(p, [], origin) == Ok(p)
  {
  }
}
