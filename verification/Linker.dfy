/** The linker: one symbol table for all objects, then patching in place. */
module Linker {
  import opened Bytes
  import opened Operands
  import opened Encoder
  import opened Assembler

  /** The constant the assembler leaves where an address belongs. */
  const PLACEHOLDER: seq<byte> := [0x02, 0x64, 0xFF, 0xFF, 0xFF, 0xFF, 0xFF, 0xFF, 0xFF, 0xFF]

  // ---- searching and replacing byte sequences ----

  predicate Occurs(data: seq<byte>, target: seq<byte>, p: int) {
    0 <= p && p + |target| <= |data| && data[p..p + |target|] == target
  }

  /** The first occurrence at or after `from`, or the end of the data. */
  function Search(data: seq<byte>, target: seq<byte>, from: nat): (p: nat)
    requires from <= |data| && target != []
    ensures from <= p <= |data|
    ensures p < |data| ==> Occurs(data, target, p)
    ensures forall q :: from <= q < p ==> !Occurs(data, target, q)
    decreases |data| - from
  {
    if from + |target| > |data| then |data|
    else if Occurs(data, target, from) then from
    else Search(data, target, from + 1)
  }

  /** Occurrences counted left to right, each one skipping its own bytes. */
  function CountFrom(data: seq<byte>, target: seq<byte>, from: nat): nat
    requires from <= |data| && target != []
    decreases |data| - from
  {
    var p := Search(data, target, from);
    if p == |data| then 0 else 1 + CountFrom(data, target, p + |target|)
  }

  function Count(data: seq<byte>, target: seq<byte>): nat
    requires target != []
  {
    CountFrom(data, target, 0)
  }

  function Replace(data: seq<byte>, target: seq<byte>, replacement: seq<byte>): seq<byte>
    requires target != []
  {
    var p := Search(data, target, 0);
    if p == |data| then data else data[..p] + replacement + data[p + |target|..]
  }

  method CountSequence(data: seq<byte>, target: seq<byte>) returns (count: nat)
    requires target != []
    ensures count == Count(data, target)
  {
    hide Occurs, Search, CountFrom, Count;
    CountsFromStart(data, target);
    count := 0;
    if |data| < |target| {
      return;
    }
    var it := 0;
    while it != |data|
      invariant it <= |data| && count + CountFrom(data, target, it) == Count(data, target)
      decreases |data| - it
    {
      CountUnfolds(data, target, it);
      it := Search(data, target, it);
      if it != |data| {
        count := count + 1;
        it := it + |target|;
      }
    }
  }

  lemma CountsFromStart(data: seq<byte>, target: seq<byte>)
    requires target != []
    ensures Count(data, target) == CountFrom(data, target, 0) && CountFrom(data, target, |data|) == 0
    ensures |data| < |target| ==> Count(data, target) == 0
  {
  }

  method ReplaceSequence(data: seq<byte>, target: seq<byte>, replacement: seq<byte>) returns (r: seq<byte>)
    requires target != []
    ensures r == Replace(data, target, replacement)
  {
    var it := Search(data, target, 0);
    if it == |data| {
      return data;
    }
    r := data[..it] + data[it + |target|..];
    r := r[..it] + replacement + r[it..];
  }

  /** Two occurrences of the placeholder never overlap. */
  lemma PlaceholdersApart(data: seq<byte>, p: nat, q: nat)
    requires Occurs(data, PLACEHOLDER, p) && Occurs(data, PLACEHOLDER, q) && p < q
    ensures p + |PLACEHOLDER| <= q
  {
    OccurrenceByte(data, q, 0);
    if q < p + |PLACEHOLDER| {
      OccurrenceByte(data, p, q - p);
    }
  }

  lemma OccurrenceByte(data: seq<byte>, p: nat, i: nat)
    requires Occurs(data, PLACEHOLDER, p) && i < |PLACEHOLDER|
    ensures data[p + i] == PLACEHOLDER[i]
  {
    assert data[p + i] == data[p..p + |PLACEHOLDER|][i];
  }

  ghost predicate OccursOnlyAt(data: seq<byte>, p: nat) {
    Occurs(data, PLACEHOLDER, p) && forall q :: Occurs(data, PLACEHOLDER, q) ==> q == p
  }

  /** The count is one exactly when there is one place the constant occurs at, and then that
      is the place the replacement goes to. */
  lemma {:induction false} CountOneIsUnique(data: seq<byte>)
    ensures Count(data, PLACEHOLDER) == 1 <==> exists p :: OccursOnlyAt(data, p)
    ensures Count(data, PLACEHOLDER) == 1 ==> OccursOnlyAt(data, Search(data, PLACEHOLDER, 0))
  {
    hide Search, CountFrom, Occurs;
    var n, p := |PLACEHOLDER|, Search(data, PLACEHOLDER, 0);
    OccurrenceFits(data, p);
    CountUnfolds(data, PLACEHOLDER, 0);
    if p < |data| {
      var q := Search(data, PLACEHOLDER, p + n);
      CountUnfolds(data, PLACEHOLDER, p + n);
      OccurrenceFits(data, q);
      if q == |data| {
        forall x | Occurs(data, PLACEHOLDER, x)
          ensures x == p
        {
          OccurrenceFits(data, x);
          if x > p {
            PlaceholdersApart(data, p, x);
          }
        }
        assert OccursOnlyAt(data, p);
      } else {
        assert forall x :: OccursOnlyAt(data, x) ==> x == p && x == q;
      }
    } else {
      forall x | Occurs(data, PLACEHOLDER, x)
        ensures false
      {
        OccurrenceFits(data, x);
      }
    }
  }

  lemma OccurrenceFits(data: seq<byte>, x: int)
    ensures Occurs(data, PLACEHOLDER, x) ==> 0 <= x && x + |PLACEHOLDER| <= |data|
  {
  }

  lemma CountUnfolds(data: seq<byte>, target: seq<byte>, from: nat)
    requires from <= |data| && target != []
    ensures var p := Search(data, target, from);
            && (p < |data| ==> p + |target| <= |data|)
            && CountFrom(data, target, from) == if p == |data| then 0 else 1 + CountFrom(data, target, p + |target|)
  {
  }

  // ---- unifying symbols ----

  datatype Entry = Entry(address: u64, referenced: bool, defined: bool)

  type SymbolMap = map<string, Entry>

  /** The entry of a name, created on first use. */
  function At(u: SymbolMap, name: string): Entry {
    if name in u then u[name] else Entry(0, false, false)
  }

  function AddSymbol(u: SymbolMap, m: Marker): Result<SymbolMap> {
    if m.defined && At(u, m.name).defined then Err(MultipleDefinition(m.name))
    else
      var v := if m.defined then u[m.name := At(u, m.name).(address := m.position, defined := true)] else u;
      Ok(if m.referenced then v[m.name := At(v, m.name).(referenced := true)] else v)
  }

  function AddTable(u: SymbolMap, table: seq<Marker>): Result<SymbolMap>
    decreases |table|
  {
    if table == [] then Ok(u)
    else
      match AddSymbol(u, table[0])
      case Err(e) => Err(e)
      case Ok(v) => AddTable(v, table[1..])
  }

  function Unify(u: SymbolMap, objects: seq<ObjectFile>): Result<SymbolMap>
    decreases |objects|
  {
    if objects == [] then Ok(u)
    else
      match AddTable(u, objects[0].symbols)
      case Err(e) => Err(e)
      case Ok(v) => Unify(v, objects[1..])
  }

  // ---- patching ----

  function PatchSites(code: seq<seq<byte>>, name: string, sites: seq<nat>, address: u64): (r: Result<seq<seq<byte>>>)
    requires forall i :: 0 <= i < |sites| ==> sites[i] < |code|
    ensures r.Ok? ==> |r.value| == |code|
    decreases |sites|
  {
    if sites == [] then Ok(code)
    else if Count(code[sites[0]], PLACEHOLDER) != 1 then Err(AmbiguousReference(name))
    else
      PatchSites(code[sites[0] := Replace(code[sites[0]], PLACEHOLDER, EncConstant(W64, address))], name, sites[1..],
        address)
  }

  predicate SitesInside(table: seq<Marker>, size: nat) {
    forall m :: m in table ==> forall i :: 0 <= i < |m.sites| ==> m.sites[i] < size
  }

  /** Every listed symbol has to be defined somewhere, referenced or not. */
  function PatchTable(code: seq<seq<byte>>, table: seq<Marker>, u: SymbolMap): (r: Result<seq<seq<byte>>>)
    requires SitesInside(table, |code|)
    ensures r.Ok? ==> |r.value| == |code|
    decreases |table|
  {
    if table == [] then Ok(code)
    else if !At(u, table[0].name).defined then Err(UndefinedReference(table[0].name))
    else
      match PatchSites(code, table[0].name, table[0].sites, u[table[0].name].address)
      case Err(e) => Err(e)
      case Ok(patched) => PatchTable(patched, table[1..], u)
  }

  type Binding = (string, u64)

  /** The calculator: an expression, with each symbol replaced by its address in table order,
      to a signed 64-bit number. */
  type Calculator = (string, seq<Binding>) -> int

  function Bindings(table: seq<Marker>, u: SymbolMap): seq<Binding>
    requires forall m :: m in table ==> m.name in u
  {
    seq(|table|, k requires 0 <= k < |table| => (table[k].name, u[table[k].name].address))
  }

  /** The low bytes of a number, two's complement when it is negative. */
  function DataBytes(value: int, width: Width): (s: seq<byte>)
    ensures |s| == width.Size()
  {
    Le(Wrap64(value), width.Size())
  }

  /** The bytes of a data line are the number's low bytes, lowest first. */
  lemma {:induction false} DataBytesValue(value: int, width: Width)
    ensures FromLe(DataBytes(value, width)) == value % Pow256(width.Size())
  {
    hide Le, FromLe, Pow256, Wrap64;
    FromLeOfLe(Wrap64(value), width.Size());
    LowBytesOfWrapped(value, width.Size());
  }

  function FillData(code: seq<seq<byte>>, data: seq<DataSite>, bindings: seq<Binding>,
                    bc: Calculator): (r: seq<seq<byte>>)
    requires forall d :: d in data ==> d.site < |code|
    ensures |r| == |code|
    decreases |data|
  {
    if data == [] then code
    else FillData(code[data[0].site := DataBytes(bc(data[0].expression, bindings), data[0].width)], data[1..],
      bindings, bc)
  }

  predicate WellFormed(o: ObjectFile) {
    SitesInside(o.symbols, |o.code|) && forall d :: d in o.data ==> d.site < |o.code|
  }

  lemma PatchedTableIsDefined(code: seq<seq<byte>>, table: seq<Marker>, u: SymbolMap)
    requires SitesInside(table, |code|) && PatchTable(code, table, u).Ok?
    ensures forall m :: m in table ==> m.name in u && u[m.name].defined
    decreases |table|
  {
    hide Count, Replace;
    if table != [] {
      var patched := PatchSites(code, table[0].name, table[0].sites, u[table[0].name].address).value;
      PatchedTableIsDefined(patched, table[1..], u);
    }
  }

  function LinkObject(o: ObjectFile, u: SymbolMap, bc: Calculator): (r: Result<seq<seq<byte>>>)
    requires WellFormed(o)
    ensures r.Ok? ==> |r.value| == |o.code|
  {
    match PatchTable(o.code, o.symbols, u)
    case Err(e) => Err(e)
    case Ok(patched) =>
      PatchedTableIsDefined(o.code, o.symbols, u);
      Ok(FillData(patched, o.data, Bindings(o.symbols, u), bc))
  }

  function LinkFrom(objects: seq<ObjectFile>, u: SymbolMap, bc: Calculator): Result<seq<seq<byte>>>
    requires forall o :: o in objects ==> WellFormed(o)
    decreases |objects|
  {
    if objects == [] then Ok([])
    else
      match LinkObject(objects[0], u, bc)
      case Err(e) => Err(e)
      case Ok(code) =>
        match LinkFrom(objects[1..], u, bc)
        case Err(e) => Err(e)
        case Ok(rest) => Ok(code + rest)
  }

  function Link(objects: seq<ObjectFile>, bc: Calculator): Result<seq<seq<byte>>>
    requires forall o :: o in objects ==> WellFormed(o)
  {
    match Unify(map[], objects)
    case Err(e) => Err(e)
    case Ok(u) => LinkFrom(objects, u, bc)
  }

  // ---- the linker's methods ----

  method RegisterSymbols(objects: array<ObjectFile>) returns (r: Result<SymbolMap>)
    ensures r == Unify(map[], objects[..])
  {
    hide AddSymbol;
    var u: SymbolMap := map[];
    for k := 0 to objects.Length
      invariant Unify(u, objects[k..]) == Unify(map[], objects[..])
    {
      var table := objects[k].symbols;
      ghost var start := u;
      assert objects[k..][1..] == objects[k + 1..];
      for i := 0 to |table|
        invariant AddTable(u, table[i..]) == AddTable(start, table)
      {
        assert table[i..][1..] == table[i + 1..];
        var added := EnterSymbol(u, table[i]);
        if added.Err? {
          return Err(added.error);
        }
        u := added.value;
      }
    }
    return Ok(u);
  }

  method EnterSymbol(before: SymbolMap, m: Marker) returns (r: Result<SymbolMap>)
    ensures r == AddSymbol(before, m)
  {
    var u := before;
    if m.defined {
      if m.name in u && u[m.name].defined {
        return Err(MultipleDefinition(m.name));
      }
      u := u[m.name := At(u, m.name).(address := m.position, defined := true)];
    }
    if m.referenced {
      u := u[m.name := At(u, m.name).(referenced := true)];
    }
    return Ok(u);
  }

  /** Overwrites the placeholders of one symbol's recorded buffers. */
  method PatchReferences(objects: array<ObjectFile>, k: nat, symbol: Marker, address: u64)
    returns (error: Option<BuildError>)
    requires k < objects.Length
    requires forall i :: 0 <= i < |symbol.sites| ==> symbol.sites[i] < |objects[k].code|
    modifies objects
    ensures forall j :: 0 <= j < objects.Length && j != k ==> objects[j] == old(objects[j])
    ensures var spec := PatchSites(old(objects[k].code), symbol.name, symbol.sites, address);
            && (spec.Err? ==> error == Some(spec.error))
            && (spec.Ok? ==> error == None && objects[k] == old(objects[k]).(code := spec.value))
  {
    hide Count, Replace, EncConstant;
    var sites, replacement := symbol.sites, EncConstant(W64, address);
    for i := 0 to |sites|
      invariant objects[k] == old(objects[k]).(code := objects[k].code) && |objects[k].code| == |old(objects[k].code)|
      invariant forall j :: 0 <= j < objects.Length && j != k ==> objects[j] == old(objects[j])
      invariant PatchSites(objects[k].code, symbol.name, sites[i..], address)
             == PatchSites(old(objects[k].code), symbol.name, sites, address)
    {
      var code := objects[k].code;
      assert sites[i..][1..] == sites[i + 1..];
      var count := CountSequence(code[sites[i]], PLACEHOLDER);
      if count != 1 {
        return Some(AmbiguousReference(symbol.name));
      }
      var patched := ReplaceSequence(code[sites[i]], PLACEHOLDER, replacement);
      objects[k] := objects[k].(code := code[sites[i] := patched]);
    }
    return None;
  }

  /** Replaces every symbol reference of one object. */
  method PatchObject(objects: array<ObjectFile>, k: nat, u: SymbolMap) returns (error: Option<BuildError>)
    requires k < objects.Length && WellFormed(objects[k])
    modifies objects
    ensures forall j :: 0 <= j < objects.Length && j != k ==> objects[j] == old(objects[j])
    ensures var spec := PatchTable(old(objects[k].code), old(objects[k].symbols), u);
            && (spec.Err? ==> error == Some(spec.error))
            && (spec.Ok? ==> error == None && objects[k] == old(objects[k]).(code := spec.value))
  {
    hide PatchSites;
    var table := objects[k].symbols;
    for i := 0 to |table|
      invariant objects[k] == old(objects[k]).(code := objects[k].code) && |objects[k].code| == |old(objects[k].code)|
      invariant forall j :: 0 <= j < objects.Length && j != k ==> objects[j] == old(objects[j])
      invariant PatchTable(objects[k].code, table[i..], u) == PatchTable(old(objects[k].code), table, u)
    {
      assert table[i..][1..] == table[i + 1..];
      if table[i].name !in u || !u[table[i].name].defined {
        return Some(UndefinedReference(table[i].name));
      }
      error := PatchReferences(objects, k, table[i], u[table[i].name].address);
      if error.Some? {
        return;
      }
    }
    return None;
  }

  /** Overwrites the data buffers of one object. */
  method FillObject(objects: array<ObjectFile>, k: nat, bindings: seq<Binding>, bc: Calculator)
    requires k < objects.Length && WellFormed(objects[k])
    modifies objects
    ensures forall j :: 0 <= j < objects.Length && j != k ==> objects[j] == old(objects[j])
    ensures objects[k] == old(objects[k]).(code := FillData(old(objects[k].code), old(objects[k].data), bindings, bc))
  {
    hide DataBytes;
    var data := objects[k].data;
    for i := 0 to |data|
      invariant objects[k] == old(objects[k]).(code := objects[k].code) && |objects[k].code| == |old(objects[k].code)|
      invariant forall j :: 0 <= j < objects.Length && j != k ==> objects[j] == old(objects[j])
      invariant FillData(objects[k].code, data[i..], bindings, bc) == FillData(old(objects[k].code), data, bindings, bc)
    {
      assert data[i..][1..] == data[i + 1..];
      var d := data[i];
      objects[k] := objects[k].(code := objects[k].code[d.site := DataBytes(bc(d.expression, bindings), d.width)]);
    }
  }

  /** Links the objects, patching their buffers in place, and returns all buffers in order. */
  method SysdarftLink(objects: array<ObjectFile>, bc: Calculator) returns (r: Result<seq<seq<byte>>>)
    requires forall k :: 0 <= k < objects.Length ==> WellFormed(objects[k])
    modifies objects
    ensures r == Link(old(objects[..]), bc)
  {
    hide Unify, PatchTable, FillData, WellFormed;
    var unified := RegisterSymbols(objects);
    if unified.Err? {
      return Err(unified.error);
    }
    var u := unified.value;
    ghost var before := objects[..];
    var code: seq<seq<byte>> := [];
    PrependNothing(LinkFrom(before, u, bc));
    assert before[0..] == before;
    for k := 0 to objects.Length
      invariant objects[k..] == before[k..]
      invariant forall o :: o in before ==> WellFormed(o)
      invariant Prepend(code, LinkFrom(before[k..], u, bc)) == LinkFrom(before, u, bc)
    {
      assert before[k..][1..] == before[k + 1..];
      assert objects[k] == objects[k..][0] == before[k];
      var error := PatchObject(objects, k, u);
      if error.Some? {
        return Err(error.value);
      }
      StaysWellFormed(before[k], objects[k].code);
      PatchedTableIsDefined(before[k].code, before[k].symbols, u);
      FillObject(objects, k, Bindings(objects[k].symbols, u), bc);
      PrependTwice(code, objects[k].code, LinkFrom(before[k + 1..], u, bc));
      code := code + objects[k].code;
    }
    assert before[objects.Length..] == [] && code + [] == code;
    return Ok(code);
  }

  lemma StaysWellFormed(o: ObjectFile, code: seq<seq<byte>>)
    requires WellFormed(o) && |code| == |o.code|
    ensures WellFormed(o.(code := code)) && SitesInside(o.symbols, |o.code|)
  {
  }
}
