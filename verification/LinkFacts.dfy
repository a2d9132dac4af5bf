/** What the link steps do to each symbol and to each buffer, and when they succeed. */
module LinkFacts {
  import opened Bytes
  import opened Operands
  import opened Encoder
  import opened Assembler
  import opened Linker
  import opened ObjectLayout

  // ---- symbols ----

  function AllMarkers(objects: seq<ObjectFile>): seq<Marker> {
    if objects == [] then [] else objects[0].symbols + AllMarkers(objects[1..])
  }

  lemma {:induction false} AddTableAppend(u: SymbolMap, a: seq<Marker>, b: seq<Marker>)
    ensures
      AddTable(u, a + b) ==
      match AddTable(u, a)
      case Err(e) => Err(e)
      case Ok(v) => AddTable(v, b)
    decreases |a|
  {
    hide AddSymbol;
    if a == [] {
      assert a + b == b;
    } else {
      assert (a + b)[0] == a[0] && (a + b)[1..] == a[1..] + b;
      var added := AddSymbol(u, a[0]);
      if added.Ok? {
        AddTableAppend(added.value, a[1..], b);
      }
    }
  }

  lemma AddNothing(u: SymbolMap)
    ensures AddTable(u, []) == Ok(u)
  {
  }

  lemma {:induction false} UnifyIsAddTable(u: SymbolMap, objects: seq<ObjectFile>)
    ensures Unify(u, objects) == AddTable(u, AllMarkers(objects))
    decreases |objects|
  {
    hide AddTable;
    if objects == [] {
      AddNothing(u);
    } else {
      AddTableAppend(u, objects[0].symbols, AllMarkers(objects[1..]));
      var v := AddTable(u, objects[0].symbols);
      if v.Ok? {
        UnifyIsAddTable(v.value, objects[1..]);
      }
    }
  }

  ghost predicate Defines(ms: seq<Marker>, name: string) {
    exists m :: m in ms && m.defined && m.name == name
  }

  /** No two definitions of one name. */
  ghost predicate DefinedOnce(ms: seq<Marker>) {
    forall i, j :: 0 <= i < j < |ms| && ms[i].defined && ms[j].defined ==> ms[i].name != ms[j].name
  }

  ghost predicate Fresh(u: SymbolMap, ms: seq<Marker>) {
    forall m :: m in ms && m.defined ==> !At(u, m.name).defined
  }

  lemma AddSymbolFacts(u: SymbolMap, m: Marker)
    ensures AddSymbol(u, m).Ok? <==> !(m.defined && At(u, m.name).defined)
    ensures
      AddSymbol(u, m).Ok? ==>
        forall name :: At(AddSymbol(u, m).value, name).defined == (At(u, name).defined || (m.defined && m.name == name))
                    && (At(u, name).defined ==> At(AddSymbol(u, m).value, name).address == At(u, name).address)
    ensures AddSymbol(u, m).Ok? && m.defined ==> At(AddSymbol(u, m).value, m.name).address == m.position
  {
  }

  /** Adding a table fails exactly on a second definition; otherwise each name is defined that
      some marker defines, at that marker's position. */
  lemma {:induction false} AddTableFacts(u: SymbolMap, ms: seq<Marker>)
    ensures AddTable(u, ms).Ok? <==> DefinedOnce(ms) && Fresh(u, ms)
    ensures
      AddTable(u, ms).Ok? ==>
        forall name :: At(AddTable(u, ms).value, name).defined == (At(u, name).defined || Defines(ms, name))
                    && (At(u, name).defined ==> At(AddTable(u, ms).value, name).address == At(u, name).address)
    ensures
      AddTable(u, ms).Ok? ==>
        forall m :: m in ms && m.defined ==> At(AddTable(u, ms).value, m.name).address == m.position
    decreases |ms|
  {
    hide At, AddSymbol;
    if ms != [] {
      AddSymbolFacts(u, ms[0]);
      SplitFirst(u, ms);
      if AddSymbol(u, ms[0]).Ok? {
        var v := AddSymbol(u, ms[0]).value;
        AddTableFacts(v, ms[1..]);
        assert Fresh(u, ms) && DefinedOnce(ms) ==> Fresh(v, ms[1..]);
      }
    }
  }

  lemma SplitFirst(u: SymbolMap, ms: seq<Marker>)
    requires ms != []
    ensures
      DefinedOnce(ms) <==>
      DefinedOnce(ms[1..]) && (ms[0].defined ==> !Defines(ms[1..], ms[0].name))
    ensures Fresh(u, ms) <==> Fresh(u, ms[1..]) && (ms[0].defined ==> !At(u, ms[0].name).defined)
    ensures forall name :: Defines(ms, name) <==> Defines(ms[1..], name) || (ms[0].defined && ms[0].name == name)
    ensures forall m :: m in ms <==> m == ms[0] || m in ms[1..]
  {
    hide At;
    assert forall i :: 0 < i < |ms| ==> ms[i] == ms[1..][i - 1] && ms[i] in ms[1..];
    assert forall m :: m in ms[1..] ==> m in ms;
  }

  // ---- sites ----

  ghost predicate Increasing(sites: seq<nat>) {
    forall i, j :: 0 <= i < j < |sites| ==> sites[i] < sites[j]
  }

  lemma {:induction false} SitesOfFacts(es: seq<Emission>, name: string)
    ensures Increasing(SitesOf(es, name))
    ensures forall n: nat :: n in SitesOf(es, name) <==> n < |es| && Refers(es[n], name)
    ensures forall i :: 0 <= i < |SitesOf(es, name)| ==> SitesOf(es, name)[i] < |es|
  {
    hide Refers;
    if es != [] {
      SitesOfFacts(es[..|es| - 1], name);
    }
  }

  function WithAddress(draft: seq<byte>, address: u64): seq<byte> {
    Replace(draft, PLACEHOLDER, EncConstant(W64, address))
  }

  lemma {:induction false} PatchSitesPointwise(code: seq<seq<byte>>, name: string, sites: seq<nat>, address: u64)
    requires Increasing(sites) && forall i :: 0 <= i < |sites| ==> sites[i] < |code|
    ensures
      PatchSites(code, name, sites, address).Ok? <==>
      forall i :: 0 <= i < |sites| ==> Count(code[sites[i]], PLACEHOLDER) == 1
    ensures
      PatchSites(code, name, sites, address).Ok? ==>
        forall n: nat :: n < |code| ==>
          PatchSites(code, name, sites, address).value[n] == if n in sites then WithAddress(code[n], address)
            else code[n]
    decreases |sites|
  {
    hide Count, Replace, EncConstant;
    if sites != [] {
      var next := code[sites[0] := WithAddress(code[sites[0]], address)];
      PatchSitesPointwise(next, name, sites[1..], address);
      assert forall n :: n in sites <==> n == sites[0] || n in sites[1..];
      assert forall i :: 0 < i < |sites| ==> sites[i] == sites[1..][i - 1] && next[sites[i]] == code[sites[i]];
    }
  }

  ghost predicate SitesMatch(table: seq<Marker>, es: seq<Emission>) {
    DistinctNames(table) && forall k :: 0 <= k < |table| ==> table[k].sites == SitesOf(es, table[k].name)
  }

  ghost predicate RefersInto(e: Emission, table: seq<Marker>) {
    e.Statement? && e.symbol.Some? && Lists(table, e.symbol.value)
  }

  /** Every buffer that refers to a listed symbol holds one placeholder. */
  ghost predicate OnePlaceholderEach(code: seq<seq<byte>>, table: seq<Marker>, es: seq<Emission>)
    requires |code| == |es|
  {
    forall n :: 0 <= n < |es| && RefersInto(es[n], table) ==> Count(code[n], PLACEHOLDER) == 1
  }

  ghost predicate AllDefined(table: seq<Marker>, u: SymbolMap) {
    forall k :: 0 <= k < |table| ==> At(u, table[k].name).defined
  }

  lemma SitesStayInside(table: seq<Marker>, es: seq<Emission>)
    requires SitesMatch(table, es)
    ensures SitesInside(table, |es|)
  {
    forall m, i | m in table && 0 <= i < |m.sites|
      ensures m.sites[i] < |es|
    {
      SitesOfFacts(es, m.name);
    }
  }

  lemma ListsFirst(table: seq<Marker>, es: seq<Emission>)
    requires table != [] && SitesMatch(table, es)
    ensures SitesMatch(table[1..], es) && !Lists(table[1..], table[0].name)
    ensures forall name :: Lists(table, name) <==> name == table[0].name || Lists(table[1..], name)
  {
    assert forall k :: 0 < k < |table| ==> table[k] == table[1..][k - 1];
    assert Lists(table, table[0].name);
    forall name | Lists(table, name) && name != table[0].name
      ensures Lists(table[1..], name)
    {
      var k :| 0 <= k < |table| && table[k].name == name;
      assert table[1..][k - 1].name == name;
    }
  }

  lemma NothingListed()
    ensures forall name :: !Lists([], name)
  {
  }

  /** Patching succeeds exactly when every listed symbol is defined and every recorded buffer
      holds one placeholder; it then changes the recorded buffers and no others. */
  lemma {:induction false} PatchTablePointwise(code: seq<seq<byte>>, table: seq<Marker>, u: SymbolMap,
                                               es: seq<Emission>)
    requires |code| == |es| && SitesMatch(table, es) && SitesInside(table, |code|)
    ensures PatchTable(code, table, u).Ok? <==> AllDefined(table, u) && OnePlaceholderEach(code, table, es)
    ensures
      PatchTable(code, table, u).Ok? ==>
        forall n: nat :: n < |code| ==>
          PatchTable(code, table, u).value[n] ==
          if RefersInto(es[n], table) then WithAddress(code[n], At(u, es[n].symbol.value).address) else code[n]
    decreases |table|
  {
    hide Count, WithAddress, SitesOf, SitesMatch, Lists, PatchSites, SitesInside;
    if table == [] {
      NothingListed();
    } else {
      ListsFirst(table, es);
      var first, rest := table[0], table[1..];
      var address := At(u, first.name).address;
      SitesAreInside(table, es);
      PatchSitesPointwise(code, first.name, first.sites, address);
      FirstSites(code, table, es);
      assert AllDefined(table, u) <==> At(u, first.name).defined && AllDefined(rest, u) by { FirstDefined(table, u); }
      var patched := PatchSites(code, first.name, first.sites, address);
      if patched.Ok? {
        forall n | 0 <= n < |es| && RefersInto(es[n], rest)
          ensures patched.value[n] == code[n]
        {
        }
        PatchTablePointwise(patched.value, rest, u, es);
      }
    }
  }

  lemma FirstDefined(table: seq<Marker>, u: SymbolMap)
    requires table != []
    ensures AllDefined(table, u) <==> At(u, table[0].name).defined && AllDefined(table[1..], u)
  {
    assert forall k :: 0 < k < |table| ==> table[k] == table[1..][k - 1];
  }

  lemma SitesAreInside(table: seq<Marker>, es: seq<Emission>)
    requires table != [] && SitesMatch(table, es)
    ensures SitesInside(table[1..], |es|) && Increasing(table[0].sites)
    ensures forall i :: 0 <= i < |table[0].sites| ==> table[0].sites[i] < |es|
    ensures forall n: nat :: n in table[0].sites <==> n < |es| && Refers(es[n], table[0].name)
  {
    ListsFirst(table, es);
    SitesStayInside(table[1..], es);
    SitesOfFacts(es, table[0].name);
  }

  lemma FirstSites(code: seq<seq<byte>>, table: seq<Marker>, es: seq<Emission>)
    requires table != [] && |code| == |es| && SitesMatch(table, es) && SitesInside(table, |code|)
    ensures
      OnePlaceholderEach(code, table, es) <==>
      && (forall i :: 0 <= i < |table[0].sites| ==> Count(code[table[0].sites[i]], PLACEHOLDER) == 1)
      && OnePlaceholderEach(code, table[1..], es)
  {
    hide Count, SitesOf, Lists;
    ListsFirst(table, es);
    SitesOfFacts(es, table[0].name);
    var sites := table[0].sites;
    assert sites == SitesOf(es, table[0].name);
    forall n | 0 <= n < |es| && Refers(es[n], table[0].name)
      ensures exists i :: 0 <= i < |sites| && sites[i] == n
    {
      assert n in sites;
    }
    assert forall i :: 0 <= i < |sites| ==> sites[i] in sites;
  }

  // ---- data ----

  lemma {:induction false} DataSitesFacts(es: seq<Emission>)
    ensures forall i :: 0 <= i < |DataSites(es)| ==> IsDataOf(DataSites(es)[i], es)
    ensures forall i, j :: 0 <= i < j < |DataSites(es)| ==> DataSites(es)[i].site < DataSites(es)[j].site
    ensures forall n :: 0 <= n < |es| && es[n].Word? ==> DataSite(n, es[n].width, es[n].expression) in DataSites(es)
  {
    if es != [] {
      var before := es[..|es| - 1];
      DataSitesFacts(before);
      forall i | 0 <= i < |DataSites(before)|
        ensures IsDataOf(DataSites(before)[i], es)
      {
        assert IsDataOf(DataSites(before)[i], before);
      }
    }
  }

  ghost predicate IsDataOf(d: DataSite, es: seq<Emission>) {
    d.site < |es| && es[d.site] == Word(d.width, d.expression)
  }

  lemma {:induction false} FillDataPointwise(code: seq<seq<byte>>, data: seq<DataSite>, bindings: seq<Binding>,
                                             bc: Calculator)
    requires forall d :: d in data ==> d.site < |code|
    requires forall i, j :: 0 <= i < j < |data| ==> data[i].site < data[j].site
    ensures var r := FillData(code, data, bindings, bc);
            && (forall d :: d in data ==> r[d.site] == DataBytes(bc(d.expression, bindings), d.width))
            && (forall d :: d in data ==>
                  && |r[d.site]| == d.width.Size()
                  && FromLe(r[d.site]) == bc(d.expression, bindings) % Pow256(d.width.Size()))
            && (forall n :: 0 <= n < |code| && (forall d :: d in data ==> d.site != n) ==> r[n] == code[n])
    decreases |data|
  {
    hide DataBytes, FromLe, Pow256;
    forall d | d in data {
      DataBytesValue(bc(d.expression, bindings), d.width);
    }
    if data != [] {
      var next := code[data[0].site := DataBytes(bc(data[0].expression, bindings), data[0].width)];
      FillDataPointwise(next, data[1..], bindings, bc);
      assert forall d :: d in data <==> d == data[0] || d in data[1..];
      assert forall d :: d in data[1..] ==> d.site != data[0].site;
    }
  }

  /** What becomes of one buffer at link time. */
  ghost function Finished(e: Emission, draft: seq<byte>, table: seq<Marker>, u: SymbolMap, bindings: seq<Binding>,
                          bc: Calculator): seq<byte> {
    if e.Word? then DataBytes(bc(e.expression, bindings), e.width)
    else if RefersInto(e, table) then WithAddress(draft, At(u, e.symbol.value).address)
    else draft
  }

  lemma ObjectIsWellFormed(p: Progress)
    requires AllDrafted(p.emitted) && TableMatches(p.table, p.emitted)
    ensures WellFormed(ObjectOf(p)) && SitesMatch(p.table, p.emitted)
  {
    hide AllDrafted, SitesOf, Lists;
    SitesStayInside(p.table, p.emitted);
    DataSitesFacts(p.emitted);
    forall d | d in DataSites(p.emitted)
      ensures d.site < |p.emitted|
    {
      assert IsDataOf(d, p.emitted);
    }
  }

  /** Linking one assembled object, buffer by buffer. */
  lemma {:induction false} LinkObjectPointwise(p: Progress, u: SymbolMap, bc: Calculator)
    requires AllDrafted(p.emitted) && TableMatches(p.table, p.emitted) && WellFormed(ObjectOf(p))
    ensures var r := LinkObject(ObjectOf(p), u, bc);
            && (r.Ok? <==> AllDefined(p.table, u) && OnePlaceholderEach(Drafts(p.emitted), p.table, p.emitted))
            && (r.Ok? ==>
                  && (forall m :: m in p.table ==> m.name in u)
                  && forall n :: 0 <= n < |p.emitted| ==>
                       r.value[n] == Finished(p.emitted[n], Drafts(p.emitted)[n], p.table, u, Bindings(p.table, u), bc))
  {
    hide AllDrafted, TableMatches, WithAddress, DataBytes, Bindings, OnePlaceholderEach, AllDefined, Lists;
    hide PatchTable, FillData;
    var es, code := p.emitted, Drafts(p.emitted);
    ObjectIsWellFormed(p);
    SitesStayInside(p.table, es);
    PatchTablePointwise(code, p.table, u, es);
    var patched := PatchTable(code, p.table, u);
    if patched.Ok? {
      PatchedTableIsDefined(code, p.table, u);
      var data, bindings := DataSites(es), Bindings(p.table, u);
      DataSitesFacts(es);
      FillDataPointwise(patched.value, data, bindings, bc);
      forall n | 0 <= n < |es|
        ensures FillData(patched.value, data, bindings, bc)[n] == Finished(es[n], code[n], p.table, u, bindings, bc)
      {
        if es[n].Word? {
          assert DataSite(n, es[n].width, es[n].expression) in data;
        } else {
          assert forall d :: d in data ==> IsDataOf(d, es);
        }
      }
    }
  }
}
