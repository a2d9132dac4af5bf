/** The symbol table in front of an executable's code: written by the linker's front end, read
    back by the disassembler's. */
module SymbolTable {
  import opened Bytes
  import opened Encoder

  datatype Entry = Entry(name: seq<byte>, position: u64)

  /** A name's length is kept in 16 bits; the name itself is written in full. */
  function EntryBytes(e: Entry): seq<byte> {
    Le(|e.name|, 2) + (e.name + Le(e.position, 8))
  }

  function EntriesBytes(entries: seq<Entry>): seq<byte> {
    if entries == [] then [] else EntryBytes(entries[0]) + EntriesBytes(entries[1..])
  }

  function TableBytes(entries: seq<Entry>): seq<byte> {
    Le(|entries|, 8) + EntriesBytes(entries)
  }

  method GenerateSymbolTable(entries: seq<Entry>) returns (table: seq<byte>)
    ensures table == TableBytes(entries)
  {
    hide Le, EntryBytes;
    table := Le(|entries|, 8);
    for i := 0 to |entries|
      invariant table + EntriesBytes(entries[i..]) == TableBytes(entries)
    {
      assert entries[i..][1..] == entries[i + 1..];
      var entry := Entry(entries[i].name, entries[i].position);
      Associate(table, EntryBytes(entry), EntriesBytes(entries[i + 1..]));
      table := table + EntryBytes(entry);
    }
    assert table + [] == table;
  }

  // ---- reading ----

  datatype Read<T> = Got(value: T, rest: seq<byte>) | Short

  function PopNumber(s: seq<byte>, n: nat): Read<nat> {
    if |s| < n then Short else Got(FromLe(s[..n]), s[n..])
  }

  function PopText(s: seq<byte>): (r: Read<seq<byte>>)
    ensures r.Got? ==> |r.rest| <= |s|
  {
    match PopNumber(s, 2)
    case Short => Short
    case Got(n, t) => if |t| < n then Short else Got(t[..n], t[n..])
  }

  function PopEntry(s: seq<byte>): Read<Entry> {
    match PopText(s)
    case Short => Short
    case Got(name, t) =>
      match PopNumber(t, 8)
      case Short => Short
      case Got(v, u) => FromLeBound(t[..8]); Pow256Values(); Got(Entry(name, v), u)
  }

  function PopEntries(s: seq<byte>, count: nat): Read<seq<Entry>>
    decreases count
  {
    if count == 0 then Got([], s)
    else
      match PopEntry(s)
      case Short => Short
      case Got(e, t) =>
        match PopEntries(t, count - 1)
        case Short => Short
        case Got(es, u) => Got([e] + es, u)
  }

  function PopTable(s: seq<byte>): Read<seq<Entry>> {
    match PopNumber(s, 8)
    case Short => Short
    case Got(count, t) => PopEntries(t, count)
  }

  method PopNumFromVec(vec: CodeBuffer, n: nat) returns (r: Option<nat>)
    modifies vec
    ensures match PopNumber(old(vec.code), n)
            case Short => r == None && vec.code == old(vec.code)
            case Got(v, rest) => r == Some(v) && vec.code == rest
  {
    hide FromLe;
    if |vec.code| < n {
      return None;
    }
    r := Some(FromLe(vec.code[..n]));
    vec.code := vec.code[n..];
  }

  method PopStrFromVec(vec: CodeBuffer) returns (r: Option<seq<byte>>)
    modifies vec
    ensures match PopText(old(vec.code))
            case Short => r == None
            case Got(name, rest) => r == Some(name) && vec.code == rest
  {
    hide FromLe;
    var length := PopNumFromVec(vec, 2);
    if length.None? || |vec.code| < length.value {
      return None;
    }
    r := Some(vec.code[..length.value]);
    vec.code := vec.code[length.value..];
  }

  method ReadSymbolTable(vec: CodeBuffer) returns (r: Option<seq<Entry>>)
    modifies vec
    ensures match PopTable(old(vec.code))
            case Short => r == None
            case Got(entries, rest) => r == Some(entries) && vec.code == rest
  {
    hide PopNumber, PopText, FromLe;
    var count := PopNumFromVec(vec, 8);
    if count.None? {
      return None;
    }
    ghost var start := vec.code;
    var entries: seq<Entry> := [];
    NothingBehind(PopEntries(start, count.value));
    for i := 0 to count.value
      invariant Behind(entries, PopEntries(vec.code, count.value - i)) == PopEntries(start, count.value)
    {
      var here := vec.code;
      var name := PopStrFromVec(vec);
      if name.None? {
        return None;
      }
      var value := PopNumFromVec(vec, 8);
      if value.None? {
        return None;
      }
      SmallValue(here);
      BehindOneMore(entries, Entry(name.value, value.value), PopEntries(vec.code, count.value - i - 1));
      entries := entries + [Entry(name.value, value.value)];
    }
    assert entries + [] == entries;
    return Some(entries);
  }

  lemma SmallValue(s: seq<byte>)
    requires PopText(s).Got? && PopNumber(PopText(s).rest, 8).Got?
    ensures PopNumber(PopText(s).rest, 8).value < TWO64
  {
    FromLeBound(PopText(s).rest[..8]);
    Pow256Values();
  }

  ghost function Behind(before: seq<Entry>, r: Read<seq<Entry>>): Read<seq<Entry>> {
    match r
    case Short => Short
    case Got(rest, s) => Got(before + rest, s)
  }

  lemma NothingBehind(r: Read<seq<Entry>>)
    ensures Behind([], r) == r
  {
    if r.Got? {
      assert [] + r.value == r.value;
    }
  }

  lemma BehindOneMore(before: seq<Entry>, e: Entry, r: Read<seq<Entry>>)
    ensures Behind(before, Behind([e], r)) == Behind(before + [e], r)
  {
    if r.Got? {
      assert before + ([e] + r.value) == before + [e] + r.value;
    }
  }

  // ---- round trip ----

  lemma {:induction false} NumberBack(v: nat, n: nat, rest: seq<byte>)
    ensures PopNumber(Le(v, n) + rest, n) == Got(v % Pow256(n), rest)
  {
    hide Le, FromLe;
    SplitsBack(Le(v, n), rest);
    FromLeOfLe(v, n);
  }

  /** An entry read back in place: the name only where its length fits 16 bits. */
  lemma {:induction false} EntryBack(e: Entry, rest: seq<byte>)
    ensures |e.name| < 0x1_0000 ==> PopEntry(EntryBytes(e) + rest) == Got(e, rest)
    ensures
      |e.name| >= 0x1_0000 && PopEntry(EntryBytes(e) + rest).Got? ==>
        |PopEntry(EntryBytes(e) + rest).value.name| < |e.name|
  {
    hide Le, FromLe, PopNumber;
    var tail := e.name + (Le(e.position, 8) + rest);
    assert EntryBytes(e) + rest == Le(|e.name|, 2) + tail;
    NumberBack(|e.name|, 2, tail);
    Pow256Values();
    if |e.name| < 0x1_0000 {
      SplitsBack(e.name, Le(e.position, 8) + rest);
      NumberBack(e.position, 8, rest);
    }
  }

  /** A written table is read back, and leaves the code behind it, exactly when every name is
      shorter than 2^16 bytes. */
  lemma {:induction false} EntriesBack(entries: seq<Entry>, code: seq<byte>)
    ensures
      PopEntries(EntriesBytes(entries) + code, |entries|) == Got(entries, code) <==>
      forall e :: e in entries ==> |e.name| < 0x1_0000
    decreases |entries|
  {
    hide EntryBytes, PopEntry;
    if entries == [] {
      assert EntriesBytes(entries) + code == code;
    } else {
      var tail := EntriesBytes(entries[1..]) + code;
      Associate(EntryBytes(entries[0]), EntriesBytes(entries[1..]), code);
      EntryBack(entries[0], tail);
      EntriesBack(entries[1..], code);
      assert forall e :: e in entries <==> e == entries[0] || e in entries[1..];
      FirstEntry(EntryBytes(entries[0]) + tail, |entries|);
      if |entries[0].name| < 0x1_0000 {
        assert entries == [entries[0]] + entries[1..];
      }
    }
  }

  lemma FirstEntry(s: seq<byte>, count: nat)
    requires count > 0
    ensures
      PopEntries(s, count).Got? ==>
        && PopEntry(s).Got? && PopEntries(PopEntry(s).rest, count - 1).Got?
        && PopEntries(s, count).value != [] && PopEntries(s, count).value[0] == PopEntry(s).value
        && PopEntries(s, count).value[1..] == PopEntries(PopEntry(s).rest, count - 1).value
        && PopEntries(s, count).rest == PopEntries(PopEntry(s).rest, count - 1).rest
  {
    hide PopEntry;
  }

  /** The whole table, its length in front. */
  lemma {:induction false} TableRoundTrip(entries: seq<Entry>, code: seq<byte>)
    requires |entries| < TWO64
    ensures PopTable(TableBytes(entries) + code) == Got(entries, code)
       <==> forall e :: e in entries ==> |e.name| < 0x1_0000
  {
    hide Le, EntriesBytes, PopNumber, PopEntries;
    Associate(Le(|entries|, 8), EntriesBytes(entries), code);
    NumberBack(|entries|, 8, EntriesBytes(entries) + code);
    Pow256Values();
    EntriesBack(entries, code);
  }

  // ---- a table cut short ----

  lemma CutIn(a: seq<byte>, b: seq<byte>, k: nat)
    requires k < |a + b|
    ensures (a + b)[..k] == if k < |a| then a[..k] else a + b[..k - |a|]
  {
  }

  lemma {:induction false} EntryCut(e: Entry, k: nat)
    requires |e.name| < 0x1_0000 && k < |EntryBytes(e)|
    ensures PopEntry(EntryBytes(e)[..k]) == Short
  {
    hide Le, FromLe;
    var tail := e.name + Le(e.position, 8);
    CutIn(Le(|e.name|, 2), tail, k);
    if k >= 2 {
      NumberBack(|e.name|, 2, tail[..k - 2]);
      Pow256Values();
      CutIn(e.name, Le(e.position, 8), k - 2);
      if k - 2 >= |e.name| {
        SplitsBack(e.name, Le(e.position, 8)[..k - 2 - |e.name|]);
      }
    }
  }

  lemma {:induction false} EntriesCut(entries: seq<Entry>, k: nat)
    requires (forall e :: e in entries ==> |e.name| < 0x1_0000) && k < |EntriesBytes(entries)|
    ensures PopEntries(EntriesBytes(entries)[..k], |entries|) == Short
    decreases |entries|
  {
    hide EntryBytes, PopEntry;
    var first, rest := EntryBytes(entries[0]), EntriesBytes(entries[1..]);
    CutIn(first, rest, k);
    if k < |first| {
      EntryCut(entries[0], k);
    } else {
      EntryBack(entries[0], rest[..k - |first|]);
      EntriesCut(entries[1..], k - |first|);
    }
  }

  /** A table cut short anywhere is not read. */
  lemma {:induction false} TableCut(entries: seq<Entry>, k: nat)
    requires |entries| < TWO64 && (forall e :: e in entries ==> |e.name| < 0x1_0000) && k < |TableBytes(entries)|
    ensures PopTable(TableBytes(entries)[..k]) == Short
  {
    hide Le, EntriesBytes, PopEntries, FromLe;
    CutIn(Le(|entries|, 8), EntriesBytes(entries), k);
    if k >= 8 {
      NumberBack(|entries|, 8, EntriesBytes(entries)[..k - 8]);
      Pow256Values();
      EntriesCut(entries, k - 8);
    }
  }
}
