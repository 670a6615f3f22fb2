/** Writing an archive and parsing it again gives back the entries, and lookups find the first match. */
module CpioLaws {
  import opened Common
  import opened CpioModel

  // ---- numbers

  lemma DigitBack(d: nat)
    requires d < 16
    ensures DigitValue(HexDigit(d)) == Some(d)
  {
  }

  function Pow16(k: nat): nat { if k == 0 then 1 else 16 * Pow16(k - 1) }

  lemma {:induction false} PowMonotone(j: nat, k: nat)
    requires j <= k
    ensures Pow16(j) <= Pow16(k)
  {
    if j < k { PowMonotone(j, k - 1); }
  }

  lemma {:induction false} HexBack(n: nat, k: nat)
    requires n < Pow16(k) && k <= 8
    ensures HexValue(Hex(n, k)) == Some(n)
  {
    if k > 0 {
      HexBack(n / 16, k - 1);
      DigitBack(n % 16);
      var s := Hex(n, k);
      assert s[..|s| - 1] == Hex(n / 16, k - 1) && s[|s| - 1] == HexDigit(n % 16);
      assert Pow16(8) == U32_LIMIT;
      PowMonotone(k, 8);
    }
  }

  /** A way of writing fields that the parser reads back. */
  ghost predicate Faithful(write: nat -> seq<Byte>)
  {
    (forall n: nat :: |write(n)| == 8) && forall n: nat :: n < U32_LIMIT ==> HexValue(write(n)) == Some(n)
  }

  lemma HexFaithful()
    ensures Faithful(HexField())
  {
    forall n: nat | n < U32_LIMIT ensures HexValue(HexField()(n)) == Some(n) {
      assert Pow16(8) == U32_LIMIT;
      HexBack(n, 8);
    }
  }

  lemma {:induction false} FieldAt(write: nat -> seq<Byte>, fields: seq<nat>, k: nat)
    requires Faithful(write) && k < |fields|
    ensures |FieldBytes(write, fields)| == 8 * |fields| && FieldBytes(write, fields)[8 * k..8 * k + 8] == write(fields[k])
  {
    var before := fields[..|fields| - 1];
    if k < |fields| - 1 {
      FieldAt(write, before, k);
      assert FieldBytes(write, fields)[8 * k..8 * k + 8] == FieldBytes(write, before)[8 * k..8 * k + 8];
    } else if before != [] {
      FieldAt(write, before, 0);
    }
  }

  // ---- one entry inside a larger archive

  /** Everything an entry's header can express. */
  ghost predicate Writable(e: Entry)
  {
    e.inode < U32_LIMIT && e.mode < U32_LIMIT && e.links < U32_LIMIT && |e.data| < U32_LIMIT && |e.name| <= MAX_PATH
  }

  /** `bytes` holds a header with these fields at `offset`. */
  ghost predicate HeaderAt(write: nat -> seq<Byte>, bytes: seq<Byte>, offset: nat, fields: seq<nat>)
  {
    && offset + HEADER_SIZE <= |bytes| && bytes[offset..offset + 6] == MAGIC
    && bytes[offset + 6..offset + HEADER_SIZE] == FieldBytes(write, fields)
  }

  lemma HeaderField(write: nat -> seq<Byte>, bytes: seq<Byte>, offset: nat, fields: seq<nat>, k: nat)
    requires Faithful(write) && HeaderAt(write, bytes, offset, fields) && k < FIELDS == |fields| && fields[k] < U32_LIMIT
    ensures HexValue(Field(bytes, offset, k)) == Some(fields[k])
  {
    FieldAt(write, fields, k);
  }

  /** Where data starts, and where the entry ends, after a header that ends at `start`. */
  function DataStart(start: nat, e: Entry): nat { Align4(start + (|e.name| + 1)) }

  function BodyEnd(start: nat, e: Entry): nat { Align4(DataStart(start, e) + |e.data|) }

  function NextOf(offset: nat, e: Entry): nat { BodyEnd(offset + HEADER_SIZE, e) }

  /** Name, terminator and data of `e` follow the header, each padded to four bytes. */
  ghost predicate BodyAt(bytes: seq<Byte>, start: nat, e: Entry)
  {
    && BodyEnd(start, e) <= |bytes|
    && bytes[start..start + |e.name|] == e.name && bytes[start + |e.name|] == 0
    && bytes[DataStart(start, e)..DataStart(start, e) + |e.data|] == e.data
  }

  lemma ParseBodyBack(bytes: seq<Byte>, start: nat, e: Entry)
    requires BodyAt(bytes, start, e) && |e.name| <= MAX_PATH && (e.name == TRAILER || ValidPath(e.name)) && (e.name == TRAILER ==> e.data == [])
    ensures ParseBody(bytes, start, e.mode, |e.data|, |e.name| + 1, 0)
            == Ok(Parsed(e.name, e.data, e.mode, BodyEnd(start, e), e.name == TRAILER))
  {
    assert bytes[start..start + (|e.name| + 1) - 1] == e.name;
  }

  ghost predicate EntryAt(write: nat -> seq<Byte>, bytes: seq<Byte>, offset: nat, e: Entry)
  {
    HeaderAt(write, bytes, offset, Fields(e)) && BodyAt(bytes, offset + HEADER_SIZE, e)
  }

  ghost predicate Readable(e: Entry)
  {
    Writable(e) && (e.name == TRAILER || ValidPath(e.name)) && (e.name == TRAILER ==> e.data == [])
  }

  /** Parsing where an entry was written returns that entry and the offset after it. */
  lemma ParseEntryBack(write: nat -> seq<Byte>, bytes: seq<Byte>, offset: nat, e: Entry)
    requires Faithful(write) && Readable(e) && EntryAt(write, bytes, offset, e)
    ensures ParseEntry(bytes, offset) == Ok(Parsed(e.name, e.data, e.mode, NextOf(offset, e), e.name == TRAILER))
  {
    SmallFields(e);
    HeaderFields(write, bytes, offset, Fields(e));
    FieldsBack(bytes, offset, Fields(e), e);
    ParseBodyBack(bytes, offset + HEADER_SIZE, e);
    ParseEntryShape(bytes, offset, e.mode, |e.data|, |e.name| + 1);
  }

  lemma SmallFields(e: Entry)
    requires Writable(e)
    ensures |Fields(e)| == FIELDS && forall k :: 0 <= k < FIELDS ==> Fields(e)[k] < U32_LIMIT
  {
  }

  lemma HeaderFields(write: nat -> seq<Byte>, bytes: seq<Byte>, offset: nat, fields: seq<nat>)
    requires Faithful(write) && HeaderAt(write, bytes, offset, fields)
    requires |fields| == FIELDS && forall k :: 0 <= k < FIELDS ==> fields[k] < U32_LIMIT
    ensures forall k :: 0 <= k < FIELDS ==> HexValue(Field(bytes, offset, k)) == Some(fields[k])
  {
    forall k | 0 <= k < FIELDS ensures HexValue(Field(bytes, offset, k)) == Some(fields[k]) { HeaderField(write, bytes, offset, fields, k); }
  }

  lemma FieldsBack(bytes: seq<Byte>, offset: nat, fields: seq<nat>, e: Entry)
    requires offset + HEADER_SIZE <= |bytes| && fields == Fields(e)
    requires forall k :: 0 <= k < FIELDS ==> HexValue(Field(bytes, offset, k)) == Some(fields[k])
    ensures FieldsOk(bytes, offset)
    ensures HexValue(Field(bytes, offset, MODE_FIELD)) == Some(e.mode) && HexValue(Field(bytes, offset, SIZE_FIELD)) == Some(|e.data|)
    ensures HexValue(Field(bytes, offset, NAME_FIELD)) == Some(|e.name| + 1) && HexValue(Field(bytes, offset, CHECK_FIELD)) == Some(0)
  {
  }

  /** With a good magic and good fields, the result is that of the body. */
  lemma ParseEntryShape(bytes: seq<Byte>, offset: nat, mode: nat, size: nat, nameSize: nat)
    requires offset + HEADER_SIZE <= |bytes| && bytes[offset..offset + 6] == MAGIC && FieldsOk(bytes, offset)
    requires HexValue(Field(bytes, offset, MODE_FIELD)).value == mode && HexValue(Field(bytes, offset, SIZE_FIELD)).value == size
    requires HexValue(Field(bytes, offset, NAME_FIELD)).value == nameSize && HexValue(Field(bytes, offset, CHECK_FIELD)).value == 0
    ensures ParseEntry(bytes, offset) == ParseBody(bytes, offset + HEADER_SIZE, mode, size, nameSize, 0)
  {
  }

  // ---- the writer produces such entries

  ghost predicate Extends(long: seq<Byte>, short: seq<Byte>) { |short| <= |long| && long[..|short|] == short }

  lemma PaddedLength(s: seq<Byte>)
    ensures |Padded(s)| == Align4(|s|) && Extends(Padded(s), s)
  {
  }

  /** Where the parts of an entry lie when the header's fields take 104 bytes. */
  lemma PartsShape(archive: seq<Byte>, fields: seq<Byte>, name: seq<Byte>, data: seq<Byte>)
    requires |fields| == 8 * FIELDS
    ensures var raw := archive + MAGIC + fields + name + [0];
            var n := |archive|;
            && |raw| == n + HEADER_SIZE + |name| + 1
            && raw[..n] == archive && raw[n..n + 6] == MAGIC && raw[n + 6..n + HEADER_SIZE] == fields
            && raw[n + HEADER_SIZE..n + HEADER_SIZE + |name|] == name && raw[n + HEADER_SIZE + |name|] == 0
  {
  }

  lemma ExtendsSlice(long: seq<Byte>, short: seq<Byte>, a: nat, b: nat)
    requires Extends(long, short) && a <= b <= |short|
    ensures long[a..b] == short[a..b]
  {
    var (x, y) := (long[a..b], short[a..b]);
    forall k | 0 <= k < |x| ensures x[k] == y[k] { assert long[..|short|][a + k] == short[a + k]; }
  }

  lemma ExtendsTwice(a: seq<Byte>, b: seq<Byte>, c: seq<Byte>)
    requires Extends(a, b) && Extends(b, c)
    ensures Extends(a, c)
  {
    assert a[..|c|] == a[..|b|][..|c|];
  }

  /** The parts of one padded entry, wherever the header's fields come from. */
  ghost predicate PartsAt(all: seq<Byte>, n: nat, fields: seq<Byte>, e: Entry)
  {
    && n + HEADER_SIZE <= |all| && all[n..n + 6] == MAGIC && all[n + 6..n + HEADER_SIZE] == fields
    && BodyAt(all, n + HEADER_SIZE, e)
  }

  lemma AppendParts(archive: seq<Byte>, fields: seq<Byte>, e: Entry)
    requires |fields| == 8 * FIELDS
    ensures var all := Padded(Padded(archive + MAGIC + fields + e.name + [0]) + e.data);
            Extends(all, archive) && PartsAt(all, |archive|, fields, e) && |all| == NextOf(|archive|, e)
  {
    var start := |archive| + HEADER_SIZE;
    PartsShape(archive, fields, e.name, e.data);
    var raw := archive + MAGIC + fields + e.name + [0];
    var body := Padded(raw) + e.data;
    PaddedLength(raw);
    PaddedLength(body);
    assert |raw| == start + (|e.name| + 1);
    assert Extends(body, Padded(raw));
    ExtendsTwice(body, Padded(raw), raw);
    ExtendsTwice(Padded(body), body, raw);
    assert Extends(raw, archive);
    ExtendsTwice(Padded(body), raw, archive);
    assert body[|Padded(raw)|..] == e.data;
    Placed(Padded(body), body, raw, |archive|, fields, e);
  }

  lemma Placed(all: seq<Byte>, body: seq<Byte>, raw: seq<Byte>, n: nat, fields: seq<Byte>, e: Entry)
    requires Extends(all, raw) && Extends(all, body) && |raw| == n + HEADER_SIZE + (|e.name| + 1)
    requires raw[n..n + 6] == MAGIC && raw[n + 6..n + HEADER_SIZE] == fields
    requires raw[n + HEADER_SIZE..n + HEADER_SIZE + |e.name|] == e.name && raw[n + HEADER_SIZE + |e.name|] == 0
    requires |body| == DataStart(n + HEADER_SIZE, e) + |e.data| && body[DataStart(n + HEADER_SIZE, e)..] == e.data && |all| == Align4(|body|)
    ensures PartsAt(all, n, fields, e)
  {
    ExtendsSlice(all, raw, n, n + 6);
    ExtendsSlice(all, raw, n + 6, n + HEADER_SIZE);
    ExtendsSlice(all, raw, n + HEADER_SIZE, n + HEADER_SIZE + |e.name|);
    ExtendsSlice(all, body, DataStart(n + HEADER_SIZE, e), |body|);
    assert body[DataStart(n + HEADER_SIZE, e)..|body|] == e.data;
    assert all[n + HEADER_SIZE + |e.name|] == all[..|raw|][n + HEADER_SIZE + |e.name|];
  }

  lemma AppendShape(write: nat -> seq<Byte>, archive: seq<Byte>, e: Entry)
    requires Faithful(write)
    ensures Extends(Append(write, archive, e), archive) && EntryAt(write, Append(write, archive, e), |archive|, e)
    ensures |Append(write, archive, e)| == NextOf(|archive|, e)
  {
    FieldAt(write, Fields(e), 0);
    AppendParts(archive, FieldBytes(write, Fields(e)), e);
  }

  lemma ExtendsKeeps(write: nat -> seq<Byte>, long: seq<Byte>, short: seq<Byte>, offset: nat, e: Entry)
    requires Extends(long, short) && EntryAt(write, short, offset, e)
    ensures EntryAt(write, long, offset, e)
  {
    var start := offset + HEADER_SIZE;
    ExtendsSlice(long, short, offset, offset + 6);
    ExtendsSlice(long, short, offset + 6, start);
    ExtendsSlice(long, short, start, start + |e.name|);
    ExtendsSlice(long, short, DataStart(start, e), DataStart(start, e) + |e.data|);
    assert long[start + |e.name|] == long[..|short|][start + |e.name|];
  }

  // ---- whole archives

  lemma {:induction false} AllExtends(write: nat -> seq<Byte>, entries: seq<Entry>, i: nat)
    requires Faithful(write) && i <= |entries|
    ensures Extends(AppendAll(write, entries), AppendAll(write, entries[..i]))
  {
    if i < |entries| {
      var before := entries[..|entries| - 1];
      assert before[..i] == entries[..i];
      AllExtends(write, before, i);
      AppendShape(write, AppendAll(write, before), entries[|entries| - 1]);
      ExtendsTwice(AppendAll(write, entries), AppendAll(write, before), AppendAll(write, entries[..i]));
    } else {
      assert entries[..i] == entries;
    }
  }

  function OffsetOf(write: nat -> seq<Byte>, entries: seq<Entry>, i: nat): nat
    requires i <= |entries|
  {
    |AppendAll(write, entries[..i])|
  }

  /** Entry `i` of an archive lies at the length of what was written before it. */
  lemma EntryInArchive(write: nat -> seq<Byte>, entries: seq<Entry>, i: nat)
    requires Faithful(write) && i < |entries|
    ensures EntryAt(write, Archive(write, entries), OffsetOf(write, entries, i), entries[i])
    ensures OffsetOf(write, entries, i + 1) == NextOf(OffsetOf(write, entries, i), entries[i])
  {
    var (all, upTo) := (AppendAll(write, entries), AppendAll(write, entries[..i + 1]));
    assert entries[..i + 1][..i] == entries[..i] && entries[..i + 1][i] == entries[i];
    AppendShape(write, AppendAll(write, entries[..i]), entries[i]);
    AllExtends(write, entries, i + 1);
    AppendShape(write, all, TrailerEntry(|entries| + 1));
    ExtendsTwice(Archive(write, entries), all, upTo);
    ExtendsKeeps(write, Archive(write, entries), upTo, OffsetOf(write, entries, i), entries[i]);
  }

  lemma TrailerInArchive(write: nat -> seq<Byte>, entries: seq<Entry>)
    requires Faithful(write)
    ensures EntryAt(write, Archive(write, entries), OffsetOf(write, entries, |entries|), TrailerEntry(|entries| + 1))
    ensures |Archive(write, entries)| == NextOf(OffsetOf(write, entries, |entries|), TrailerEntry(|entries| + 1))
  {
    assert entries[..|entries|] == entries;
    AppendShape(write, AppendAll(write, entries), TrailerEntry(|entries| + 1));
  }

  /** What the build tool may put into an archive. */
  ghost predicate Listable(e: Entry) { Writable(e) && ValidPath(e.name) && (e.name == INIT_PATH ==> IsRegular(e.mode)) }

  ghost predicate AllListable(entries: seq<Entry>)
  {
    |entries| <= MAX_ENTRIES && forall k :: 0 <= k < |entries| ==> Listable(entries[k])
  }

  function ParsedOf(e: Entry, next: nat): Parsed { Parsed(e.name, e.data, e.mode, next, false) }

  lemma NotTrailer(e: Entry)
    requires ValidPath(e.name)
    ensures e.name != TRAILER
  {
    assert TRAILER[7] == 0x21;
  }

  lemma EntryParsed(write: nat -> seq<Byte>, entries: seq<Entry>, i: nat)
    requires Faithful(write) && AllListable(entries) && i < |entries|
    ensures ParseEntry(Archive(write, entries), OffsetOf(write, entries, i))
            == Ok(ParsedOf(entries[i], OffsetOf(write, entries, i + 1)))
  {
    EntryInArchive(write, entries, i);
    assert Listable(entries[i]);
    NotTrailer(entries[i]);
    ParseEntryBack(write, Archive(write, entries), OffsetOf(write, entries, i), entries[i]);
  }

  lemma TrailerParsed(write: nat -> seq<Byte>, entries: seq<Entry>)
    requires Faithful(write) && |entries| <= MAX_ENTRIES
    ensures var p := ParseEntry(Archive(write, entries), OffsetOf(write, entries, |entries|));
            p.Ok? && p.value.trailer && p.value.next == |Archive(write, entries)|
  {
    TrailerInArchive(write, entries);
    ParseEntryBack(write, Archive(write, entries), OffsetOf(write, entries, |entries|), TrailerEntry(|entries| + 1));
  }

  // ---- the index

  function InfoOf(e: Entry): Info { Info(e.name, |e.data|, e.mode, IsRegular(e.mode), IsDirectory(e.mode)) }

  /** The index that lists `entries` after those already in `index`. */
  function IndexAll(index: Index, entries: seq<Entry>): Index
    decreases |entries|
  {
    if entries == [] then index else IndexAll(AddInfo(index, ParsedOf(entries[0], 0)), entries[1..])
  }

  lemma AddInfoSame(index: Index, e: Entry, next: nat)
    ensures AddInfo(index, ParsedOf(e, next)) == AddInfo(index, ParsedOf(e, 0))
    ensures |AddInfo(index, ParsedOf(e, next)).entries| == |index.entries| + 1
  {
  }

  lemma ParseFromStep(bytes: seq<Byte>, offset: nat, index: Index, p: Parsed)
    requires ParseEntry(bytes, offset) == Ok(p) && !p.trailer && |index.entries| < MAX_ENTRIES
    requires p.name == INIT_PATH ==> IsRegular(p.mode)
    ensures ParseFrom(bytes, offset, index) == ParseFrom(bytes, p.next, AddInfo(index, p))
  {
  }

  lemma {:induction false} ParseFromBack(write: nat -> seq<Byte>, entries: seq<Entry>, i: nat, index: Index)
    requires Faithful(write) && AllListable(entries) && i <= |entries| && |index.entries| == i
    ensures ParseFrom(Archive(write, entries), OffsetOf(write, entries, i), index)
            == Ok((IndexAll(index, entries[i..]), |Archive(write, entries)|))
    decreases |entries| - i
  {
    if i < |entries| {
      EntryParsed(write, entries, i);
      AddInfoSame(index, entries[i], OffsetOf(write, entries, i + 1));
      assert Listable(entries[i]);
      ParseFromStep(Archive(write, entries), OffsetOf(write, entries, i), index, ParsedOf(entries[i], OffsetOf(write, entries, i + 1)));
      ParseFromBack(write, entries, i + 1, AddInfo(index, ParsedOf(entries[i], 0)));
      assert entries[i..][0] == entries[i] && entries[i..][1..] == entries[i + 1..];
    } else {
      TrailerParsed(write, entries);
      assert entries[i..] == [];
    }
  }

  lemma {:induction false} IndexAllEntries(index: Index, entries: seq<Entry>)
    ensures var r := IndexAll(index, entries);
            && |r.entries| == |index.entries| + |entries| && r.entries[..|index.entries|] == index.entries
            && (forall k :: 0 <= k < |entries| ==> r.entries[|index.entries| + k] == InfoOf(entries[k]))
            && (r.init.Some? <==> index.init.Some? || exists k :: 0 <= k < |entries| && entries[k].name == INIT_PATH)
    decreases |entries|
  {
    if entries != [] {
      var next := AddInfo(index, ParsedOf(entries[0], 0));
      IndexAllEntries(next, entries[1..]);
      var r := IndexAll(next, entries[1..]);
      assert next.entries[..|index.entries|] == index.entries && next.entries[|index.entries|] == InfoOf(entries[0]);
      assert r.entries[..|index.entries|] == r.entries[..|next.entries|][..|index.entries|];
      assert r.entries[|index.entries|] == r.entries[..|next.entries|][|index.entries|];
      forall k | 0 <= k < |entries| ensures r.entries[|index.entries| + k] == InfoOf(entries[k]) {
        if k > 0 { assert entries[1..][k - 1] == entries[k] && r.entries[|next.entries| + (k - 1)] == InfoOf(entries[1..][k - 1]); }
      }
      assert (exists k :: 0 <= k < |entries| && entries[k].name == INIT_PATH) <==>
               entries[0].name == INIT_PATH || exists k :: 0 <= k < |entries[1..]| && entries[1..][k].name == INIT_PATH by {
        forall k | 1 <= k < |entries| ensures entries[k] == entries[1..][k - 1] {}
      }
    }
  }

  /**
   Round trip: an archive of at most 32 valid entries with a regular bin/init parses back to the
   same paths, sizes and modes, in order.
   */
  lemma RoundTrip(entries: seq<Entry>)
    requires AllListable(entries) && exists k :: 0 <= k < |entries| && entries[k].name == INIT_PATH
    ensures var r := ParseArchive(Archive(HexField(), entries));
            && r.Ok? && |r.value.entries| == |entries|
            && forall k :: 0 <= k < |entries| ==> r.value.entries[k] == InfoOf(entries[k])
  {
    HexFaithful();
    EntriesParsed(HexField(), entries);
    IndexAllEntries(EMPTY_INDEX, entries);
  }

  lemma EntriesParsed(write: nat -> seq<Byte>, entries: seq<Entry>)
    requires Faithful(write) && AllListable(entries)
    ensures ParseFrom(Archive(write, entries), 0, EMPTY_INDEX) == Ok((IndexAll(EMPTY_INDEX, entries), |Archive(write, entries)|))
  {
    assert entries[..0] == [] && entries[0..] == entries;
    ParseFromBack(write, entries, 0, EMPTY_INDEX);
  }

  // ---- lookup

  /** The first entry of that name. */
  function FirstNamed(entries: seq<Entry>, name: seq<Byte>): Option<File>
    decreases |entries|
  {
    if entries == [] then None
    else if entries[0].name == name then Some(File(name, entries[0].data, entries[0].mode))
    else FirstNamed(entries[1..], name)
  }

  lemma {:induction false} FindFromBack(write: nat -> seq<Byte>, entries: seq<Entry>, i: nat, name: seq<Byte>)
    requires Faithful(write) && AllListable(entries) && i <= |entries|
    ensures FindFrom(Archive(write, entries), OffsetOf(write, entries, i), name) == FirstNamed(entries[i..], name)
    decreases |entries| - i
  {
    if i < |entries| {
      EntryParsed(write, entries, i);
      FindFromBack(write, entries, i + 1, name);
      assert entries[i..][0] == entries[i] && entries[i..][1..] == entries[i + 1..];
    } else {
      TrailerParsed(write, entries);
      assert entries[i..] == [];
    }
  }

  /** Looking a path up in a written archive finds the data of the first entry with that name. */
  lemma FindBack(entries: seq<Entry>, path: seq<Byte>)
    requires AllListable(entries) && Normalized(path).Some?
    ensures Find(Archive(HexField(), entries), path) == FirstNamed(entries, Normalized(path).value)
  {
    HexFaithful();
    assert entries[..0] == [] && entries[0..] == entries;
    FindFromBack(HexField(), entries, 0, Normalized(path).value);
  }

  // ---- the archive that is shipped

  lemma PlainPath(path: seq<Byte>)
    requires GoodComponent(path) && forall k :: 0 <= k < |path| ==> path[k] != SLASH && NameByte(path[k])
    ensures ValidPath(path)
  {
    forall s, e | 0 <= s <= e <= |path| && Component(path, s, e) ensures GoodComponent(path[s..e]) {
      assert s == 0 && e == |path|;
      assert path[s..e] == path;
    }
  }

  lemma NestedPath(a: seq<Byte>, b: seq<Byte>)
    requires GoodComponent(a) && GoodComponent(b)
    requires (forall k :: 0 <= k < |a| ==> a[k] != SLASH && NameByte(a[k])) && forall k :: 0 <= k < |b| ==> b[k] != SLASH && NameByte(b[k])
    ensures ValidPath(a + [SLASH] + b)
  {
    var path := a + [SLASH] + b;
    assert forall k :: |a| < k < |path| ==> path[k] == b[k - |a| - 1];
    forall s, e | 0 <= s <= e <= |path| && Component(path, s, e) ensures GoodComponent(path[s..e]) {
      assert path[|a|] == SLASH;
      assert (s == 0 && e == |a|) || (s == |a| + 1 && e == |path|);
      assert path[s..e] == a || path[s..e] == b;
    }
  }

  function ShippedEntries(init: seq<Byte>): seq<Entry>
  {
    [Entry(1, [0x62, 0x69, 0x6e], 0x41ed, 2, []), Entry(2, INIT_PATH, 0x81ed, 1, init)]
  }

  /** The archive the build tool writes is accepted by the kernel, which finds the init program in it. */
  lemma ShippedArchive(init: seq<Byte>)
    requires |init| < U32_LIMIT
    ensures ParseArchive(Archive(HexField(), ShippedEntries(init))).Ok?
    ensures Find(Archive(HexField(), ShippedEntries(init)), [SLASH] + INIT_PATH) == Some(File(INIT_PATH, init, 0x81ed))
  {
    var entries := ShippedEntries(init);
    PlainPath([0x62, 0x69, 0x6e]);
    NestedPath([0x62, 0x69, 0x6e], [0x69, 0x6e, 0x69, 0x74]);
    assert [0x62, 0x69, 0x6e] + [SLASH] + [0x69, 0x6e, 0x69, 0x74] == INIT_PATH;
    assert Listable(entries[0]) && Listable(entries[1]);
    assert entries[1].name == INIT_PATH;
    RoundTrip(entries);
    var path := [SLASH] + INIT_PATH;
    assert path[1..] == INIT_PATH;
    FindBack(entries, path);
    assert entries[1..] == [entries[1]];
    assert entries[0].name[0..3] == [0x62, 0x69, 0x6e] && |entries[0].name| != |INIT_PATH|;
  }
}
