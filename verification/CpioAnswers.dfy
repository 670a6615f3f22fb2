/** What the parser accepts and reports, said of the bytes and of the chain of entries in them. */
module CpioAnswers {
  import opened Common
  import opened CpioModel
  import opened CpioLaws
  import opened CpioAccepted

  // ---- numbers

  predicate IsHex(b: Byte) { '0' as int <= b <= '9' as int || 'a' as int <= b <= 'f' as int || 'A' as int <= b <= 'F' as int }

  function HexOf(b: Byte): nat
    requires IsHex(b)
  {
    if b <= '9' as int then b - '0' as int else if b <= 'F' as int then b - 'A' as int + 10 else b - 'a' as int + 10
  }

  predicate AllHex(s: seq<Byte>) { forall k :: 0 <= k < |s| ==> IsHex(s[k]) }

  function Power16(n: nat): nat { if n == 0 then 1 else 16 * Power16(n - 1) }

  /** The number a string of hexadecimal digits stands for, most significant digit first. */
  function NumberOf(s: seq<Byte>): nat
    requires AllHex(s)
  {
    if s == [] then 0 else HexOf(s[0]) * Power16(|s| - 1) + NumberOf(s[1..])
  }

  lemma {:induction false} NumberSnoc(s: seq<Byte>, b: Byte)
    requires AllHex(s) && IsHex(b)
    ensures AllHex(s + [b]) && NumberOf(s + [b]) == 16 * NumberOf(s) + HexOf(b)
  {
    if s == [] {
      assert [b][1..] == [];
    } else {
      var all := s + [b];
      assert all[0] == s[0] && all[1..] == s[1..] + [b];
      NumberSnoc(s[1..], b);
      Shifted(HexOf(s[0]), Power16(|s| - 1), NumberOf(s[1..]));
    }
  }

  lemma Shifted(d: nat, p: nat, n: nat)
    ensures d * (16 * p) == 16 * (d * p) && 16 * (d * p + n) == 16 * (d * p) + 16 * n
  {
  }

  lemma {:induction false} NumberBound(s: seq<Byte>)
    requires AllHex(s)
    ensures NumberOf(s) < Power16(|s|)
  {
    if s != [] {
      NumberBound(s[1..]);
      DigitBound(HexOf(s[0]), Power16(|s| - 1));
    }
  }

  lemma DigitBound(d: nat, p: nat)
    requires d < 16
    ensures d * p + p <= 16 * p
  {
    assert (d + 1) * p <= 16 * p;
  }

  /** Eight digits never overflow, so a field is read exactly if all its characters are digits. */
  lemma {:induction false} HexAnswer(s: seq<Byte>)
    requires |s| <= 8
    ensures HexValue(s) == if AllHex(s) then Some(NumberOf(s)) else None
  {
    if s != [] {
      var (init, b) := (s[..|s| - 1], s[|s| - 1]);
      assert s == init + [b];
      HexAnswer(init);
      if AllHex(init) && IsHex(b) {
        NumberSnoc(init, b);
        NumberBound(s);
        SmallPower(|s|);
      }
    }
  }

  lemma SmallPower(n: nat)
    requires n <= 8
    ensures Power16(n) <= 0x1_0000_0000
  {
    assert Power16(1) == 0x10 && Power16(2) == 0x100 && Power16(3) == 0x1000 && Power16(4) == 0x1_0000;
    assert Power16(5) == 0x10_0000 && Power16(6) == 0x100_0000 && Power16(7) == 0x1000_0000 && Power16(8) == 0x1_0000_0000;
  }

  // ---- one entry

  /** The field that starts `at` bytes into the header. */
  function FieldAt(bytes: seq<Byte>, offset: nat, at: nat): seq<Byte>
    requires at + 8 <= 110 && offset + 110 <= |bytes|
  {
    bytes[offset + at..offset + at + 8]
  }

  predicate HeaderGood(bytes: seq<Byte>, offset: nat)
  {
    && offset + 110 <= |bytes| && bytes[offset..offset + 6] == [0x30, 0x37, 0x30, 0x37, 0x30, 0x31]
    && AllHex(bytes[offset + 6..offset + 110])
  }

  function NumberAt(bytes: seq<Byte>, offset: nat, at: nat): nat
    requires HeaderGood(bytes, offset) && 6 <= at && at + 8 <= 110
  {
    assert FieldAt(bytes, offset, at) == bytes[offset + 6..offset + 110][at - 6..at + 2];
    NumberOf(FieldAt(bytes, offset, at))
  }

  function UpTo4(n: nat): nat { (n + 3) / 4 * 4 }

  /** The bytes at `offset` are one entry with these parts; mode, size, name length and checksum stand at 14, 54, 94 and 102. */
  predicate EntryHere(bytes: seq<Byte>, offset: nat, p: Parsed)
  {
    && HeaderGood(bytes, offset) && NumberAt(bytes, offset, 102) == 0
    && var (size, length) := (NumberAt(bytes, offset, 54), NumberAt(bytes, offset, 94));
    && 1 <= length <= 97
    && var (start, from) := (offset + 110, UpTo4(offset + 110 + length));
    && start + length <= |bytes| && from + size <= |bytes| && UpTo4(from + size) <= |bytes|
    && bytes[start + length - 1] == 0
    && p == Parsed(bytes[start..start + length - 1], bytes[from..from + size], NumberAt(bytes, offset, 14), UpTo4(from + size), p.trailer)
    && p.trailer == (p.name == [0x54, 0x52, 0x41, 0x49, 0x4c, 0x45, 0x52, 0x21, 0x21, 0x21])
    && if p.trailer then size == 0 else ValidPath(p.name)
  }

  lemma UpTo4Is(n: nat)
    ensures Align4(n) == UpTo4(n)
  {
  }

  lemma HeaderAnswer(bytes: seq<Byte>, offset: nat)
    requires offset + HEADER_SIZE <= |bytes|
    ensures FieldsOk(bytes, offset) <==> AllHex(bytes[offset + 6..offset + 110])
    ensures FieldsOk(bytes, offset) && bytes[offset..offset + 6] == MAGIC ==>
              forall k :: 0 <= k < FIELDS ==> HexValue(Field(bytes, offset, k)) == Some(NumberAt(bytes, offset, 6 + 8 * k))
  {
    var header := bytes[offset + 6..offset + HEADER_SIZE];
    forall k | 0 <= k < FIELDS ensures Field(bytes, offset, k) == FieldAt(bytes, offset, 6 + 8 * k) && |Field(bytes, offset, k)| == 8 {}
    forall k | 0 <= k < FIELDS ensures HexValue(Field(bytes, offset, k)).Some? <==> AllHex(Field(bytes, offset, k)) { HexAnswer(Field(bytes, offset, k)); }
    if FieldsOk(bytes, offset) {
      forall j | 0 <= j < |header| ensures IsHex(header[j]) { assert header[j] == Field(bytes, offset, j / 8)[j % 8]; }
    }
    if AllHex(header) {
      forall k | 0 <= k < FIELDS ensures AllHex(Field(bytes, offset, k)) {
        forall j | 0 <= j < 8 ensures IsHex(Field(bytes, offset, k)[j]) { assert Field(bytes, offset, k)[j] == header[8 * k + j]; }
      }
    }
    if FieldsOk(bytes, offset) && bytes[offset..offset + 6] == MAGIC {
      forall k | 0 <= k < FIELDS ensures HexValue(Field(bytes, offset, k)) == Some(NumberAt(bytes, offset, 6 + 8 * k)) { HexAnswer(Field(bytes, offset, k)); }
    }
  }

  /** An entry is parsed exactly if the bytes are one, and the result is what they say. */
  lemma EntryAnswer(bytes: seq<Byte>, offset: nat)
    ensures forall p :: ParseEntry(bytes, offset) == Ok(p) <==> EntryHere(bytes, offset, p)
  {
    if offset + HEADER_SIZE <= |bytes| {
      HeaderAnswer(bytes, offset);
      if HeaderGood(bytes, offset) {
        BodyAnswer(bytes, offset, NumberAt(bytes, offset, 14), NumberAt(bytes, offset, 54), NumberAt(bytes, offset, 94), NumberAt(bytes, offset, 102));
      }
    }
  }

  lemma BodyAnswer(bytes: seq<Byte>, offset: nat, mode: nat, size: nat, length: nat, check: nat)
    requires HeaderGood(bytes, offset) && mode == NumberAt(bytes, offset, 14) && size == NumberAt(bytes, offset, 54)
    requires length == NumberAt(bytes, offset, 94) && check == NumberAt(bytes, offset, 102)
    ensures forall p :: ParseBody(bytes, offset + HEADER_SIZE, mode, size, length, check) == Ok(p) <==> EntryHere(bytes, offset, p)
  {
    UpTo4Is(offset + HEADER_SIZE + length);
    UpTo4Is(UpTo4(offset + HEADER_SIZE + length) + size);
  }

  /** Why bytes are no entry, in the order the checks are made. */
  lemma EntryErrors(bytes: seq<Byte>, offset: nat)
    ensures var r := ParseEntry(bytes, offset);
            && (r == Err(TruncatedHeader) <==> offset + 110 > |bytes|)
            && (r == Err(InvalidMagic) <==> offset + 110 <= |bytes| && bytes[offset..offset + 6] != [0x30, 0x37, 0x30, 0x37, 0x30, 0x31])
            && (r == Err(InvalidHexField) <==>
                  && offset + 110 <= |bytes| && bytes[offset..offset + 6] == [0x30, 0x37, 0x30, 0x37, 0x30, 0x31]
                  && !AllHex(bytes[offset + 6..offset + 110]))
            && (HeaderGood(bytes, offset) ==>
                  var (size, length) := (NumberAt(bytes, offset, 54), NumberAt(bytes, offset, 94));
                  && (r == Err(ChecksumUnsupported) <==> NumberAt(bytes, offset, 102) != 0)
                  && (NumberAt(bytes, offset, 102) == 0 ==>
                        && (r == Err(InvalidNameSize) <==> length == 0)
                        && (r == Err(NameTooLong) <==> length > 97)
                        && (r == Err(NameMissingTerminator) <==>
                              1 <= length <= 97 && offset + 110 + length <= |bytes| && bytes[offset + 110 + length - 1] != 0)
                        && (r == Err(EntryOutsideArchive) ==>
                              offset + 110 + length > |bytes| || UpTo4(UpTo4(offset + 110 + length) + size) > |bytes|)))
  {
    if offset + HEADER_SIZE <= |bytes| {
      HeaderAnswer(bytes, offset);
      if HeaderGood(bytes, offset) {
        UpTo4Is(offset + HEADER_SIZE + NumberAt(bytes, offset, 94));
        UpTo4Is(UpTo4(offset + HEADER_SIZE + NumberAt(bytes, offset, 94)) + NumberAt(bytes, offset, 54));
      }
    }
  }

  // ---- the whole archive

  /** From `offset` on the bytes are these entries and then the trailer, which ends at `end`. */
  ghost predicate Chain(bytes: seq<Byte>, offset: nat, ps: seq<Parsed>, end: nat)
    decreases |ps|
  {
    && offset < |bytes|
    && if ps == [] then exists t: Parsed :: TrailerTo(bytes, offset, t, end)
       else ParseEntry(bytes, offset) == Ok(ps[0]) && !ps[0].trailer && Chain(bytes, ps[0].next, ps[1..], end)
  }

  predicate TrailerTo(bytes: seq<Byte>, offset: nat, t: Parsed, end: nat) { ParseEntry(bytes, offset) == Ok(t) && t.trailer && t.next == end }

  predicate RegularMode(mode: nat) { mode / 0x1000 % 16 == 8 }

  predicate DirectoryMode(mode: nat) { mode / 0x1000 % 16 == 4 }

  predicate IsInit(p: Parsed) { p.name == [0x62, 0x69, 0x6e, 0x2f, 0x69, 0x6e, 0x69, 0x74] }

  ghost predicate Listable(ps: seq<Parsed>, room: nat)
  {
    |ps| <= room && forall k :: 0 <= k < |ps| && IsInit(ps[k]) ==> RegularMode(ps[k].mode)
  }

  function RegularCount(ps: seq<Parsed>): nat { if ps == [] then 0 else (if RegularMode(ps[0].mode) then 1 else 0) + RegularCount(ps[1..]) }

  function DirectoryCount(ps: seq<Parsed>): nat { if ps == [] then 0 else (if DirectoryMode(ps[0].mode) then 1 else 0) + DirectoryCount(ps[1..]) }

  function RegularBytes(ps: seq<Parsed>): nat { if ps == [] then 0 else (if RegularMode(ps[0].mode) then |ps[0].data| else 0) + RegularBytes(ps[1..]) }

  ghost predicate Tallied(index: Index, ps: seq<Parsed>, r: Index)
  {
    && |r.entries| == |index.entries| + |ps| && r.regular == index.regular + RegularCount(ps)
    && r.directories == index.directories + DirectoryCount(ps) && r.totalBytes == index.totalBytes + RegularBytes(ps)
    && (r.init.Some? <==> index.init.Some? || exists k :: 0 <= k < |ps| && IsInit(ps[k]))
  }

  /** The loop goes through exactly if the bytes are a chain of at most 32 entries whose init programs are regular files. */
  lemma {:induction false} ChainAnswer(bytes: seq<Byte>, offset: nat, index: Index, ps: seq<Parsed>, end: nat)
    requires Chain(bytes, offset, ps, end) && |index.entries| <= 32
    ensures ParseFrom(bytes, offset, index).Ok? <==> Listable(ps, 32 - |index.entries|)
    ensures ParseFrom(bytes, offset, index).Ok? ==> ParseFrom(bytes, offset, index).value.1 == end && Tallied(index, ps, ParseFrom(bytes, offset, index).value.0)
    decreases |ps|
  {
    if ps == [] {
      var t: Parsed :| TrailerTo(bytes, offset, t, end);
    } else {
      var (p, rest) := (ps[0], ps[1..]);
      assert forall k :: 1 <= k < |ps| ==> ps[k] == rest[k - 1];
      if |index.entries| < 32 && (IsInit(p) ==> RegularMode(p.mode)) {
        ParseFromStep(bytes, offset, index, p);
        ChainAnswer(bytes, p.next, AddInfo(index, p), rest, end);
        InitLater(ps);
      }
    }
  }

  lemma InitLater(ps: seq<Parsed>)
    requires ps != []
    ensures (exists k :: 0 <= k < |ps| && IsInit(ps[k])) <==> IsInit(ps[0]) || exists k :: 0 <= k < |ps[1..]| && IsInit(ps[1..][k])
  {
    forall k | 1 <= k < |ps| ensures ps[k] == ps[1..][k - 1] {}
  }

  /** Nothing else goes through the loop. */
  lemma {:induction false} ChainFound(bytes: seq<Byte>, offset: nat, index: Index) returns (ps: seq<Parsed>, end: nat)
    requires ParseFrom(bytes, offset, index).Ok?
    ensures Chain(bytes, offset, ps, end)
    decreases |bytes| - offset
  {
    var p := ParseEntry(bytes, offset).value;
    if p.trailer {
      ps, end := [], p.next;
      assert TrailerTo(bytes, offset, p, end);
    } else {
      ParseFromStep(bytes, offset, index, p);
      var rest;
      rest, end := ChainFound(bytes, p.next, AddInfo(index, p));
      ps := [p] + rest;
      assert ps[1..] == rest;
    }
  }

  ghost predicate Acceptable(bytes: seq<Byte>, ps: seq<Parsed>, end: nat)
  {
    && Chain(bytes, 0, ps, end) && Listable(ps, 32) && (exists k :: 0 <= k < |ps| && IsInit(ps[k]))
    && forall k :: end <= k < |bytes| ==> bytes[k] == 0
  }

  /**
   An archive is accepted exactly if it is a chain of at most 32 entries and a trailer, followed by
   zeros only, with an init program, which is a regular file. The index counts what the chain holds.
   */
  lemma ArchiveAnswer(bytes: seq<Byte>)
    ensures ParseArchive(bytes).Ok? <==> exists ps, end :: Acceptable(bytes, ps, end)
    ensures forall ps, end :: Acceptable(bytes, ps, end) ==> ParseArchive(bytes).Ok? && Tallied(EMPTY_INDEX, ps, ParseArchive(bytes).value)
  {
    forall ps, end | Acceptable(bytes, ps, end) ensures ParseArchive(bytes).Ok? && Tallied(EMPTY_INDEX, ps, ParseArchive(bytes).value) {
      ChainAnswer(bytes, 0, EMPTY_INDEX, ps, end);
    }
    if ParseArchive(bytes).Ok? {
      var ps, end := ChainFound(bytes, 0, EMPTY_INDEX);
      ChainAnswer(bytes, 0, EMPTY_INDEX, ps, end);
      assert Acceptable(bytes, ps, end);
    }
  }

  /** For a sound chain the two checks at the end are told apart. */
  lemma ArchiveErrors(bytes: seq<Byte>, ps: seq<Parsed>, end: nat)
    requires Chain(bytes, 0, ps, end) && Listable(ps, 32)
    ensures ParseArchive(bytes) == Err(TrailingGarbage) <==> exists k :: end <= k < |bytes| && bytes[k] != 0
    ensures ParseArchive(bytes) == Err(MissingInit) <==> (forall k :: end <= k < |bytes| ==> bytes[k] == 0) && forall k :: 0 <= k < |ps| ==> !IsInit(ps[k])
  {
    ChainAnswer(bytes, 0, EMPTY_INDEX, ps, end);
  }
}
