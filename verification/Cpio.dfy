/** The archive parser's loops and the archive writer, as they run. */
module Cpio {
  import opened Common
  import opened CpioModel
  import opened CpioLaws

  // ---- parsing

  method ParseHexField(bytes: seq<Byte>) returns (r: Option<nat>)
    ensures r == if |bytes| != 8 then None else HexValue(bytes)
  {
    if |bytes| != 8 {
      return None;
    }
    var value := 0;
    var i := 0;
    while i < 8
      invariant 0 <= i <= 8 && HexValue(bytes[..i]) == Some(value)
    {
      assert bytes[..i + 1][..i] == bytes[..i] && bytes[..i + 1][i] == bytes[i];
      var digit := DigitValue(bytes[i]);
      if digit.None? || value * 16 + digit.value >= U32_LIMIT {
        NoValue(bytes, i + 1);
        return None;
      }
      value := value * 16 + digit.value;
      i := i + 1;
    }
    assert bytes[..8] == bytes;
    r := Some(value);
  }

  /** A bad digit stays bad however much follows. */
  lemma {:induction false} NoValue(bytes: seq<Byte>, i: nat)
    requires i <= |bytes| && HexValue(bytes[..i]).None?
    ensures HexValue(bytes).None?
    decreases |bytes| - i
  {
    if i < |bytes| {
      assert bytes[..i + 1][..i] == bytes[..i];
      NoValue(bytes, i + 1);
    } else {
      assert bytes[..i] == bytes;
    }
  }

  /** All components that end before `index` are good, and one starts at `start`. */
  ghost predicate Scanned(path: seq<Byte>, start: nat, index: nat)
  {
    && start <= index <= |path| && (start == 0 || path[start - 1] == SLASH) && (forall k :: start <= k < index ==> path[k] != SLASH)
    && (forall k :: 0 <= k < index ==> path[k] == SLASH || NameByte(path[k]))
    && (forall s, e :: 0 <= s <= e < start && Component(path, s, e) ==> GoodComponent(path[s..e]))
  }

  method IsValidPath(path: seq<Byte>) returns (ok: bool)
    ensures ok == ValidPath(path)
  {
    if path == [] || path[0] == SLASH || path[|path| - 1] == SLASH {
      BadEnds(path);
      return false;
    }
    var start, index := 0, 0;
    while index < |path|
      invariant Scanned(path, start, index)
    {
      if path[index] == SLASH {
        assert Component(path, start, index);
        if !GoodComponent(path[start..index]) {
          return false;
        }
        EndComponent(path, start, index);
        start := index + 1;
      } else if !NameByte(path[index]) {
        return false;
      }
      index := index + 1;
    }
    assert Component(path, start, |path|);
    LastComponent(path, start);
    ok := GoodComponent(path[start..]);
    assert path[start..] == path[start..|path|];
  }

  lemma BadEnds(path: seq<Byte>)
    requires path == [] || path[0] == SLASH || path[|path| - 1] == SLASH
    ensures !ValidPath(path)
  {
    if path == [] || path[0] == SLASH {
      assert Component(path, 0, 0) && !GoodComponent(path[0..0]);
    } else {
      assert Component(path, |path|, |path|) && !GoodComponent(path[|path|..|path|]);
    }
  }

  /** A component that ends at a slash within the scanned part is the one being scanned, or an earlier one. */
  lemma EndComponent(path: seq<Byte>, start: nat, index: nat)
    requires Scanned(path, start, index) && index < |path| && path[index] == SLASH && GoodComponent(path[start..index])
    ensures forall s, e :: 0 <= s <= e < index + 1 && Component(path, s, e) ==> GoodComponent(path[s..e])
  {
    forall s, e | 0 <= s <= e < index + 1 && Component(path, s, e) ensures GoodComponent(path[s..e]) {
      if e >= start { SameStart(path, start, s, e, index); }
    }
  }

  lemma SameStart(path: seq<Byte>, start: nat, s: nat, e: nat, index: nat)
    requires Scanned(path, start, index) && s <= e && start <= e <= index && Component(path, s, e)
    ensures s == start && e == index
  {
  }

  lemma LastComponent(path: seq<Byte>, start: nat)
    requires Scanned(path, start, |path|)
    ensures ValidPath(path) <==> GoodComponent(path[start..|path|])
  {
    assert Component(path, start, |path|);
    if GoodComponent(path[start..|path|]) {
      forall s, e | 0 <= s <= e <= |path| && Component(path, s, e) ensures GoodComponent(path[s..e]) {
        if e >= start { SameStart(path, start, s, e, |path|); }
      }
    }
  }

  /** Checks that all thirteen header fields are hexadecimal numbers. */
  method CheckFields(bytes: seq<Byte>, offset: nat) returns (ok: bool)
    requires offset + HEADER_SIZE <= |bytes|
    ensures ok == FieldsOk(bytes, offset)
  {
    var k := 0;
    while k < FIELDS
      invariant 0 <= k <= FIELDS
      invariant forall i :: 0 <= i < k ==> HexValue(Field(bytes, offset, i)).Some?
    {
      var value := ParseHexField(Field(bytes, offset, k));
      if value.None? {
        return false;
      }
      k := k + 1;
    }
    ok := true;
  }

  /** Name and data after a header that ends at `start`. */
  method ParseAfterHeader(bytes: seq<Byte>, start: nat, mode: nat, size: nat, nameSize: nat, check: nat) returns (r: Result<Parsed, ArchiveError>)
    ensures r == ParseBody(bytes, start, mode, size, nameSize, check)
  {
    if check != 0 {
      return Err(ChecksumUnsupported);
    }
    if nameSize == 0 {
      return Err(InvalidNameSize);
    }
    if nameSize > MAX_PATH + 1 {
      return Err(NameTooLong);
    }
    if start + nameSize > |bytes| {
      return Err(EntryOutsideArchive);
    }
    if bytes[start + nameSize - 1] != 0 {
      return Err(NameMissingTerminator);
    }
    var name := bytes[start..start + nameSize - 1];
    var from := Align4(start + nameSize);
    if from + size > |bytes| || Align4(from + size) > |bytes| {
      return Err(EntryOutsideArchive);
    }
    if name == TRAILER {
      return if size != 0 then Err(InvalidTrailer) else Ok(Parsed(name, bytes[from..from + size], mode, Align4(from + size), true));
    }
    var valid := IsValidPath(name);
    r := if valid then Ok(Parsed(name, bytes[from..from + size], mode, Align4(from + size), false)) else Err(InvalidPath);
  }

  method ParseEntryAt(bytes: seq<Byte>, offset: nat) returns (r: Result<Parsed, ArchiveError>)
    ensures r == ParseEntry(bytes, offset)
  {
    if offset + HEADER_SIZE > |bytes| {
      return Err(TruncatedHeader);
    }
    if bytes[offset..offset + 6] != MAGIC {
      return Err(InvalidMagic);
    }
    var good := CheckFields(bytes, offset);
    if !good {
      return Err(InvalidHexField);
    }
    var mode := ParseHexField(Field(bytes, offset, MODE_FIELD));
    var size := ParseHexField(Field(bytes, offset, SIZE_FIELD));
    var nameSize := ParseHexField(Field(bytes, offset, NAME_FIELD));
    var check := ParseHexField(Field(bytes, offset, CHECK_FIELD));
    r := ParseAfterHeader(bytes, offset + HEADER_SIZE, mode.value, size.value, nameSize.value, check.value);
  }

  /** The loop over entries, up to the trailer. */
  method ParseEntries(bytes: seq<Byte>) returns (r: Result<(Index, nat), ArchiveError>)
    ensures r == ParseFrom(bytes, 0, EMPTY_INDEX)
  {
    var offset, index := 0, EMPTY_INDEX;
    while offset < |bytes|
      invariant offset <= |bytes| && ParseFrom(bytes, 0, EMPTY_INDEX) == ParseFrom(bytes, offset, index)
      decreases |bytes| - offset
    {
      var parsed := ParseEntryAt(bytes, offset);
      if parsed.Err? {
        return Err(parsed.error);
      }
      var p := parsed.value;
      if p.trailer {
        return Ok((index, p.next));
      }
      if |index.entries| >= MAX_ENTRIES {
        return Err(TooManyEntries);
      }
      if p.name == INIT_PATH && !IsRegular(p.mode) {
        return Err(InitNotRegular);
      }
      index := AddInfo(index, p);
      offset := p.next;
    }
    r := Err(MissingTrailer);
  }

  method AllZero(bytes: seq<Byte>, from: nat) returns (ok: bool)
    ensures ok <==> forall k :: from <= k < |bytes| ==> bytes[k] == 0
  {
    var k := from;
    while k < |bytes|
      invariant from <= k && forall i :: from <= i < k && i < |bytes| ==> bytes[i] == 0
    {
      if bytes[k] != 0 {
        return false;
      }
      k := k + 1;
    }
    ok := true;
  }

  method Parse(bytes: seq<Byte>) returns (r: Result<Index, ArchiveError>)
    ensures r == ParseArchive(bytes)
  {
    var parsed := ParseEntries(bytes);
    if parsed.Err? {
      return Err(parsed.error);
    }
    var (index, end) := parsed.value;
    var clean := AllZero(bytes, end);
    if !clean {
      return Err(TrailingGarbage);
    }
    r := if index.init.None? then Err(MissingInit) else Ok(index);
  }

  method Lookup(bytes: seq<Byte>, path: seq<Byte>) returns (r: Option<File>)
    ensures r == Find(bytes, path)
  {
    var relative := if path != [] && path[0] == SLASH then path[1..] else path;
    var valid := IsValidPath(relative);
    if !valid {
      return None;
    }
    var offset := 0;
    while offset < |bytes|
      invariant 0 <= offset <= |bytes| && FindFrom(bytes, 0, relative) == FindFrom(bytes, offset, relative)
    {
      var parsed := ParseEntryAt(bytes, offset);
      if parsed.Err? || parsed.value.trailer {
        return None;
      }
      if parsed.value.name == relative {
        return Some(File(parsed.value.name, parsed.value.data, parsed.value.mode));
      }
      offset := parsed.value.next;
    }
    r := None;
  }

  // ---- writing

  class ArchiveWriter {
    var bytes: seq<Byte>

    constructor ()
      ensures bytes == []
    {
      bytes := [];
    }

    method PadToFour()
      modifies this
      ensures bytes == Padded(old(bytes))
    {
      ghost var n := 0;
      while |bytes| % 4 != 0
        invariant 0 <= n <= |Padding(|old(bytes)|)| && bytes == old(bytes) + Padding(|old(bytes)|)[..n]
        decreases |Padding(|old(bytes)|)| - n
      {
        PaddingNeeded(|old(bytes)|, n);
        bytes := bytes + [0];
        n := n + 1;
      }
      PaddingDone(|old(bytes)|, n);
    }

    method AppendEntry(e: Entry)
      modifies this
      ensures bytes == Append(HexField(), old(bytes), e)
    {
      bytes := bytes + MAGIC + FieldBytes(HexField(), Fields(e)) + e.name + [0];
      PadToFour();
      bytes := bytes + e.data;
      PadToFour();
    }

    /** The archive the build tool writes: a directory, the init program and the trailer. */
    method BuildInitramfs(init: seq<Byte>)
      requires bytes == []
      modifies this
      ensures bytes == Archive(HexField(), ShippedEntries(init))
    {
      var directory, program := Entry(1, [0x62, 0x69, 0x6e], 0x41ed, 2, []), Entry(2, INIT_PATH, 0x81ed, 1, init);
      AppendEntry(directory);
      AppendEntry(program);
      AppendEntry(TrailerEntry(3));
      TwoEntries(HexField(), directory, program);
    }
  }

  lemma PaddingNeeded(length: nat, n: nat)
    requires n <= |Padding(length)| && (length + n) % 4 != 0
    ensures n < |Padding(length)| && Padding(length)[..n] + [0] == Padding(length)[..n + 1]
  {
  }

  lemma PaddingDone(length: nat, n: nat)
    requires n <= |Padding(length)| && (length + n) % 4 == 0
    ensures Padding(length)[..n] == Padding(length)
  {
  }

  lemma TwoEntries(write: nat -> seq<Byte>, a: Entry, b: Entry)
    ensures Archive(write, [a, b]) == Append(write, Append(write, Append(write, [], a), b), TrailerEntry(3))
  {
    assert [a, b][..1] == [a] && [a][..0] == [];
    assert AppendAll(write, [a]) == Append(write, [], a);
  }
}
