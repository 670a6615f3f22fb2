/** The "new ASCII" CPIO format: the archive writer of the build tool and the parser of the kernel. */
module CpioModel {
  import opened Common

  const MAGIC: seq<Byte> := [0x30, 0x37, 0x30, 0x37, 0x30, 0x31]
  const TRAILER: seq<Byte> := [0x54, 0x52, 0x41, 0x49, 0x4c, 0x45, 0x52, 0x21, 0x21, 0x21]
  const INIT_PATH: seq<Byte> := [0x62, 0x69, 0x6e, 0x2f, 0x69, 0x6e, 0x69, 0x74]
  const HEADER_SIZE: nat := 110
  const FIELDS: nat := 13
  const MODE_FIELD: nat := 1
  const SIZE_FIELD: nat := 6
  const NAME_FIELD: nat := 11
  const CHECK_FIELD: nat := 12
  const MAX_ENTRIES: nat := 32
  const MAX_PATH: nat := 96
  const U32_LIMIT: nat := 0x1_0000_0000
  const SLASH: Byte := 0x2f
  const DOT: Byte := 0x2e

  // ---- hexadecimal fields

  function HexDigit(d: nat): Byte
    requires d < 16
  {
    if d < 10 then 0x30 + d else 0x61 + (d - 10)
  }

  /** The `k` lowest hexadecimal digits of `n`, most significant first. */
  function Hex(n: nat, k: nat): (s: seq<Byte>)
    ensures |s| == k
  {
    if k == 0 then [] else Hex(n / 16, k - 1) + [HexDigit(n % 16)]
  }

  function DigitValue(b: Byte): Option<nat>
  {
    if 0x30 <= b <= 0x39 then Some(b - 0x30)
    else if 0x61 <= b <= 0x66 then Some(b - 0x61 + 10)
    else if 0x41 <= b <= 0x46 then Some(b - 0x41 + 10)
    else None
  }

  /** The value of the digits read so far; None on a bad digit or beyond 32 bits. */
  function HexValue(s: seq<Byte>): Option<nat>
  {
    if s == [] then Some(0)
    else
      match HexValue(s[..|s| - 1])
      case None => None
      case Some(v) =>
        match DigitValue(s[|s| - 1])
        case None => None
        case Some(d) => if v * 16 + d < U32_LIMIT then Some(v * 16 + d) else None
  }

  // ---- writing

  datatype Entry = Entry(inode: nat, name: seq<Byte>, mode: nat, links: nat, data: seq<Byte>)

  function Fields(e: Entry): seq<nat>
  {
    [e.inode, e.mode, 0, 0, e.links, 0, |e.data|, 0, 0, 0, 0, |e.name| + 1, 0]
  }

  /** How one header field is written: eight lower-case hexadecimal digits. */
  function HexField(): nat -> seq<Byte> { (n: nat) => Hex(n, 8) }

  function FieldBytes(write: nat -> seq<Byte>, fields: seq<nat>): seq<Byte>
  {
    if fields == [] then [] else FieldBytes(write, fields[..|fields| - 1]) + write(fields[|fields| - 1])
  }

  function Padding(n: nat): (s: seq<Byte>)
    ensures |s| < 4 && (n + |s|) % 4 == 0 && forall i :: 0 <= i < |s| ==> s[i] == 0
  {
    seq((4 - n % 4) % 4, _ => 0)
  }

  function Padded(s: seq<Byte>): seq<Byte> { s + Padding(|s|) }

  function Append(write: nat -> seq<Byte>, archive: seq<Byte>, e: Entry): seq<Byte>
  {
    Padded(Padded(archive + MAGIC + FieldBytes(write, Fields(e)) + e.name + [0]) + e.data)
  }

  function AppendAll(write: nat -> seq<Byte>, entries: seq<Entry>): seq<Byte>
  {
    if entries == [] then [] else Append(write, AppendAll(write, entries[..|entries| - 1]), entries[|entries| - 1])
  }

  function TrailerEntry(inode: nat): Entry { Entry(inode, TRAILER, 0, 1, []) }

  /** An archive of `entries`, closed by the trailer. */
  function Archive(write: nat -> seq<Byte>, entries: seq<Entry>): seq<Byte>
  {
    Append(write, AppendAll(write, entries), TrailerEntry(|entries| + 1))
  }

  // ---- paths

  predicate NameByte(b: Byte)
  {
    0x30 <= b <= 0x39 || 0x41 <= b <= 0x5a || 0x61 <= b <= 0x7a || b == DOT || b == 0x5f || b == 0x2d
  }

  /** `path[s..e]` is one component between slashes. */
  predicate Component(path: seq<Byte>, s: int, e: int)
  {
    && 0 <= s <= e <= |path| && (s == 0 || path[s - 1] == SLASH) && (e == |path| || path[e] == SLASH)
    && (forall k :: s <= k < e ==> path[k] != SLASH)
  }

  predicate GoodComponent(c: seq<Byte>) { c != [] && c != [DOT] && c != [DOT, DOT] }

  /** Relative, made of plain components, never empty, "." or "..". */
  predicate ValidPath(path: seq<Byte>)
  {
    && (forall k :: 0 <= k < |path| ==> path[k] == SLASH || NameByte(path[k]))
    && (forall s, e :: 0 <= s <= e <= |path| && Component(path, s, e) ==> GoodComponent(path[s..e]))
  }

  // ---- parsing

  datatype ArchiveError =
    | TruncatedHeader | InvalidMagic | InvalidHexField | InvalidNameSize | NameTooLong | NameMissingTerminator
    | InvalidPath | EntryOutsideArchive | ChecksumUnsupported | MissingTrailer | InvalidTrailer | TrailingGarbage
    | TooManyEntries | MissingInit | InitNotRegular

  datatype Parsed = Parsed(name: seq<Byte>, data: seq<Byte>, mode: nat, next: nat, trailer: bool)

  function Align4(n: nat): (r: nat)
    ensures n <= r < n + 4 && r % 4 == 0
  {
    n + (4 - n % 4) % 4
  }

  /** Field `k` of the header at `offset`. */
  function Field(bytes: seq<Byte>, offset: nat, k: nat): seq<Byte>
    requires offset + HEADER_SIZE <= |bytes| && k < FIELDS
  {
    bytes[offset + 6..offset + HEADER_SIZE][8 * k..8 * k + 8]
  }

  predicate FieldsOk(bytes: seq<Byte>, offset: nat)
    requires offset + HEADER_SIZE <= |bytes|
  {
    forall k :: 0 <= k < FIELDS ==> HexValue(Field(bytes, offset, k)).Some?
  }

  function ParseEntry(bytes: seq<Byte>, offset: nat): (r: Result<Parsed, ArchiveError>)
    ensures r.Ok? ==> offset < r.value.next <= |bytes|
  {
    if offset + HEADER_SIZE > |bytes| then Err(TruncatedHeader)
    else if bytes[offset..offset + 6] != MAGIC then Err(InvalidMagic)
    else if !FieldsOk(bytes, offset) then Err(InvalidHexField)
    else
      ParseBody(bytes, offset + HEADER_SIZE, HexValue(Field(bytes, offset, MODE_FIELD)).value,
                HexValue(Field(bytes, offset, SIZE_FIELD)).value, HexValue(Field(bytes, offset, NAME_FIELD)).value,
                HexValue(Field(bytes, offset, CHECK_FIELD)).value)
  }

  /** Name and data after a header that ends at `start`. */
  function ParseBody(bytes: seq<Byte>, start: nat, mode: nat, size: nat, nameSize: nat, check: nat): (r: Result<Parsed, ArchiveError>)
    ensures r.Ok? ==> start < r.value.next <= |bytes|
  {
    if check != 0 then Err(ChecksumUnsupported)
    else if nameSize == 0 then Err(InvalidNameSize)
    else if nameSize > MAX_PATH + 1 then Err(NameTooLong)
    else if start + nameSize > |bytes| then Err(EntryOutsideArchive)
    else if bytes[start + nameSize - 1] != 0 then Err(NameMissingTerminator)
    else
      var name := bytes[start..start + nameSize - 1];
      var from := Align4(start + nameSize);
      if from + size > |bytes| || Align4(from + size) > |bytes| then Err(EntryOutsideArchive)
      else if name == TRAILER && size != 0 then Err(InvalidTrailer)
      else if name != TRAILER && !ValidPath(name) then Err(InvalidPath)
      else Ok(Parsed(name, bytes[from..from + size], mode, Align4(from + size), name == TRAILER))
  }

  // ---- the whole archive

  datatype Info = Info(path: seq<Byte>, size: nat, mode: nat, regular: bool, directory: bool)

  function FileType(mode: nat): nat { mode / 0x1000 % 16 * 0x1000 }

  predicate IsRegular(mode: nat) { FileType(mode) == 0x8000 }

  predicate IsDirectory(mode: nat) { FileType(mode) == 0x4000 }

  datatype Index = Index(entries: seq<Info>, regular: nat, directories: nat, totalBytes: nat, init: Option<nat>)

  const EMPTY_INDEX := Index([], 0, 0, 0, None)

  function AddInfo(index: Index, p: Parsed): Index
  {
    Index(index.entries + [Info(p.name, |p.data|, p.mode, IsRegular(p.mode), IsDirectory(p.mode))],
          index.regular + (if IsRegular(p.mode) then 1 else 0),
          index.directories + (if IsDirectory(p.mode) then 1 else 0),
          index.totalBytes + (if IsRegular(p.mode) then |p.data| else 0),
          if p.name == INIT_PATH then Some(|p.data|) else index.init)
  }

  /** The loop over entries, from `offset` on: the index and the offset after the trailer. */
  function ParseFrom(bytes: seq<Byte>, offset: nat, index: Index): Result<(Index, nat), ArchiveError>
    decreases |bytes| - offset
  {
    if offset >= |bytes| then Err(MissingTrailer)
    else
      match ParseEntry(bytes, offset)
      case Err(e) => Err(e)
      case Ok(p) =>
        if p.trailer then Ok((index, p.next))
        else if |index.entries| >= MAX_ENTRIES then Err(TooManyEntries)
        else if p.name == INIT_PATH && !IsRegular(p.mode) then Err(InitNotRegular)
        else ParseFrom(bytes, p.next, AddInfo(index, p))
  }

  function ParseArchive(bytes: seq<Byte>): Result<Index, ArchiveError>
  {
    match ParseFrom(bytes, 0, EMPTY_INDEX)
    case Err(e) => Err(e)
    case Ok((index, end)) =>
      if exists k :: end <= k < |bytes| && bytes[k] != 0 then Err(TrailingGarbage)
      else if index.init.None? then Err(MissingInit)
      else Ok(index)
  }

  // ---- lookup

  datatype File = File(path: seq<Byte>, data: seq<Byte>, mode: nat)

  function FindFrom(bytes: seq<Byte>, offset: nat, name: seq<Byte>): Option<File>
    decreases |bytes| - offset
  {
    if offset >= |bytes| then None
    else
      match ParseEntry(bytes, offset)
      case Err(_) => None
      case Ok(p) =>
        if p.trailer then None
        else if p.name == name then Some(File(p.name, p.data, p.mode))
        else FindFrom(bytes, p.next, name)
  }

  function Normalized(path: seq<Byte>): Option<seq<Byte>>
  {
    var relative := if path != [] && path[0] == SLASH then path[1..] else path;
    if ValidPath(relative) then Some(relative) else None
  }

  function Find(bytes: seq<Byte>, path: seq<Byte>): Option<File>
  {
    match Normalized(path) case None => None case Some(name) => FindFrom(bytes, 0, name)
  }
}
