/** What the kernel may rely on for any archive it accepts, however the bytes came about. */
module CpioAccepted {
  import opened Common
  import opened CpioModel
  import opened CpioLaws

  /** The entries before the trailer, or before the first bad one. */
  function Listing(bytes: seq<Byte>, offset: nat): seq<Parsed>
    decreases |bytes| - offset
  {
    if offset >= |bytes| then []
    else
      match ParseEntry(bytes, offset)
      case Err(_) => []
      case Ok(p) => if p.trailer then [] else [p] + Listing(bytes, p.next)
  }

  function InfoFor(p: Parsed): Info { Info(p.name, |p.data|, p.mode, IsRegular(p.mode), IsDirectory(p.mode)) }

  predicate Named(ps: seq<Parsed>, name: seq<Byte>, i: int) { 0 <= i < |ps| && ps[i].name == name }

  /** `i` is the first, `j` the last position of that name. */
  predicate FirstAt(ps: seq<Parsed>, name: seq<Byte>, i: int) { Named(ps, name, i) && forall k :: 0 <= k < i ==> !Named(ps, name, k) }

  predicate LastAt(ps: seq<Parsed>, name: seq<Byte>, j: int) { Named(ps, name, j) && forall k :: j < k < |ps| ==> !Named(ps, name, k) }

  lemma ListingStep(bytes: seq<Byte>, offset: nat, p: Parsed)
    requires offset < |bytes| && ParseEntry(bytes, offset) == Ok(p) && !p.trailer
    ensures Listing(bytes, offset) == [p] + Listing(bytes, p.next)
  {
  }

  // ---- lookup

  /** On any bytes, looking up a name finds the first listed entry of that name, and fails only if there is none. */
  lemma {:induction false} FindFromListing(bytes: seq<Byte>, offset: nat, name: seq<Byte>)
    ensures var ps := Listing(bytes, offset);
            match FindFrom(bytes, offset, name)
            case None => forall k :: 0 <= k < |ps| ==> ps[k].name != name
            case Some(f) => exists i :: FirstAt(ps, name, i) && f == File(name, ps[i].data, ps[i].mode)
    decreases |bytes| - offset
  {
    if offset < |bytes| && ParseEntry(bytes, offset).Ok? && !ParseEntry(bytes, offset).value.trailer {
      var p := ParseEntry(bytes, offset).value;
      ListingStep(bytes, offset, p);
      var (ps, rest) := (Listing(bytes, offset), Listing(bytes, p.next));
      assert forall k :: 1 <= k < |ps| ==> ps[k] == rest[k - 1];
      if p.name == name {
        assert FirstAt(ps, name, 0);
      } else {
        FindFromListing(bytes, p.next, name);
        if FindFrom(bytes, p.next, name).Some? {
          var i :| FirstAt(rest, name, i) && FindFrom(bytes, p.next, name).value == File(name, rest[i].data, rest[i].mode);
          FirstLater(ps, rest, name, i);
        }
      }
    }
  }

  lemma FirstLater(ps: seq<Parsed>, rest: seq<Parsed>, name: seq<Byte>, i: int)
    requires ps != [] && ps[1..] == rest && ps[0].name != name && FirstAt(rest, name, i)
    ensures FirstAt(ps, name, i + 1) && ps[i + 1] == rest[i]
  {
    forall k | 0 <= k < i + 1 ensures !Named(ps, name, k) { assert k > 0 ==> ps[k] == rest[k - 1] && !Named(rest, name, k - 1); }
  }

  // ---- the index

  /** What an index says about a listing that was added to it. */
  ghost predicate Indexed(index: Index, ps: seq<Parsed>, r: Index)
  {
    && |r.entries| == |index.entries| + |ps| <= MAX_ENTRIES
    && r.entries[..|index.entries|] == index.entries
    && (forall k :: 0 <= k < |ps| ==> r.entries[|index.entries| + k] == InfoFor(ps[k]))
    && (forall k :: Named(ps, INIT_PATH, k) ==> IsRegular(ps[k].mode))
    && (if exists j :: Named(ps, INIT_PATH, j) then exists j :: LastAt(ps, INIT_PATH, j) && r.init == Some(|ps[j].data|) else r.init == index.init)
  }

  lemma {:induction false} ParseFromListing(bytes: seq<Byte>, offset: nat, index: Index)
    requires ParseFrom(bytes, offset, index).Ok? && |index.entries| <= MAX_ENTRIES
    ensures Indexed(index, Listing(bytes, offset), ParseFrom(bytes, offset, index).value.0)
    decreases |bytes| - offset
  {
    var p := ParseEntry(bytes, offset).value;
    if p.trailer {
      assert Listing(bytes, offset) == [];
    } else {
      ListingStep(bytes, offset, p);
      ParseFromStep(bytes, offset, index, p);
      ParseFromListing(bytes, p.next, AddInfo(index, p));
      IndexedMore(index, p, Listing(bytes, p.next), ParseFrom(bytes, p.next, AddInfo(index, p)).value.0);
    }
  }

  lemma IndexedMore(index: Index, p: Parsed, rest: seq<Parsed>, r: Index)
    requires Indexed(AddInfo(index, p), rest, r) && (p.name == INIT_PATH ==> IsRegular(p.mode))
    ensures Indexed(index, [p] + rest, r)
  {
    var (ps, next) := ([p] + rest, AddInfo(index, p));
    assert forall k :: 1 <= k < |ps| ==> ps[k] == rest[k - 1];
    assert r.entries[..|index.entries|] == r.entries[..|next.entries|][..|index.entries|];
    assert r.entries[|index.entries|] == r.entries[..|next.entries|][|index.entries|] == InfoFor(p);
    forall k | 0 <= k < |ps| ensures r.entries[|index.entries| + k] == InfoFor(ps[k]) {
      if k > 0 { assert r.entries[|next.entries| + (k - 1)] == InfoFor(rest[k - 1]); }
    }
    forall k | Named(ps, INIT_PATH, k) ensures IsRegular(ps[k].mode) { assert k > 0 ==> Named(rest, INIT_PATH, k - 1); }
    LastMore(p, rest, r.init, index.init);
  }

  lemma LastMore(p: Parsed, rest: seq<Parsed>, init: Option<nat>, before: Option<nat>)
    requires if exists j :: Named(rest, INIT_PATH, j) then exists j :: LastAt(rest, INIT_PATH, j) && init == Some(|rest[j].data|)
             else init == if p.name == INIT_PATH then Some(|p.data|) else before
    ensures var ps := [p] + rest;
            if exists j :: Named(ps, INIT_PATH, j) then exists j :: LastAt(ps, INIT_PATH, j) && init == Some(|ps[j].data|) else init == before
  {
    var ps := [p] + rest;
    forall k | Named(ps, INIT_PATH, k) ensures k == 0 || Named(rest, INIT_PATH, k - 1) {}
    if exists j :: Named(rest, INIT_PATH, j) {
      var j :| LastAt(rest, INIT_PATH, j) && init == Some(|rest[j].data|);
      assert Named(ps, INIT_PATH, j + 1);
      assert LastAt(ps, INIT_PATH, j + 1);
    } else if p.name == INIT_PATH {
      assert LastAt(ps, INIT_PATH, 0);
    }
  }

  // ---- accepted archives

  /** The name under which the kernel looks for its first program. */
  lemma InitPathValid()
    ensures Normalized([SLASH] + INIT_PATH) == Some(INIT_PATH)
  {
    var path := [SLASH] + INIT_PATH;
    NestedPath([0x62, 0x69, 0x6e], [0x69, 0x6e, 0x69, 0x74]);
    assert [0x62, 0x69, 0x6e] + [SLASH] + [0x69, 0x6e, 0x69, 0x74] == INIT_PATH;
    assert path[1..] == INIT_PATH;
  }

  /**
   Whatever bytes are accepted: the index lists exactly the entries, at most 32 of them, and looking
   up /bin/init finds a regular file. The size the index records for it is that of the last such
   entry, while the lookup returns the first one: the two agree exactly if those have the same size.
   */
  lemma AcceptedArchive(bytes: seq<Byte>) returns (first: nat, last: nat)
    requires ParseArchive(bytes).Ok?
    ensures var (ps, index) := (Listing(bytes, 0), ParseArchive(bytes).value);
            && |index.entries| == |ps| <= MAX_ENTRIES && (forall k :: 0 <= k < |ps| ==> index.entries[k] == InfoFor(ps[k]))
            && FirstAt(ps, INIT_PATH, first) && LastAt(ps, INIT_PATH, last) && IsRegular(ps[first].mode)
            && Find(bytes, [SLASH] + INIT_PATH) == Some(File(INIT_PATH, ps[first].data, ps[first].mode))
            && index.init == Some(|ps[last].data|)
            && (index.init == Some(|Find(bytes, [SLASH] + INIT_PATH).value.data|) <==> |ps[first].data| == |ps[last].data|)
  {
    AcceptedIndex(bytes);
    var (ps, index) := (Listing(bytes, 0), ParseArchive(bytes).value);
    last := LastInit(ps, index);
    first := FirstInit(bytes, ps, last);
  }

  lemma AcceptedIndex(bytes: seq<Byte>)
    requires ParseArchive(bytes).Ok?
    ensures Indexed(EMPTY_INDEX, Listing(bytes, 0), ParseArchive(bytes).value) && ParseArchive(bytes).value.init.Some?
  {
    ParseFromListing(bytes, 0, EMPTY_INDEX);
  }

  lemma LastInit(ps: seq<Parsed>, index: Index) returns (last: nat)
    requires Indexed(EMPTY_INDEX, ps, index) && index.init.Some?
    ensures LastAt(ps, INIT_PATH, last) && index.init == Some(|ps[last].data|)
  {
    var j :| LastAt(ps, INIT_PATH, j) && index.init == Some(|ps[j].data|);
    last := j;
  }

  lemma FirstInit(bytes: seq<Byte>, ps: seq<Parsed>, last: nat) returns (first: nat)
    requires ps == Listing(bytes, 0) && Named(ps, INIT_PATH, last)
    ensures FirstAt(ps, INIT_PATH, first)
    ensures Find(bytes, [SLASH] + INIT_PATH) == Some(File(INIT_PATH, ps[first].data, ps[first].mode))
  {
    InitPathValid();
    FindFromListing(bytes, 0, INIT_PATH);
    var f := FindFrom(bytes, 0, INIT_PATH).value;
    var i :| FirstAt(ps, INIT_PATH, i) && f == File(INIT_PATH, ps[i].data, ps[i].mode);
    first := i;
  }

  /** They need not agree: an archive with an empty and a one-byte bin/init is accepted. */
  lemma TwoInits() returns (bytes: seq<Byte>)
    ensures ParseArchive(bytes).Ok? && ParseArchive(bytes).value.init == Some(1)
    ensures Find(bytes, [SLASH] + INIT_PATH) == Some(File(INIT_PATH, [], 0x81ed))
  {
    var entries := [Entry(1, INIT_PATH, 0x81ed, 1, []), Entry(2, INIT_PATH, 0x81ed, 1, [0])];
    InitPathValid();
    assert entries[0].name == INIT_PATH;
    assert Listable(entries[0]) && Listable(entries[1]);
    RoundTrip(entries);
    FindBack(entries, [SLASH] + INIT_PATH);
    bytes := Archive(HexField(), entries);
    var i, j := AcceptedArchive(bytes);
    var (ps, index) := (Listing(bytes, 0), ParseArchive(bytes).value);
    assert index.entries[1] == InfoOf(entries[1]) == InfoFor(ps[1]);
    assert Named(ps, INIT_PATH, 1);
  }
}
