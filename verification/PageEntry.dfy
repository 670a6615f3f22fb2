/** The 64-bit page-table entry: the words the kernel writes decode to the records of the model. */
module PageEntry {
  import opened PagingModel

  const PRESENT: bv64 := 0x1
  const WRITABLE: bv64 := 0x2
  const USER: bv64 := 0x4
  const HUGE: bv64 := 0x80
  const NO_EXECUTE: bv64 := 0x8000_0000_0000_0000
  const ADDR_MASK: bv64 := 0x000f_ffff_ffff_f000

  /** What the accessors of the kernel read from an entry word. */
  function Decode(word: bv64): Entry
  {
    Entry((word & ADDR_MASK) as nat, word & PRESENT != 0, word & WRITABLE != 0, word & USER != 0, word & HUGE != 0,
          word & NO_EXECUTE != 0)
  }

  /** The flag word of a mapping request. */
  function FlagWord(flags: Flags): bv64
  {
    PRESENT | (if flags.writable then WRITABLE else 0) | (if flags.user then USER else 0)
    | (if flags.noExecute then NO_EXECUTE else 0)
  }

  /** A frame address occupies only address bits. */
  predicate IsFrame(phys: bv64) { phys & ADDR_MASK == phys }

  /** Each flag of a request is its own bit, and no bit of it is an address bit. */
  lemma FlagBits(flags: Flags)
    ensures var f := FlagWord(flags);
            && f & ADDR_MASK == 0 && f & PRESENT != 0 && f & HUGE == 0
            && (f & WRITABLE != 0 <==> flags.writable) && (f & USER != 0 <==> flags.user)
            && (f & NO_EXECUTE != 0 <==> flags.noExecute)
  {
  }

  lemma OrAddress(word: bv64, f: bv64)
    requires f & ADDR_MASK == 0
    ensures (word | f) & ADDR_MASK == word & ADDR_MASK
  {
  }

  lemma OrBit(word: bv64, f: bv64, bit: bv64)
    ensures (word | f) & bit == (word & bit) | (f & bit)
  {
  }

  lemma FrameBits(phys: bv64)
    requires IsFrame(phys)
    ensures phys & PRESENT == 0 && phys & WRITABLE == 0 && phys & USER == 0 && phys & HUGE == 0 && phys & NO_EXECUTE == 0
  {
  }

  /** A word made of a frame and further bits decodes field by field. */
  lemma FrameWord(phys: bv64, f: bv64)
    requires IsFrame(phys) && f & ADDR_MASK == 0
    ensures Decode(phys | f) == Entry(phys as nat, f & PRESENT != 0, f & WRITABLE != 0, f & USER != 0, f & HUGE != 0, f & NO_EXECUTE != 0)
  {
    FrameBits(phys);
    OrAddress(phys, f);
    OrBit(phys, f, PRESENT);
    OrBit(phys, f, WRITABLE);
    OrBit(phys, f, USER);
    OrBit(phys, f, HUGE);
    OrBit(phys, f, NO_EXECUTE);
  }

  /** The entry written for a page. */
  lemma LeafWord(phys: bv64, flags: Flags)
    requires IsFrame(phys)
    ensures Decode(phys | FlagWord(flags)) == LeafEntry(phys as nat, flags)
  {
    FlagBits(flags);
    FrameWord(phys, FlagWord(flags));
  }

  /** The bits of a request that intermediate entries take over. */
  function OpenWord(flags: Flags): bv64 { FlagWord(flags) & (WRITABLE | USER) }

  predicate OpensFor(g: bv64, flags: Flags)
  {
    && g & ADDR_MASK == 0 && g & PRESENT == 0 && g & HUGE == 0 && g & NO_EXECUTE == 0
    && (g & WRITABLE != 0 <==> flags.writable) && (g & USER != 0 <==> flags.user)
  }

  lemma OpenBits(flags: Flags)
    ensures OpensFor(OpenWord(flags), flags)
  {
  }

  lemma EitherBit(word: bv64, g: bv64, bit: bv64)
    ensures (word | g) & bit != 0 <==> word & bit != 0 || g & bit != 0
  {
    OrBit(word, g, bit);
    OrZero(word & bit, g & bit);
  }

  lemma OrZero(a: bv64, b: bv64)
    ensures a | b != 0 <==> a != 0 || b != 0
  {
  }

  lemma WidenBits(word: bv64, g: bv64, flags: Flags)
    requires OpensFor(g, flags)
    ensures Decode(word | g) == Widen(Decode(word), flags)
  {
    OrAddress(word, g);
    EitherBit(word, g, PRESENT);
    EitherBit(word, g, WRITABLE);
    EitherBit(word, g, USER);
    EitherBit(word, g, HUGE);
    EitherBit(word, g, NO_EXECUTE);
  }

  /** An intermediate entry opened up for a request. */
  lemma WidenWord(word: bv64, flags: Flags)
    ensures Decode(word | OpenWord(flags)) == Widen(Decode(word), flags)
  {
    OpenBits(flags);
    WidenBits(word, OpenWord(flags), flags);
  }

  lemma LinkBits(g: bv64, flags: Flags)
    requires OpensFor(g, flags)
    ensures var h := PRESENT | g;
            && h & ADDR_MASK == 0 && h & PRESENT != 0 && h & HUGE == 0 && h & NO_EXECUTE == 0
            && (h & WRITABLE != 0 <==> flags.writable) && (h & USER != 0 <==> flags.user)
  {
  }

  /** The entry that links a new table. */
  lemma LinkWord(frame: bv64, flags: Flags)
    requires IsFrame(frame)
    ensures Decode(frame | (PRESENT | OpenWord(flags))) == Entry(frame as nat, true, flags.writable, flags.user, false, false)
  {
    OpenBits(flags);
    LinkBits(OpenWord(flags), flags);
    FrameWord(frame, PRESENT | OpenWord(flags));
  }

  lemma ZeroWord()
    ensures Decode(0) == NONE_ENTRY
  {
    assert (0 as bv64) & ADDR_MASK == 0;
  }
}
