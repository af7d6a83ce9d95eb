/** The SDC_* flag bits of the Win32 `SetDisplayConfig` call, with the values
    wingdi.h gives them, and the correspondence between a 32-bit flag word and
    the set of flags it holds. */
module SdcFlags {

  /** The SDC_* constants the request encoder can emit. */
  datatype Flag =
    | TopologyInternal
    | TopologyClone
    | TopologyExtend
    | TopologyExternal
    | TopologySupplied
    | UseSuppliedDisplayConfig
    | Validate
    | Apply
    | NoOptimization
    | SaveToDatabase
    | AllowChanges
    | PathPersistIfRequired
    | ForceModeEnumeration
    | AllowPathOrderChanges

  /** The value wingdi.h assigns to each flag. */
  function Bit(f: Flag): bv32
  {
    match f
    case TopologyInternal => 0x0000_0001
    case TopologyClone => 0x0000_0002
    case TopologyExtend => 0x0000_0004
    case TopologyExternal => 0x0000_0008
    case TopologySupplied => 0x0000_0010
    case UseSuppliedDisplayConfig => 0x0000_0020
    case Validate => 0x0000_0040
    case Apply => 0x0000_0080
    case NoOptimization => 0x0000_0100
    case SaveToDatabase => 0x0000_0200
    case AllowChanges => 0x0000_0400
    case PathPersistIfRequired => 0x0000_0800
    case ForceModeEnumeration => 0x0000_1000
    case AllowPathOrderChanges => 0x0000_2000
  }

  /** Distinct flags have distinct bits, so OR-ing flag values into a word
      behaves as adding flags to a set. */
  lemma BitsDisjoint(f: Flag, g: Flag)
    requires f != g
    ensures Bit(f) & Bit(g) == 0
  {
  }

  /** No flag uses a bit above the fourteen low ones. */
  lemma BitLow(f: Flag)
    ensures Bit(f) & 0xFFFF_C000 == 0
  {
  }

  /** The bit position of each flag in the word. */
  function Position(f: Flag): (i: nat)
    ensures i < 14
  {
    match f
    case TopologyInternal => 0
    case TopologyClone => 1
    case TopologyExtend => 2
    case TopologyExternal => 3
    case TopologySupplied => 4
    case UseSuppliedDisplayConfig => 5
    case Validate => 6
    case Apply => 7
    case NoOptimization => 8
    case SaveToDatabase => 9
    case AllowChanges => 10
    case PathPersistIfRequired => 11
    case ForceModeEnumeration => 12
    case AllowPathOrderChanges => 13
  }

  /** The flag at bit position `i`. */
  function FlagAt(i: nat): (f: Flag)
    requires i < 14
    ensures Position(f) == i
  {
    match i
    case 0 => TopologyInternal
    case 1 => TopologyClone
    case 2 => TopologyExtend
    case 3 => TopologyExternal
    case 4 => TopologySupplied
    case 5 => UseSuppliedDisplayConfig
    case 6 => Validate
    case 7 => Apply
    case 8 => NoOptimization
    case 9 => SaveToDatabase
    case 10 => AllowChanges
    case 11 => PathPersistIfRequired
    case 12 => ForceModeEnumeration
    case _ => AllowPathOrderChanges
  }

  /** What flag `f` contributes to the word for the set `fs`. */
  function Term(fs: set<Flag>, f: Flag): bv32
  {
    if f in fs then Bit(f) else 0
  }

  /** The word for the flags of `fs` at the `n` lowest bit positions. */
  function EncodeUpTo(fs: set<Flag>, n: nat): bv32
    requires n <= 14
  {
    if n == 0 then 0 else EncodeUpTo(fs, n - 1) | Term(fs, FlagAt(n - 1))
  }

  /** The 32-bit word the OS receives for a set of flags: the OR of the
      values of the flags it holds. */
  function Encode(fs: set<Flag>): bv32
  {
    EncodeUpTo(fs, 14)
  }

  /** Masking distributes over OR. */
  lemma MaskOr(x: bv32, y: bv32, m: bv32)
    ensures (x | y) & m == (x & m) | (y & m)
  {
  }

  /** If each of two words either holds all of mask `b` or none of it, their
      OR holds all of it exactly when one of them does. */
  lemma OrMaskStep(x: bv32, t: bv32, b: bv32, p: bool, q: bool)
    requires p ==> x & b == b
    requires !p ==> x & b == 0
    requires q ==> t & b == b
    requires !q ==> t & b == 0
    ensures p || q ==> (x | t) & b == b
    ensures !(p || q) ==> (x | t) & b == 0
  {
    MaskOr(x, t, b);
  }

  /** A flag's contribution carries the bit of `f` only when it is `f`'s own. */
  lemma TermMask(fs: set<Flag>, g: Flag, f: Flag)
    ensures Term(fs, g) & Bit(f) == if g == f && f in fs then Bit(f) else 0
  {
    if g != f {
      BitsDisjoint(g, f);
    }
  }

  /** The bit of `f` in a partial word is set exactly when `f` is in the set
      and among the positions already added. */
  lemma {:induction false} EncodeUpToMask(fs: set<Flag>, n: nat, f: Flag)
    requires n <= 14
    ensures EncodeUpTo(fs, n) & Bit(f) == if f in fs && Position(f) < n then Bit(f) else 0
  {
    if n > 0 {
      var g := FlagAt(n - 1);
      EncodeUpToMask(fs, n - 1, f);
      TermMask(fs, g, f);
      OrMaskStep(EncodeUpTo(fs, n - 1), Term(fs, g), Bit(f),
                 f in fs && Position(f) < n - 1, g == f && f in fs);
    }
  }

  /** A partial word never sets a bit above the fourteen low ones. */
  lemma {:induction false} EncodeUpToHigh(fs: set<Flag>, n: nat)
    requires n <= 14
    ensures EncodeUpTo(fs, n) & 0xFFFF_C000 == 0
  {
    if n > 0 {
      var g := FlagAt(n - 1);
      EncodeUpToHigh(fs, n - 1);
      BitLow(g);
      OrMaskStep(EncodeUpTo(fs, n - 1), Term(fs, g), 0xFFFF_C000, false, false);
    }
  }

  /** Reading a flag's bit back out of the word tells whether the set held it:
      the word and the set carry the same information. */
  lemma EncodeHas(fs: set<Flag>, f: Flag)
    ensures (Encode(fs) & Bit(f) != 0) <==> f in fs
  {
    EncodeUpToMask(fs, 14, f);
  }

  /** The layout of the word, bit by bit: each flag's bit is set exactly when
      the flag is in the set, and the eighteen high bits are clear. */
  lemma EncodeBits(fs: set<Flag>)
    ensures Encode(fs) & Bit(TopologyInternal) == if TopologyInternal in fs then Bit(TopologyInternal) else 0
    ensures Encode(fs) & Bit(TopologyClone) == if TopologyClone in fs then Bit(TopologyClone) else 0
    ensures Encode(fs) & Bit(TopologyExtend) == if TopologyExtend in fs then Bit(TopologyExtend) else 0
    ensures Encode(fs) & Bit(TopologyExternal) == if TopologyExternal in fs then Bit(TopologyExternal) else 0
    ensures Encode(fs) & Bit(TopologySupplied) == if TopologySupplied in fs then Bit(TopologySupplied) else 0
    ensures Encode(fs) & Bit(UseSuppliedDisplayConfig) == if UseSuppliedDisplayConfig in fs then Bit(UseSuppliedDisplayConfig) else 0
    ensures Encode(fs) & Bit(Validate) == if Validate in fs then Bit(Validate) else 0
    ensures Encode(fs) & Bit(Apply) == if Apply in fs then Bit(Apply) else 0
    ensures Encode(fs) & Bit(NoOptimization) == if NoOptimization in fs then Bit(NoOptimization) else 0
    ensures Encode(fs) & Bit(SaveToDatabase) == if SaveToDatabase in fs then Bit(SaveToDatabase) else 0
    ensures Encode(fs) & Bit(AllowChanges) == if AllowChanges in fs then Bit(AllowChanges) else 0
    ensures Encode(fs) & Bit(PathPersistIfRequired) == if PathPersistIfRequired in fs then Bit(PathPersistIfRequired) else 0
    ensures Encode(fs) & Bit(ForceModeEnumeration) == if ForceModeEnumeration in fs then Bit(ForceModeEnumeration) else 0
    ensures Encode(fs) & Bit(AllowPathOrderChanges) == if AllowPathOrderChanges in fs then Bit(AllowPathOrderChanges) else 0
    ensures Encode(fs) & 0xFFFF_C000 == 0
  {
    EncodeUpToMask(fs, 14, TopologyInternal);
    EncodeUpToMask(fs, 14, TopologyClone);
    EncodeUpToMask(fs, 14, TopologyExtend);
    EncodeUpToMask(fs, 14, TopologyExternal);
    EncodeUpToMask(fs, 14, TopologySupplied);
    EncodeUpToMask(fs, 14, UseSuppliedDisplayConfig);
    EncodeUpToMask(fs, 14, Validate);
    EncodeUpToMask(fs, 14, Apply);
    EncodeUpToMask(fs, 14, NoOptimization);
    EncodeUpToMask(fs, 14, SaveToDatabase);
    EncodeUpToMask(fs, 14, AllowChanges);
    EncodeUpToMask(fs, 14, PathPersistIfRequired);
    EncodeUpToMask(fs, 14, ForceModeEnumeration);
    EncodeUpToMask(fs, 14, AllowPathOrderChanges);
    EncodeUpToHigh(fs, 14);
  }
}
