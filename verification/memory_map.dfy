/**
 * Address decoding over a core's memory map (command_memory_get_descriptor
 * and command_memory_get_pointer).  Descriptor fields are size_t (64 bits
 * here) and the address is an unsigned int (32 bits); the arithmetic wraps
 * as in C and the narrowing casts are written out.  The bitwise steps work
 * on words of bits (module Words).
 */
module MemoryMap {
  import opened Wrappers
  import opened CStrings
  import opened Words

  const U64: nat := 0x1_0000_0000_0000_0000

  /** size_t */
  newtype Size = x: int | 0 <= x < U64

  /** unsigned int */
  newtype Unsigned = x: int | 0 <= x < U32

  /** RETRO_MEMDESC_CONST, bit 0 of a descriptor's flags in libretro.h. */
  const MemDescConst: bv64 := 1

  /** The fields of retro_memory_descriptor the lookup reads; `hasData` is `ptr != NULL`. */
  datatype Descriptor = Descriptor(
    flags: bv64, hasData: bool, offset: Size,
    start: Size, select: Size, disconnect: Size, len: Size)

  /**
   * The offset with every bit that is set in `mask` removed and the bits
   * above each removed one shifted down to fill the gap; zeros fill the top.
   */
  function Compact(x: Word, mask: Word): (r: Word)
    requires |x| == |mask|
    ensures |r| == |x|
  {
    if mask == [] then []
    else if mask[0] then Compact(x[1..], mask[1..]) + [false]
    else [x[0]] + Compact(x[1..], mask[1..])
  }

  /** As many top bits as the mask has set bits are clear in the result. */
  lemma {:induction false} CompactClearsTop(x: Word, mask: Word)
    requires |x| == |mask|
    ensures forall i :: |x| - Ones(mask) <= i < |x| ==> !Compact(x, mask)[i]
  {
    if mask != [] {
      CompactClearsTop(x[1..], mask[1..]);
      var c := Compact(x[1..], mask[1..]);
      if mask[0] {
        assert Compact(x, mask) == c + [false];
      } else {
        assert Compact(x, mask) == [x[0]] + c;
        forall i | |x| - Ones(mask) <= i < |x|
          ensures !Compact(x, mask)[i]
        {
          assert Compact(x, mask)[i] == c[i - 1];
        }
      }
    }
  }

  /** With no bit set in the mask nothing is removed. */
  lemma {:induction false} CompactUnmasked(x: Word, mask: Word)
    requires |x| == |mask| && true !in mask
    ensures Compact(x, mask) == x
  {
    if mask != [] {
      CompactUnmasked(x[1..], mask[1..]);
    }
  }

  /** The bits of the offset under the mask do not reach the result. */
  lemma {:induction false} CompactIgnoresMaskedBits(x: Word, mask: Word)
    requires |x| == |mask|
    ensures Compact(And(x, Not(mask)), mask) == Compact(x, mask)
  {
    if mask != [] {
      NotSplit(mask);
      AndSplit(x, Not(mask));
      CompactIgnoresMaskedBits(x[1..], mask[1..]);
    }
  }

  /** A clear top bit in both words stays clear on top of the result. */
  lemma {:induction false} CompactSnocZero(x: Word, mask: Word, b: bool)
    requires |x| == |mask|
    ensures Compact(x + [false], mask + [b]) == Compact(x, mask) + [false]
  {
    if mask == [] {
    } else {
      assert (x + [false])[1..] == x[1..] + [false];
      assert (mask + [b])[1..] == mask[1..] + [b];
      CompactSnocZero(x[1..], mask[1..], b);
    }
  }

  /** `tmp = (mask - 1) & ~mask`: ones below the lowest set bit of `mask`. */
  function BelowLowest(mask: Word): (r: Word)
    ensures |r| == |mask|
  {
    And(Dec(mask), Not(mask))
  }

  /** `(off & tmp) | ((off >> 1) & ~tmp)`: the bit at the lowest set bit of `mask` removed. */
  function StepOffset(off: Word, mask: Word): (r: Word)
    requires |off| == |mask|
    ensures |r| == |off|
  {
    Or(And(off, BelowLowest(mask)), And(Shr1(off), Not(BelowLowest(mask))))
  }

  /** `(mask & (mask - 1)) >> 1`: the lowest set bit cleared and the rest moved down with the offset. */
  function StepMask(mask: Word): (r: Word)
    ensures |r| == |mask|
  {
    Shr1(And(mask, Dec(mask)))
  }

  /** A set low bit: `tmp` is zero and the step is a plain shift of both words. */
  lemma OddStep(off: Word, mask: Word)
    requires |off| == |mask| && mask != [] && mask[0]
    ensures StepOffset(off, mask) == off[1..] + [false]
    ensures StepMask(mask) == mask[1..] + [false]
  {
    var t := BelowLowest(mask);
    DecSplit(mask);
    NotSplit(mask);
    AndSplit(Dec(mask), Not(mask));
    AndNotSelf(mask[1..]);
    assert t == [t[0]] + t[1..];
    BlendNone(off, Shr1(off), t);
    AndSplit(mask, Dec(mask));
    AndSelf(mask[1..]);
  }

  /** A clear low bit: `tmp` keeps that bit of the offset and the step works on the bits above it. */
  lemma EvenStepOffset(off: Word, mask: Word)
    requires |off| == |mask| && |mask| >= 2 && !mask[0]
    ensures StepOffset(off, mask)[0] == off[0]
    ensures StepOffset(off, mask)[1..] == StepOffset(off[1..], mask[1..])
  {
    var t := BelowLowest(mask);
    DecSplit(mask);
    NotSplit(mask);
    AndSplit(Dec(mask), Not(mask));
    assert t[0] && t[1..] == BelowLowest(mask[1..]);
    Shr1Split(off);
    NotSplit(t);
    AndSplit(off, t);
    AndSplit(Shr1(off), Not(t));
    OrSplit(And(off, t), And(Shr1(off), Not(t)));
  }

  /** A clear low bit: the step leaves it clear and works on the bits above it. */
  lemma EvenStepMask(mask: Word)
    requires |mask| >= 2 && !mask[0]
    ensures !StepMask(mask)[0]
    ensures StepMask(mask)[1..] == StepMask(mask[1..])
  {
    var a := And(mask, Dec(mask));
    DecSplit(mask);
    AndSplit(mask, Dec(mask));
    DecSplit(mask[1..]);
    AndSplit(mask[1..], Dec(mask[1..]));
    Shr1Split(a);
  }

  /** One pass of the disconnect loop leaves the compacted offset unchanged. */
  lemma {:induction false} StepKeepsCompact(off: Word, mask: Word)
    requires |off| == |mask| && true in mask
    ensures Compact(StepOffset(off, mask), StepMask(mask)) == Compact(off, mask)
    decreases |mask|, 1
  {
    if mask[0] {
      CompactStepOdd(off, mask);
    } else {
      CompactStepEven(off, mask);
    }
  }

  lemma CompactStepOdd(off: Word, mask: Word)
    requires |off| == |mask| && mask != [] && mask[0]
    ensures Compact(StepOffset(off, mask), StepMask(mask)) == Compact(off, mask)
  {
    OddStep(off, mask);
    CompactSnocZero(off[1..], mask[1..], false);
  }

  lemma {:induction false} CompactStepEven(off: Word, mask: Word)
    requires |off| == |mask| && mask != [] && !mask[0] && true in mask
    ensures Compact(StepOffset(off, mask), StepMask(mask)) == Compact(off, mask)
    decreases |mask|, 0
  {
    SetBitAbove(mask);
    EvenStepOffset(off, mask);
    EvenStepMask(mask);
    StepKeepsCompact(off[1..], mask[1..]);
  }

  /** A mask with a clear low bit and some set bit has a set bit above the low one. */
  lemma SetBitAbove(mask: Word)
    requires mask != [] && !mask[0] && true in mask
    ensures |mask| >= 2 && true in mask[1..]
  {
    var i :| 0 <= i < |mask| && mask[i];
    assert mask[1..][i - 1];
  }

  /** One pass of the disconnect loop clears exactly one bit of the mask. */
  lemma {:induction false} StepClearsOneBit(mask: Word)
    requires true in mask
    ensures Ones(StepMask(mask)) == Ones(mask) - 1
  {
    if mask[0] {
      OddStep(mask, mask);
      OnesSnocZero(mask[1..]);
    } else {
      SetBitAbove(mask);
      EvenStepMask(mask);
      StepClearsOneBit(mask[1..]);
    }
  }

  lemma {:induction false} OnesSnocZero(a: Word)
    ensures Ones(a + [false]) == Ones(a)
  {
    if a != [] {
      assert (a + [false])[1..] == a[1..] + [false];
      OnesSnocZero(a[1..]);
    }
  }

  /**
   * The disconnect loop of command_memory_get_descriptor, run on the
   * unsigned offset and the low bits of the disconnect mask.
   */
  method Reduce(offset: Word, disconnect: Word) returns (r: Word)
    requires |offset| == |disconnect|
    ensures r == Compact(offset, disconnect)
  {
    var off, mask := offset, disconnect;
    while true in mask
      invariant |off| == |mask| == |offset|
      invariant Compact(off, mask) == Compact(offset, disconnect)
      decreases Ones(mask)
    {
      StepKeepsCompact(off, mask);
      StepClearsOneBit(mask);
      var tmp := And(Dec(mask), Not(mask));
      off := Or(And(off, tmp), And(Shr1(off), Not(tmp)));
      mask := Shr1(And(mask, Dec(mask)));
    }
    CompactUnmasked(off, mask);
    return off;
  }

  /**
   * The offset of `address` within `d`, if `d` holds it.  With no select
   * bits the address must lie in [start, start + len), the end computed as
   * a size_t; otherwise it must agree with start on the select bits, and the
   * distance from start, as an unsigned with the disconnected bits removed,
   * must lie below len.
   */
  function Locate(d: Descriptor, address: Unsigned): (r: Option<Size>)
    ensures r.Some? ==> r.value < d.len
  {
    var a := address as int;
    if d.select == 0 then
      if a >= d.start as int && a < (d.start as int + d.len as int) % U64 then
        Some((a - d.start as int) as Size)
      else None
    else if SelectMatches(d, address) then
      var off := Value(Compact(UnsignedOffset(d, address), ToWord(d.disconnect as int, 32)));
      if off < d.len as int then Some(off as Size) else None
    else None
  }

  /** `((start ^ address) & select) == 0`, on size_t. */
  predicate SelectMatches(d: Descriptor, address: Unsigned)
  {
    true !in And(Xor(ToWord(d.start as int, 64), ToWord(address as int, 64)), ToWord(d.select as int, 64))
  }

  /** `address - (unsigned)start`, on unsigned int. */
  function UnsignedOffset(d: Descriptor, address: Unsigned): (r: Word)
    ensures |r| == 32
  {
    ToWord(UnsignedDistance(d, address), 32)
  }

  /** The value of `address - (unsigned)start`. */
  function UnsignedDistance(d: Descriptor, address: Unsigned): (r: nat)
    ensures r < U32
  {
    (address as int - d.start as int % U32) % U32
  }

  /** The select test passes exactly when the address agrees with start on every select bit. */
  lemma SelectMatchesBitwise(d: Descriptor, address: Unsigned)
    ensures SelectMatches(d, address) <==>
      AgreeOn(ToWord(d.start as int, 64), ToWord(address as int, 64), ToWord(d.select as int, 64))
  {
    MaskedXorZero(ToWord(d.start as int, 64), ToWord(address as int, 64), ToWord(d.select as int, 64));
  }

  /** With no disconnect bit within the unsigned width, the offset is the unsigned distance itself. */
  lemma UndisconnectedOffset(d: Descriptor, address: Unsigned)
    requires d.disconnect as int % U32 == 0
    ensures Value(Compact(UnsignedOffset(d, address), ToWord(d.disconnect as int, 32)))
      == UnsignedDistance(d, address)
  {
    NoLowBits(d.disconnect as int);
    Pow2Of32();
    UnmaskedValue(UnsignedOffset(d, address), ToWord(d.disconnect as int, 32), UnsignedDistance(d, address));
  }

  /** A multiple of 2^32 has no bit in an unsigned. */
  lemma NoLowBits(n: nat)
    requires n % U32 == 0
    ensures Value(ToWord(n, 32)) == 0
  {
    Pow2Of32();
    ValueOfToWord(n, 32);
  }

  lemma UnmaskedValue(x: Word, mask: Word, n: nat)
    requires |x| == |mask| && Value(mask) == 0 && x == ToWord(n, |x|) && n < Pow2(|x|)
    ensures Value(Compact(x, mask)) == n
  {
    ZeroValue(mask);
    CompactUnmasked(x, mask);
    ValueOfToWord(n, |x|);
    ModUnique(n, Pow2(|x|), 0, n);
  }

  /**
   * With select bits, a matching address sits at its unsigned distance from
   * start with the disconnected bits removed; with no disconnect bits within
   * the unsigned width, that is the distance itself.
   */
  lemma LocateSelected(d: Descriptor, address: Unsigned)
    requires d.select != 0
    ensures Locate(d, address).Some? ==> SelectMatches(d, address)
    ensures SelectMatches(d, address) && d.disconnect as int % U32 == 0 ==>
      (UnsignedDistance(d, address) < d.len as int <==> Locate(d, address).Some?)
    ensures SelectMatches(d, address) && d.disconnect as int % U32 == 0 && Locate(d, address).Some? ==>
      Locate(d, address).value as int == UnsignedDistance(d, address)
  {
    if SelectMatches(d, address) && d.disconnect as int % U32 == 0 {
      UndisconnectedOffset(d, address);
    }
  }

  /**
   * A descriptor with no select bits holds exactly the addresses of
   * [start, start + len), each at its distance from start, when that range
   * fits in a size_t; a range that wraps around holds no address at all.
   */
  lemma LocateUnselected(d: Descriptor, address: Unsigned)
    requires d.select == 0
    ensures d.start as int + d.len as int < U64 ==>
      (Locate(d, address).Some? <==> d.start as int <= address as int < d.start as int + d.len as int)
    ensures d.start as int + d.len as int >= U64 ==> Locate(d, address).None?
    ensures Locate(d, address).Some? ==> Locate(d, address).value as int == address as int - d.start as int
  {
  }

  /** The first descriptor at or after `i` that holds the address, with the offset. */
  function FirstHolding(descs: seq<Descriptor>, address: Unsigned, i: nat): (r: Option<(nat, Size)>)
    requires i <= |descs|
    ensures r.Some? ==> i <= r.value.0 < |descs| && Locate(descs[r.value.0], address) == Some(r.value.1)
    ensures r.Some? ==> forall j :: i <= j < r.value.0 ==> Locate(descs[j], address).None?
    ensures r.None? <==> forall j :: i <= j < |descs| ==> Locate(descs[j], address).None?
    decreases |descs| - i
  {
    if i == |descs| then None
    else if Locate(descs[i], address).Some? then Some((i, Locate(descs[i], address).value))
    else FirstHolding(descs, address, i + 1)
  }

  /**
   * The test command_memory_get_descriptor applies to one descriptor: the
   * offset of the address within it, if it holds the address.
   */
  method LocateIn(d: Descriptor, address: Unsigned) returns (r: Option<Size>)
    ensures r == Locate(d, address)
  {
    var a := address as int;
    if d.select == 0 {
      if a >= d.start as int && a < (d.start as int + d.len as int) % U64 {
        return Some((a - d.start as int) as Size);
      }
    } else if SelectMatches(d, address) {
      var descOffset := UnsignedOffset(d, address);
      var mask := ToWord(d.disconnect as int, 32);
      var reduced := Reduce(descOffset, mask);
      var off := Value(reduced);
      if off < d.len as int {
        return Some(off as Size);
      }
    }
    return None;
  }

  /**
   * command_memory_get_descriptor: the index of the first descriptor
   * holding the address, and the offset within it.
   */
  method GetDescriptor(descs: seq<Descriptor>, address: Unsigned) returns (r: Option<(nat, Size)>)
    ensures r == FirstHolding(descs, address, 0)
  {
    var i := 0;
    while i < |descs|
      invariant 0 <= i <= |descs|
      invariant FirstHolding(descs, address, 0) == FirstHolding(descs, address, i)
    {
      var found := LocateIn(descs[i], address);
      if found.Some? {
        return Some((i, found.value));
      }
      i := i + 1;
    }
    return None;
  }

  /**
   * What command_memory_get_pointer gives back: the descriptor, the distance
   * of the returned pointer from the descriptor's data pointer and the byte
   * budget, or the reply text.
   */
  datatype Access = Granted(index: nat, at: nat, maxBytes: Unsigned) | Refused(reply: string)

  /** command_memory_get_pointer; an absent system info behaves as an empty map. */
  method GetPointer(descs: seq<Descriptor>, address: Unsigned, forWrite: bool) returns (r: Access)
    ensures descs == [] ==> r == Refused(" -1 no memory map defined\n")
    ensures descs != [] && FirstHolding(descs, address, 0).None? ==>
      r == Refused(" -1 no descriptor for address\n")
    ensures descs != [] && FirstHolding(descs, address, 0).Some? ==>
      var (i, off) := FirstHolding(descs, address, 0).value;
      var d := descs[i];
      if !d.hasData then r == Refused(" -1 no data for descriptor\n")
      else if forWrite && d.flags & MemDescConst != 0 then r == Refused(" -1 descriptor data is readonly\n")
      else r == Granted(i, d.offset as int + off as int, ((d.len - off) as int % U32) as Unsigned)
    ensures r.Granted? ==> r.index < |descs| && (forWrite ==> descs[r.index].flags & MemDescConst == 0)
    ensures r.Granted? ==>
      var d := descs[r.index];
      var off := r.at - d.offset as int;
      && 0 <= off < d.len as int
      && off + r.maxBytes as int <= d.len as int
      && (d.len as int - off < U32 ==> off + r.maxBytes as int == d.len as int)
  {
    if |descs| == 0 {
      return Refused(" -1 no memory map defined\n");
    }
    var found := GetDescriptor(descs, address);
    match found {
      case None =>
        r := Refused(" -1 no descriptor for address\n");
      case Some((i, off)) =>
        var d := descs[i];
        if !d.hasData {
          r := Refused(" -1 no data for descriptor\n");
        } else if forWrite && d.flags & MemDescConst != 0 {
          r := Refused(" -1 descriptor data is readonly\n");
        } else {
          r := Granted(i, d.offset as int + off as int, ((d.len - off) as int % U32) as Unsigned);
        }
    }
  }
}
