/**
 * The savestate wraparound decision (command_scan_states) and the next
 * auto-increment slot (command_event_get_next_savestate_auto_index).
 *
 * The directory listing is not modelled: the scan is given the slot
 * index decoded from each savestate file of the current content, in
 * listing order.  `Decide` is the reference definition, stated with the
 * lowest free and the first used slot of the range; `ScanStates` is the
 * two loops of the source (counters and the two 512-slot occupancy maps,
 * then a walk over the range with UINT_MAX as "not yet found"), proved
 * to compute it.
 */
module Savestates {
  import opened Wrappers
  import opened CStrings
  import Words

  const UintMax: nat := 0xFFFF_FFFF

  /** The two occupancy maps hold 512 slots each. */
  const MapSlots: nat := 512

  /** The conversion of an int to unsigned. */
  function Unsigned(x: int): (r: nat)
    ensures r < U32
  {
    x % U32
  }

  predicate IsInt32(x: int)
  {
    -0x8000_0000 <= x < 0x8000_0000
  }

  /** Two's-complement wrap-around of an int result. */
  function ToInt32(x: int): (r: int)
    ensures IsInt32(r) && Unsigned(r) == Unsigned(x)
    ensures IsInt32(x) ==> r == x
  {
    var u := x % U32;
    if u >= 0x8000_0000 then u - U32 else u
  }

  /** The load, gap and delete slots, and whether a surplus state is to be removed. */
  datatype Decision = Decision(load: nat, gap: nat, del: nat, prune: bool)

  /** The highest index seen, 0 when there is none (max_idx). */
  function MaxIndex(s: seq<nat>): (r: nat)
    ensures forall k :: 0 <= k < |s| ==> s[k] <= r
    ensures r == 0 || r in s
  {
    if s == [] then 0
    else
      var m := MaxIndex(s[..|s| - 1]);
      if s[|s| - 1] > m then s[|s| - 1] else m
  }

  /** How many of the indices lie in the wraparound range [0, maxKeep] (cnt_in_range). */
  function CountInRange(s: seq<nat>, maxKeep: nat): (r: nat)
    ensures r <= |s|
    ensures r == 0 <==> forall k :: 0 <= k < |s| ==> s[k] > maxKeep
  {
    if s == [] then 0
    else CountInRange(s[..|s| - 1], maxKeep) + (if s[|s| - 1] <= maxKeep then 1 else 0)
  }

  /** The lowest slot in [lo, hi) that is occupied (`used`) or free (`!used`). */
  function FirstSlot(s: seq<nat>, used: bool, lo: nat, hi: nat): (r: Option<nat>)
    ensures r.Some? ==> lo <= r.value < hi && (r.value in s) == used
    ensures r.Some? ==> forall j :: lo <= j < r.value ==> (j in s) != used
    ensures r.None? <==> forall j :: lo <= j < hi ==> (j in s) != used
    decreases hi - lo
  {
    if lo >= hi then None
    else if (lo in s) == used then Some(lo)
    else FirstSlot(s, used, lo + 1, hi)
  }

  /** Widening the range by one slot at the top. */
  lemma {:induction false} FirstSlotExtend(s: seq<nat>, used: bool, lo: nat, hi: nat)
    requires lo <= hi
    ensures FirstSlot(s, used, lo, hi + 1) ==
      if FirstSlot(s, used, lo, hi).Some? then FirstSlot(s, used, lo, hi)
      else if (hi in s) == used then Some(hi)
      else None
    decreases hi - lo
  {
    if lo < hi && (lo in s) != used {
      FirstSlotExtend(s, used, lo + 1, hi);
    }
  }

  /** A search result as the source keeps it: UINT_MAX for "none". */
  function OrUintMax(o: Option<nat>): nat
  {
    match o
    case Some(v) => v
    case None => UintMax
  }

  /**
   * Reference definition of the decision: the gap is the lowest free slot
   * of [0, maxKeep], the delete slot the first used one above it, and the
   * load slot the one below the gap; the special cases cover nothing in
   * range and a range without a gap.
   */
  function Decide(indices: seq<nat>, maxKeep: nat, currSlot: int): Decision
    requires maxKeep < 2 * MapSlots && IsInt32(currSlot)
  {
    var maxIdx := MaxIndex(indices);
    var inRange := CountInRange(indices, maxKeep);
    var prune := inRange >= maxKeep;
    if inRange == 0 then
      Decision(if indices == [] then maxKeep else maxIdx, maxKeep, maxKeep, prune)
    else
      match FirstSlot(indices, false, 0, maxKeep + 1)
      case None =>
        if maxIdx > maxKeep then Decision(maxIdx, 1, 1, prune)
        else if Unsigned(currSlot) < maxKeep then
          Decision(Unsigned(currSlot), Unsigned(currSlot + 1), Unsigned(currSlot + 1), prune)
        else Decision(maxKeep, 0, 0, prune)
      case Some(gap) =>
        var del := match FirstSlot(indices, true, gap + 1, maxKeep + 1)
          case Some(d) => d
          case None => 0;
        Decision(if gap == 0 then maxKeep else gap - 1, gap, del, prune)
  }

  /** The two occupancy maps mark exactly the slots below 1024 that some index names. */
  predicate Marks(indices: seq<nat>, low: seq<bool>, high: seq<bool>)
  {
    && |low| == MapSlots && |high| == MapSlots
    && (forall j :: 0 <= j < MapSlots ==> (low[j] <==> j in indices))
    && (forall j :: 0 <= j < MapSlots ==> (high[j] <==> j + MapSlots in indices))
  }

  /** BIT512_SET of one more index keeps the maps exact. */
  lemma MarkStep(indices: seq<nat>, idx: nat, low: seq<bool>, high: seq<bool>)
    requires Marks(indices, low, high)
    ensures Marks(indices + [idx],
      if idx < MapSlots then low[idx := true] else low,
      if MapSlots <= idx < 2 * MapSlots then high[idx - MapSlots := true] else high)
  {
    var s := indices + [idx];
    forall j | 0 <= j < 2 * MapSlots
      ensures j in s <==> j in indices || j == idx
    {
    }
  }

  /**
   * The first loop of command_scan_states: counts the states, those in
   * range and the highest index, and marks each index below 1024 in one of
   * the two occupancy maps.
   */
  method MarkSlots(indices: seq<nat>, maxKeep: nat)
    returns (cnt: nat, cntInRange: nat, maxIdx: nat, low: seq<bool>, high: seq<bool>)
    ensures cnt == |indices| && cntInRange == CountInRange(indices, maxKeep) && maxIdx == MaxIndex(indices)
    ensures Marks(indices, low, high)
  {
    maxIdx, cnt, cntInRange := 0, 0, 0;
    low := seq(MapSlots, _ => false);
    high := seq(MapSlots, _ => false);
    var k := 0;
    while k < |indices|
      invariant 0 <= k <= |indices| && cnt == k
      invariant maxIdx == MaxIndex(indices[..k])
      invariant cntInRange == CountInRange(indices[..k], maxKeep)
      invariant |low| == MapSlots && |high| == MapSlots
      invariant Marks(indices[..k], low, high)
    {
      var idx := indices[k];
      assert indices[..k + 1] == indices[..k] + [idx];
      assert indices[..k + 1][..k] == indices[..k];
      MarkStep(indices[..k], idx, low, high);
      if idx > maxIdx {
        maxIdx := idx;
      }
      cnt := cnt + 1;
      if idx <= maxKeep {
        cntInRange := cntInRange + 1;
      }
      if idx < MapSlots {
        low := low[idx := true];
      } else if idx < 2 * MapSlots {
        high := high[idx - MapSlots := true];
      }
      k := k + 1;
    }
    assert indices[..k] == indices;
  }

  /**
   * The second loop of command_scan_states: walks the range [0, maxKeep]
   * over the occupancy maps, keeping the first free slot and the first
   * used slot after it (UINT_MAX until found).
   */
  method WalkRange(ghost indices: seq<nat>, maxKeep: nat, low: seq<bool>, high: seq<bool>)
    returns (gapIdx: nat, delIdx: nat)
    requires maxKeep < 2 * MapSlots && Marks(indices, low, high)
    ensures gapIdx == OrUintMax(FirstSlot(indices, false, 0, maxKeep + 1))
    ensures delIdx == if gapIdx == UintMax then UintMax else OrUintMax(FirstSlot(indices, true, gapIdx + 1, maxKeep + 1))
  {
    gapIdx, delIdx := UintMax, UintMax;
    var i := 0;
    while i <= maxKeep
      invariant 0 <= i <= maxKeep + 1
      invariant gapIdx == OrUintMax(FirstSlot(indices, false, 0, i))
      invariant gapIdx != UintMax ==> gapIdx < i
      invariant delIdx == if gapIdx == UintMax then UintMax else OrUintMax(FirstSlot(indices, true, gapIdx + 1, i))
    {
      var free := (i < MapSlots && !low[i]) || (i >= MapSlots && !high[i - MapSlots]);
      assert free <==> i !in indices by {
        if i >= MapSlots {
          assert (i - MapSlots) + MapSlots == i;
        }
      }
      WalkStep(indices, i, gapIdx, delIdx);
      if free {
        if gapIdx == UintMax {
          gapIdx := i;
        }
      } else {
        if gapIdx < UintMax && delIdx == UintMax {
          delIdx := i;
        }
      }
      i := i + 1;
    }
  }

  /** One slot of the walk keeps the two searches up to date. */
  lemma WalkStep(indices: seq<nat>, i: nat, gapIdx: nat, delIdx: nat)
    requires i < UintMax
    requires gapIdx == OrUintMax(FirstSlot(indices, false, 0, i))
    requires gapIdx != UintMax ==> gapIdx < i
    requires delIdx == if gapIdx == UintMax then UintMax else OrUintMax(FirstSlot(indices, true, gapIdx + 1, i))
    ensures var gap' := if i !in indices && gapIdx == UintMax then i else gapIdx;
      var del' := if i in indices && gapIdx < UintMax && delIdx == UintMax then i else delIdx;
      && gap' == OrUintMax(FirstSlot(indices, false, 0, i + 1))
      && (gap' != UintMax ==> gap' < i + 1)
      && del' == if gap' == UintMax then UintMax else OrUintMax(FirstSlot(indices, true, gap' + 1, i + 1))
  {
    FirstSlotExtend(indices, false, 0, i);
    if gapIdx != UintMax {
      FirstSlotExtend(indices, true, gapIdx + 1, i);
    } else if i !in indices {
      FirstSlotExtend(indices, true, i + 1, i + 1);
      assert FirstSlot(indices, true, i + 1, i + 1) == None;
    }
  }

  /**
   * command_scan_states over the decoded indices, for a range that fits
   * the two occupancy maps.
   */
  method ScanStates(indices: seq<nat>, maxKeep: nat, currSlot: int) returns (d: Decision)
    requires maxKeep < 2 * MapSlots && IsInt32(currSlot)
    ensures d == Decide(indices, maxKeep, currSlot)
  {
    var cnt, cntInRange, maxIdx, low, high := MarkSlots(indices, maxKeep);
    var gapIdx, delIdx := WalkRange(indices, maxKeep, low, high);
    var loaIdx := 0;
    if cntInRange == 0 {
      loaIdx := if cnt == 0 then maxKeep else maxIdx;
      gapIdx := maxKeep;
      delIdx := maxKeep;
    } else if gapIdx == UintMax {
      if maxIdx > maxKeep {
        loaIdx := maxIdx;
        gapIdx := 1;
      } else if Unsigned(currSlot) < maxKeep {
        loaIdx := Unsigned(currSlot);
        gapIdx := Unsigned(currSlot + 1);
      } else {
        loaIdx := maxKeep;
        gapIdx := 0;
      }
      delIdx := gapIdx;
    } else {
      if delIdx == UintMax {
        delIdx := 0;
      }
      loaIdx := if gapIdx == 0 then maxKeep else gapIdx - 1;
    }
    d := Decision(loaIdx, gapIdx, delIdx, cntInRange >= maxKeep);
  }

  /**
   * With states in range and a free slot in it, the gap is the lowest free
   * slot, the load slot is the one below it (the top of the range when the
   * gap is slot 0), and the delete slot is the first used slot above the
   * gap, or 0 when there is none.
   */
  lemma WraparoundWithGap(indices: seq<nat>, maxKeep: nat, currSlot: int, g: nat)
    requires maxKeep < 2 * MapSlots && IsInt32(currSlot)
    requires CountInRange(indices, maxKeep) > 0
    requires g <= maxKeep && g !in indices && forall j :: 0 <= j < g ==> j in indices
    ensures var d := Decide(indices, maxKeep, currSlot);
      && d.gap == g
      && d.load == (if g == 0 then maxKeep else g - 1)
      && (d.del == 0 <==> forall j :: g < j <= maxKeep ==> j !in indices)
      && (d.del != 0 ==>
            g < d.del <= maxKeep && d.del in indices
            && forall j :: g < j < d.del ==> j !in indices)
  {
    assert FirstSlot(indices, false, 0, maxKeep + 1) == Some(g);
  }

  /** Every slot of the range is used: the load and gap slots follow the fallbacks of the source. */
  lemma WraparoundWithoutGap(indices: seq<nat>, maxKeep: nat, currSlot: int)
    requires maxKeep < 2 * MapSlots && IsInt32(currSlot)
    requires forall j :: 0 <= j <= maxKeep ==> j in indices
    ensures var d := Decide(indices, maxKeep, currSlot);
      && d.del == d.gap
      && (MaxIndex(indices) > maxKeep ==> d.load == MaxIndex(indices) && d.gap == 1)
      && (MaxIndex(indices) <= maxKeep && 0 <= currSlot < maxKeep ==> d.load == currSlot && d.gap == currSlot + 1)
      && (MaxIndex(indices) <= maxKeep && !(0 <= currSlot < maxKeep) ==> d.load == maxKeep && d.gap == 0)
  {
    assert 0 in indices;
    var k :| 0 <= k < |indices| && indices[k] == 0;
    assert CountInRange(indices, maxKeep) != 0;
  }

  /**
   * Nothing in range: with no savestate at all, load, gap and delete are
   * all the top of the range (the first save then goes to slot 0); with
   * only higher slots, the highest one is loaded.
   */
  lemma NothingInRange(indices: seq<nat>, maxKeep: nat, currSlot: int)
    requires maxKeep < 2 * MapSlots && IsInt32(currSlot)
    requires forall k :: 0 <= k < |indices| ==> indices[k] > maxKeep
    ensures var d := Decide(indices, maxKeep, currSlot);
      && d.gap == maxKeep && d.del == maxKeep
      && d.load == (if indices == [] then maxKeep else MaxIndex(indices))
  {
  }

  /** All three slots stay inside the occupancy maps, so the delete slot prints in four digits. */
  lemma DecisionBounds(indices: seq<nat>, maxKeep: nat, currSlot: int)
    requires maxKeep < 2 * MapSlots && IsInt32(currSlot)
    ensures var d := Decide(indices, maxKeep, currSlot);
      && d.gap < 2 * MapSlots && d.del < 2 * MapSlots
      && (CountInRange(indices, maxKeep) > 0 && MaxIndex(indices) <= maxKeep ==> d.load <= maxKeep)
  {
  }

  /**
   * command_event_get_next_savestate_auto_index: the slot after the
   * current one, back to 0 when it leaves a bounded range.  The increment
   * wraps around at the int boundary.
   */
  function NextAutoIndex(stateSlot: int, maxKeep: nat): (r: int)
    requires IsInt32(stateSlot) && maxKeep < U32
    ensures IsInt32(r)
    ensures maxKeep > 0 ==> Unsigned(r) <= maxKeep
    ensures maxKeep > 0 && Unsigned(ToInt32(stateSlot + 1)) > maxKeep ==> r == 0
    ensures maxKeep == 0 || Unsigned(ToInt32(stateSlot + 1)) <= maxKeep ==> r == ToInt32(stateSlot + 1)
  {
    var next := ToInt32(stateSlot + 1);
    if maxKeep > 0 && Unsigned(next) > maxKeep then 0 else next
  }

  /** In a bounded range, auto-increment cycles through the slots 0 .. maxKeep. */
  lemma AutoIndexCycles(stateSlot: int, maxKeep: nat)
    requires 0 < maxKeep < 0x7FFF_FFFF && 0 <= stateSlot <= maxKeep
    ensures NextAutoIndex(stateSlot, maxKeep) == (stateSlot + 1) % (maxKeep + 1)
  {
    Words.ModUnique(stateSlot + 1, U32, 0, stateSlot + 1);
    if stateSlot == maxKeep {
      Words.ModUnique(stateSlot + 1, maxKeep + 1, 1, 0);
    } else {
      Words.ModUnique(stateSlot + 1, maxKeep + 1, 0, stateSlot + 1);
    }
  }

  /**
   * With a bounded range below 2^31, a slot at or above max_keep, the
   * largest int among them, and every slot below -1 lead back to 0; the
   * slots -1 .. max_keep - 1 step to the next one.
   */
  lemma AutoIndexLeavesRange(stateSlot: int, maxKeep: nat)
    requires IsInt32(stateSlot) && 0 < maxKeep < 0x8000_0000
    ensures stateSlot >= maxKeep ==> NextAutoIndex(stateSlot, maxKeep) == 0
    ensures stateSlot < -1 ==> NextAutoIndex(stateSlot, maxKeep) == 0
    ensures -1 <= stateSlot < maxKeep ==> NextAutoIndex(stateSlot, maxKeep) == stateSlot + 1
  {
  }

  /** Saving after loading the slot below the gap fills the gap. */
  lemma NextSaveFillsGap(indices: seq<nat>, maxKeep: nat, currSlot: int, g: nat)
    requires 0 < maxKeep < 2 * MapSlots && IsInt32(currSlot)
    requires CountInRange(indices, maxKeep) > 0
    requires g <= maxKeep && g !in indices && forall j :: 0 <= j < g ==> j in indices
    ensures NextAutoIndex(Decide(indices, maxKeep, currSlot).load, maxKeep) == g
  {
    WraparoundWithGap(indices, maxKeep, currSlot, g);
    var load := Decide(indices, maxKeep, currSlot).load;
    if g == 0 {
      AutoIndexCycles(load, maxKeep);
    }
  }

  /** The run of decimal digits that ends a file name (possibly empty). */
  function TrailingDigits(name: string): (r: string)
    ensures |r| <= |name| && r == name[|name| - |r|..]
    ensures forall i :: 0 <= i < |r| ==> IsDigit(r[i])
    ensures |r| < |name| ==> !IsDigit(name[|name| - |r| - 1])
  {
    if name == [] || !IsDigit(name[|name| - 1]) then []
    else TrailingDigits(name[..|name| - 1]) + [name[|name| - 1]]
  }

  /**
   * The index decoding of command_scan_states: walks back over the
   * trailing digits; returns where they start (the length of the file
   * name root) and the index they spell.
   */
  method DecodeSlot(name: string) returns (rootLen: nat, idx: nat)
    ensures rootLen == |name| - |TrailingDigits(name)|
    ensures name[rootLen..] == TrailingDigits(name)
    ensures idx == StringToUnsigned(TrailingDigits(name))
  {
    var end := |name|;
    while end > 0 && IsDigit(name[end - 1])
      invariant 0 <= end <= |name|
      invariant forall i :: end <= i < |name| ==> IsDigit(name[i])
      invariant |name| - end <= |TrailingDigits(name)|
    {
      end := end - 1;
    }
    rootLen := end;
    idx := StringToUnsigned(name[end..]);
  }

  /**
   * The file a surplus state is removed from: the root of the first state
   * file, then the delete slot printed with "%d" into five bytes (so at
   * most four digits); slot 0 has no number.
   */
  function PruneName(root: string, del: nat): (r: string)
    requires del < 0x8000_0000
    ensures del == 0 ==> r == root
    ensures del > 0 ==> |root| < |r| <= |root| + 4 && r[..|root|] == root
  {
    if del == 0 then root
    else
      var digits := NatToString(del);
      root + (if |digits| > 4 then digits[..4] else digits)
  }

  /** A number below 10000 prints in at most four digits. */
  lemma NatToStringShort(n: nat)
    requires n < 10000
    ensures |NatToString(n)| <= 4
  {
    if n >= 10 {
      assert |NatToString(n)| == |NatToString(n / 10)| + 1;
      if n >= 100 {
        assert |NatToString(n / 10)| == |NatToString(n / 100)| + 1;
        if n >= 1000 {
          assert n / 100 / 10 == n / 1000;
        }
      }
    }
  }

  /** The name of a pruned state decodes, on the next scan, to the slot it was chosen for. */
  lemma PrunedNameRescans(root: string, del: nat)
    requires del < 10000
    requires root == [] || !IsDigit(root[|root| - 1])
    ensures var name := PruneName(root, del);
      TrailingDigits(name) == name[|root|..] && StringToUnsigned(TrailingDigits(name)) == del
  {
    var name := PruneName(root, del);
    if del == 0 {
      assert TrailingDigits(root) == [];
    } else {
      var digits := NatToString(del);
      NatToStringShort(del);
      assert name == root + digits;
      TrailingDigitsOfSuffix(root, digits);
      NumberReadsBack(del);
    }
  }

  /** string_to_unsigned reads a printed 32-bit number back. */
  lemma NumberReadsBack(n: nat)
    requires n < U32
    ensures StringToUnsigned(NatToString(n)) == n
  {
    NatToStringRoundTrip(n);
    Words.ModUnique(n, U32, 0, n);
  }

  lemma {:induction false} TrailingDigitsOfSuffix(root: string, digits: string)
    requires root == [] || !IsDigit(root[|root| - 1])
    requires forall i :: 0 <= i < |digits| ==> IsDigit(digits[i])
    ensures TrailingDigits(root + digits) == digits
    decreases |digits|
  {
    if digits == [] {
      assert root + digits == root;
    } else {
      var front := digits[..|digits| - 1];
      assert (root + digits)[..|root + digits| - 1] == root + front;
      TrailingDigitsOfSuffix(root, front);
    }
  }
}
