/** Option, shared by every module of the model. */
module Wrappers {
  datatype Option<+T> = None | Some(value: T)
}

/**
 * The C string routines the core relies on (strtok_r, strrchr, strstr,
 * strcasecmp and the libretro-common number parsers), stated over
 * `seq<char>`.  A C string ends at its first NUL; `CStr` gives that view.
 */
module CStrings {
  import opened Wrappers

  const U32: nat := 0x1_0000_0000

  /** What a NUL-terminated reader sees of a char buffer. */
  function CStr(s: string): (r: string)
    ensures |r| <= |s| && r == s[..|r|]
    ensures '\0' !in r
    ensures |r| < |s| ==> s[|r|] == '\0'
  {
    if s == [] || s[0] == '\0' then [] else [s[0]] + CStr(s[1..])
  }

  /** Any NUL-free prefix that stops at a NUL or at the end is the C string. */
  lemma CStrUnique(s: string, r: string)
    requires |r| <= |s| && r == s[..|r|] && '\0' !in r
    requires |r| < |s| ==> s[|r|] == '\0'
    ensures CStr(s) == r
  {
  }

  /** Length of the leading run of characters different from `d`. */
  function RunLength(s: string, d: char): (n: nat)
    ensures n <= |s| && d !in s[..n]
    ensures n < |s| ==> s[n] == d
  {
    if s == [] || s[0] == d then 0 else 1 + RunLength(s[1..], d)
  }

  /**
   * The tokens successive strtok_r calls with the single delimiter `d`
   * return: the maximal non-empty runs of non-delimiter characters.
   */
  function Tokens(s: string, d: char): (ts: seq<string>)
    ensures forall i :: 0 <= i < |ts| ==> ts[i] != [] && d !in ts[i]
    decreases |s|
  {
    if s == [] then []
    else if s[0] == d then Tokens(s[1..], d)
    else
      var n := RunLength(s, d);
      [s[..n]] + Tokens(s[n..], d)
  }

  /** Tokens glued back together with one delimiter between neighbours. */
  function Join(ts: seq<string>, d: char): string
  {
    if ts == [] then []
    else if |ts| == 1 then ts[0]
    else ts[0] + [d] + Join(ts[1..], d)
  }

  lemma {:induction false} TokensLeadingDelimiter(s: string, d: char)
    ensures Tokens([d] + s, d) == Tokens(s, d)
  {
    assert ([d] + s)[1..] == s;
  }

  lemma {:induction false} TokensOfToken(t: string, rest: string, d: char)
    requires t != [] && d !in t
    requires rest == [] || rest[0] == d
    ensures Tokens(t + rest, d) == [t] + Tokens(rest, d)
  {
    var s := t + rest;
    RunLengthOfToken(t, rest, d);
    assert s[..|t|] == t && s[|t|..] == rest;
  }

  lemma {:induction false} RunLengthOfToken(t: string, rest: string, d: char)
    requires d !in t
    requires rest == [] || rest[0] == d
    ensures RunLength(t + rest, d) == |t|
    decreases |t|
  {
    if t != [] {
      assert (t + rest)[1..] == t[1..] + rest;
      RunLengthOfToken(t[1..], rest, d);
    }
  }

  /** Splitting what `Join` glued gives back the same tokens. */
  lemma {:induction false} TokensJoin(ts: seq<string>, d: char)
    requires forall i :: 0 <= i < |ts| ==> ts[i] != [] && d !in ts[i]
    ensures Tokens(Join(ts, d), d) == ts
    decreases |ts|
  {
    if ts == [] {
    } else if |ts| == 1 {
      TokensOfToken(ts[0], [], d);
      assert ts[0] + [] == ts[0];
    } else {
      var rest := Join(ts[1..], d);
      assert Join(ts, d) == ts[0] + ([d] + rest);
      TokensOfToken(ts[0], [d] + rest, d);
      TokensLeadingDelimiter(rest, d);
      TokensJoin(ts[1..], d);
      assert ts == [ts[0]] + ts[1..];
    }
  }

  /** strrchr: the position of the last occurrence of `c`. */
  function LastIndexOf(s: string, c: char): (r: Option<nat>)
    ensures r.None? <==> c !in s
    ensures r.Some? ==> r.value < |s| && s[r.value] == c && c !in s[r.value + 1..]
  {
    if s == [] then None
    else if s[|s| - 1] == c then Some(|s| - 1)
    else
      var r := LastIndexOf(s[..|s| - 1], c);
      assert s == s[..|s| - 1] + [s[|s| - 1]];
      r
  }

  /** strstr(s, p) != NULL */
  predicate OccursAt(p: string, s: string, k: int)
  {
    0 <= k && k + |p| <= |s| && s[k..k + |p|] == p
  }

  predicate IsSubstring(p: string, s: string)
  {
    exists k | 0 <= k <= |s| - |p| :: OccursAt(p, s, k)
  }

  lemma SubstringTransitive(p: string, q: string, s: string)
    requires IsSubstring(p, q) && IsSubstring(q, s)
    ensures IsSubstring(p, s)
  {
    var k1 :| 0 <= k1 <= |q| - |p| && OccursAt(p, q, k1);
    var k2 :| 0 <= k2 <= |s| - |q| && OccursAt(q, s, k2);
    assert 0 <= k1 && k1 + |p| <= |q| && q[k1..k1 + |p|] == p;
    assert 0 <= k2 && k2 + |q| <= |s| && s[k2..k2 + |q|] == q;
    forall i | 0 <= i < |p|
      ensures s[k2 + k1 + i] == p[i]
    {
      assert s[k2 + k1 + i] == s[k2..k2 + |q|][k1 + i] == q[k1 + i];
      assert q[k1 + i] == q[k1..k1 + |p|][i];
    }
    assert s[k2 + k1..k2 + k1 + |p|] == p;
    assert OccursAt(p, s, k2 + k1);
  }

  lemma PrefixIsSubstring(p: string, s: string)
    requires p <= s
    ensures IsSubstring(p, s)
  {
    assert OccursAt(p, s, 0);
  }

  /** tolower in the C locale. */
  function Lower(c: char): char
  {
    if 'A' <= c <= 'Z' then (c as int + 32) as char else c
  }

  function LowerAll(s: string): (r: string)
    ensures |r| == |s|
  {
    if s == [] then [] else [Lower(s[0])] + LowerAll(s[1..])
  }

  /**
   * The sign of strcasecmp(a, b): the strings are compared character by
   * character after lowering, and a proper prefix sorts first.
   */
  function CaseCmp(a: string, b: string): int
  {
    if a == [] && b == [] then 0
    else if a == [] then -1
    else if b == [] then 1
    else if Lower(a[0]) < Lower(b[0]) then -1
    else if Lower(a[0]) > Lower(b[0]) then 1
    else CaseCmp(a[1..], b[1..])
  }

  /** strcasecmp reports equality exactly when the lowered strings agree. */
  lemma {:induction false} CaseCmpZero(a: string, b: string)
    ensures CaseCmp(a, b) == 0 <==> LowerAll(a) == LowerAll(b)
    decreases |a|
  {
    if a != [] && b != [] {
      CaseCmpZero(a[1..], b[1..]);
      if LowerAll(a) == LowerAll(b) {
        assert LowerAll(a)[0] == LowerAll(b)[0];
        assert LowerAll(a)[1..] == LowerAll(a[1..]);
        assert LowerAll(b)[1..] == LowerAll(b[1..]);
      }
    }
  }

  /** Swapping the operands flips the sign. */
  lemma {:induction false} CaseCmpAntisymmetric(a: string, b: string)
    ensures CaseCmp(a, b) == -CaseCmp(b, a)
    ensures -1 <= CaseCmp(a, b) <= 1
    decreases |a|
  {
    if a != [] && b != [] && Lower(a[0]) == Lower(b[0]) {
      CaseCmpAntisymmetric(a[1..], b[1..]);
    }
  }

  /** "Not after" is transitive, so strcasecmp orders strings consistently. */
  lemma {:induction false} CaseCmpTransitive(a: string, b: string, c: string)
    requires CaseCmp(a, b) <= 0 && CaseCmp(b, c) <= 0
    ensures CaseCmp(a, c) <= 0
    ensures CaseCmp(a, b) < 0 || CaseCmp(b, c) < 0 ==> CaseCmp(a, c) < 0
    decreases |a|
  {
    if a != [] && b != [] && c != [] && Lower(a[0]) == Lower(b[0]) == Lower(c[0]) {
      CaseCmpTransitive(a[1..], b[1..], c[1..]);
    }
  }

  /** Case-insensitively equal strings compare the same against any third string. */
  lemma {:induction false} CaseCmpCongruent(a: string, b: string, c: string)
    requires CaseCmp(a, b) == 0
    ensures CaseCmp(a, c) == CaseCmp(b, c)
    ensures CaseCmp(c, a) == CaseCmp(c, b)
    decreases |a|
  {
    if a != [] && b != [] && c != [] {
      CaseCmpCongruent(a[1..], b[1..], c[1..]);
    }
  }

  predicate IsDigit(c: char) { '0' <= c <= '9' }

  predicate IsHexDigit(c: char)
  {
    '0' <= c <= '9' || 'a' <= c <= 'f' || 'A' <= c <= 'F'
  }

  function HexDigitValue(c: char): (v: nat)
    requires IsHexDigit(c)
    ensures v < 16
  {
    if '0' <= c <= '9' then c as int - '0' as int
    else if 'a' <= c <= 'f' then c as int - 'a' as int + 10
    else c as int - 'A' as int + 10
  }

  /** The number written by a string of decimal digits. */
  function DecimalValue(s: string): nat
    requires forall i :: 0 <= i < |s| ==> IsDigit(s[i])
  {
    if s == [] then 0
    else DecimalValue(s[..|s| - 1]) * 10 + DigitValue(s[|s| - 1])
  }

  /** The number written by a string of hexadecimal digits. */
  function HexValue(s: string): nat
    requires forall i :: 0 <= i < |s| ==> IsHexDigit(s[i])
  {
    if s == [] then 0
    else HexValue(s[..|s| - 1]) * 16 + HexDigitValue(s[|s| - 1])
  }

  /** ULONG_MAX, for a 64-bit unsigned long. */
  const ULongMax: nat := 0xFFFF_FFFF_FFFF_FFFF

  /**
   * strtoul of a valid digit string, cast to unsigned: the value, saturated
   * at ULONG_MAX when it does not fit, then reduced to 32 bits.
   */
  function NarrowedStrtoul(v: nat): (r: nat)
    ensures r < U32
    ensures v < U32 ==> r == v
    ensures v > ULongMax ==> r == U32 - 1
  {
    (if v > ULongMax then ULongMax else v) % U32
  }

  /**
   * string_to_unsigned: 0 for an empty string or one holding anything but
   * decimal digits, otherwise strtoul's value narrowed to 32 bits.
   */
  function StringToUnsigned(s: string): (r: nat)
    ensures r < U32
    ensures (exists i :: 0 <= i < |s| && !IsDigit(s[i])) ==> r == 0
    ensures s != [] && (forall i :: 0 <= i < |s| ==> IsDigit(s[i])) ==>
      r == NarrowedStrtoul(DecimalValue(s))
  {
    if s == [] || exists i | 0 <= i < |s| :: !IsDigit(s[i]) then 0
    else NarrowedStrtoul(DecimalValue(s))
  }

  /** The text string_hex_to_unsigned checks after dropping a "0x"/"0X" prefix. */
  function HexBody(s: string): (r: string)
    ensures r == s || (|s| >= 2 && r == s[2..])
  {
    if |s| >= 2 && s[0] == '0' && (s[1] == 'x' || s[1] == 'X') then s[2..] else s
  }

  /**
   * string_hex_to_unsigned: 0 for a text shorter than two characters, and
   * 0 unless what follows an optional "0x" is a non-empty run of hex
   * digits; otherwise strtoul's value narrowed to 32 bits.
   */
  function HexToUnsigned(s: string): (r: nat)
    ensures r < U32
    ensures |s| < 2 || HexBody(s) == [] ==> r == 0
    ensures (exists i :: 0 <= i < |HexBody(s)| && !IsHexDigit(HexBody(s)[i])) ==> r == 0
    ensures |s| >= 2 && HexBody(s) != [] && (forall i :: 0 <= i < |HexBody(s)| ==> IsHexDigit(HexBody(s)[i])) ==>
      r == NarrowedStrtoul(HexValue(HexBody(s)))
  {
    var h := HexBody(s);
    if |s| < 2 || h == [] || exists i | 0 <= i < |h| :: !IsHexDigit(h[i]) then 0
    else NarrowedStrtoul(HexValue(h))
  }

  /** Any run of '0' characters has value zero. */
  lemma {:induction false} HexValueOfZeros(s: string)
    requires forall i :: 0 <= i < |s| ==> s[i] == '0'
    ensures forall i :: 0 <= i < |s| ==> IsHexDigit(s[i])
    ensures HexValue(s) == 0
    decreases |s|
  {
    if s != [] {
      HexValueOfZeros(s[..|s| - 1]);
    }
  }

  function DigitValue(c: char): (v: nat)
    requires IsDigit(c)
    ensures v < 10
  {
    c as int - '0' as int
  }

  function DigitChar(d: nat): (c: char)
    requires d < 10
    ensures IsDigit(c) && DigitValue(c) == d
  {
    ('0' as int + d) as char
  }

  /** printf("%d") of a non-negative number. */
  function NatToString(n: nat): (s: string)
    ensures s != [] && forall i :: 0 <= i < |s| ==> IsDigit(s[i])
  {
    if n < 10 then [DigitChar(n)] else NatToString(n / 10) + [DigitChar(n % 10)]
  }

  /** Printing a number in decimal and reading it back gives the number. */
  lemma {:induction false} NatToStringRoundTrip(n: nat)
    ensures DecimalValue(NatToString(n)) == n
    decreases n
  {
    var s := NatToString(n);
    if n < 10 {
      assert s[..|s| - 1] == [];
    } else {
      NatToStringRoundTrip(n / 10);
      assert s[..|s| - 1] == NatToString(n / 10);
    }
  }
}
