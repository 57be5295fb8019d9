/**
 * The two orders a core updater list can be sorted in
 * (core_updater_list_qsort_func_wizmodl and core_updater_list_qsort_func)
 * and the sort itself.
 *
 * The grouped comparator is a cascade of keys.  Beside it stands an
 * independent reference: a lexicographic comparison of a key sequence
 * (`SortKey`), proved equal to the cascade on every pair of entries the
 * comparator treats consistently, which is how its ordering laws are
 * established.
 */
module Grouping {
  import opened CStrings
  import opened UpdaterEntry
  import opened Classifier

  datatype SortMode = Alphabetical | Grouped

  /**
   * The entries a comparator orders consistently: either comparator
   * reports "equal" for a package with an empty display name.
   */
  predicate Sortable(mode: SortMode, e: Entry)
  {
    match mode
    case Alphabetical => e.displayName != []
    case Grouped => e.IsHeader() || e.displayName != []
  }

  /** A comparison the way qsort reads it: negative, zero or positive. */
  function Sign(x: int): int
  {
    if x < 0 then -1 else if x > 0 then 1 else 0
  }

  /** core_updater_list_qsort_func_wizmodl */
  function CompareGrouped(a: Entry, b: Entry): (c: int)
    ensures a.IsHeader() && !b.IsHeader() ==> c < 0
    ensures a.kind == ManufacturerHeader && b.kind == ConsoleHeader ==> c < 0
    ensures a.kind == b.kind && a.IsHeader() ==> c == CaseCmp(a.displayName, b.displayName)
    ensures !a.IsHeader() && !b.IsHeader() && (a.displayName == [] || b.displayName == []) ==> c == 0
    ensures !a.IsHeader() && !b.IsHeader() && a.displayName != [] && b.displayName != []
            && Classify(a.displayName).manufacturerPriority < Classify(b.displayName).manufacturerPriority
            ==> c < 0
  {
    if a.IsHeader() && !b.IsHeader() then -1
    else if !a.IsHeader() && b.IsHeader() then 1
    else if a.kind == ManufacturerHeader && b.kind == ConsoleHeader then -1
    else if a.kind == ConsoleHeader && b.kind == ManufacturerHeader then 1
    else if a.IsHeader() then CaseCmp(a.displayName, b.displayName)
    else if a.displayName == [] || b.displayName == [] then 0
    else CompareMetadata(Classify(a.displayName), Classify(b.displayName), a.displayName, b.displayName)
  }

  /** The package half of core_updater_list_qsort_func_wizmodl, given both rows of metadata. */
  function CompareMetadata(ma: Rule, mb: Rule, na: string, nb: string): int
  {
    if ma.manufacturerPriority != mb.manufacturerPriority then
      (if ma.manufacturerPriority < mb.manufacturerPriority then -1 else 1)
    else if CaseCmp(ma.manufacturer, mb.manufacturer) != 0 then
      CaseCmp(ma.manufacturer, mb.manufacturer)
    else if ma.consolePriority != mb.consolePriority then
      (if ma.consolePriority < mb.consolePriority then -1 else 1)
    else if CaseCmp(ma.consoleModel, mb.consoleModel) != 0 then
      CaseCmp(ma.consoleModel, mb.consoleModel)
    else if CaseCmp(ma.consoleType, mb.consoleType) != 0 then
      CaseCmp(ma.consoleType, mb.consoleType)
    else if ma.releaseYear - mb.releaseYear != 0 then
      ma.releaseYear - mb.releaseYear
    else CaseCmp(na, nb)
  }

  /** core_updater_list_qsort_func: display names, case-insensitively. */
  function CompareAlpha(a: Entry, b: Entry): (c: int)
    ensures a.displayName == [] || b.displayName == [] ==> c == 0
    ensures c == 0 <== LowerAll(a.displayName) == LowerAll(b.displayName)
  {
    CaseCmpZero(a.displayName, b.displayName);
    if a.displayName == [] || b.displayName == [] then 0
    else CaseCmp(a.displayName, b.displayName)
  }

  function Compare(mode: SortMode, a: Entry, b: Entry): int
  {
    match mode
    case Alphabetical => CompareAlpha(a, b)
    case Grouped => CompareGrouped(a, b)
  }

  /** One key of the grouped order, with the comparison the source applies to it. */
  datatype Field = Priority(p: int) | Year(y: int) | Text(t: string)

  function FieldRank(f: Field): int
  {
    match f
    case Priority(_) => 0
    case Year(_) => 1
    case Text(_) => 2
  }

  function FieldCmp(f: Field, g: Field): int
  {
    if FieldRank(f) != FieldRank(g) then Sign(FieldRank(f) - FieldRank(g))
    else match (f, g)
      case (Priority(x), Priority(y)) => Sign(x - y)
      case (Year(x), Year(y)) => x - y
      case (Text(s), Text(t)) => CaseCmp(s, t)
      case _ => 0
  }

  /** The first key that differs decides; a proper prefix sorts first. */
  function LexCmp(xs: seq<Field>, ys: seq<Field>): int
  {
    if xs == [] && ys == [] then 0
    else if xs == [] then -1
    else if ys == [] then 1
    else if FieldCmp(xs[0], ys[0]) != 0 then FieldCmp(xs[0], ys[0])
    else LexCmp(xs[1..], ys[1..])
  }

  /**
   * The keys of the grouped order: headers first (manufacturer headers
   * before console headers, each by name), then packages by manufacturer
   * priority, manufacturer, console priority, console model, console type,
   * release year and display name.
   */
  function SortKey(e: Entry): seq<Field>
  {
    match e.kind
    case ManufacturerHeader => [Priority(0), Text(e.displayName)]
    case ConsoleHeader => [Priority(1), Text(e.displayName)]
    case Package => [Priority(2)] + MetadataKey(Classify(e.displayName), e.displayName)
  }

  function MetadataKey(m: Rule, name: string): seq<Field>
  {
    [Priority(m.manufacturerPriority), Text(m.manufacturer),
     Priority(m.consolePriority), Text(m.consoleModel), Text(m.consoleType),
     Year(m.releaseYear), Text(name)]
  }

  lemma MetadataIsLex(ma: Rule, mb: Rule, na: string, nb: string)
    ensures CompareMetadata(ma, mb, na, nb) == LexCmp(MetadataKey(ma, na), MetadataKey(mb, nb))
  {
    var ka, kb := MetadataKey(ma, na), MetadataKey(mb, nb);
    assert ka[0..] == ka && kb[0..] == kb;
    LexStep(ka, kb, 0);
    ManufacturerKeysAreLex(ma, mb, na, nb);
    ConsoleKeysAreLex(ma, mb, na, nb);
  }

  /** The manufacturer half of the metadata keys: manufacturer and console priority. */
  lemma ManufacturerKeysAreLex(ma: Rule, mb: Rule, na: string, nb: string)
    ensures var ka, kb := MetadataKey(ma, na), MetadataKey(mb, nb);
      LexCmp(ka[1..], kb[1..]) ==
        if CaseCmp(ma.manufacturer, mb.manufacturer) != 0 then CaseCmp(ma.manufacturer, mb.manufacturer)
        else if ma.consolePriority != mb.consolePriority then Sign(ma.consolePriority - mb.consolePriority)
        else LexCmp(ka[3..], kb[3..])
  {
    var ka, kb := MetadataKey(ma, na), MetadataKey(mb, nb);
    LexStep(ka, kb, 1);
    LexStep(ka, kb, 2);
  }

  /** The console half of the metadata keys: model, type, year and display name. */
  lemma ConsoleKeysAreLex(ma: Rule, mb: Rule, na: string, nb: string)
    ensures var ka, kb := MetadataKey(ma, na), MetadataKey(mb, nb);
      LexCmp(ka[3..], kb[3..]) ==
        if CaseCmp(ma.consoleModel, mb.consoleModel) != 0 then CaseCmp(ma.consoleModel, mb.consoleModel)
        else if CaseCmp(ma.consoleType, mb.consoleType) != 0 then CaseCmp(ma.consoleType, mb.consoleType)
        else if ma.releaseYear - mb.releaseYear != 0 then ma.releaseYear - mb.releaseYear
        else CaseCmp(na, nb)
  {
    var ka, kb := MetadataKey(ma, na), MetadataKey(mb, nb);
    LexStep(ka, kb, 3);
    LexStep(ka, kb, 4);
    LexStep(ka, kb, 5);
    assert ka[6..] == [Text(na)] && kb[6..] == [Text(nb)];
    LexOfText(na, nb);
  }

  lemma FieldCmpAntisymmetric(f: Field, g: Field)
    ensures FieldCmp(f, g) == -FieldCmp(g, f)
  {
    if f.Text? && g.Text? {
      CaseCmpAntisymmetric(f.t, g.t);
    }
  }

  lemma FieldCmpTransitive(f: Field, g: Field, h: Field)
    requires FieldCmp(f, g) <= 0 && FieldCmp(g, h) <= 0
    ensures FieldCmp(f, h) <= 0
    ensures FieldCmp(f, g) < 0 || FieldCmp(g, h) < 0 ==> FieldCmp(f, h) < 0
  {
    if f.Text? && g.Text? && h.Text? {
      CaseCmpTransitive(f.t, g.t, h.t);
    }
  }

  lemma FieldCmpCongruent(f: Field, g: Field, h: Field)
    requires FieldCmp(f, g) == 0
    ensures FieldCmp(f, h) == FieldCmp(g, h) && FieldCmp(h, f) == FieldCmp(h, g)
  {
    if f.Text? && g.Text? && h.Text? {
      CaseCmpCongruent(f.t, g.t, h.t);
    }
  }

  lemma {:induction false} LexAntisymmetric(xs: seq<Field>, ys: seq<Field>)
    ensures LexCmp(xs, ys) == -LexCmp(ys, xs)
    decreases |xs|
  {
    if xs != [] && ys != [] {
      FieldCmpAntisymmetric(xs[0], ys[0]);
      LexAntisymmetric(xs[1..], ys[1..]);
    }
  }

  lemma {:induction false} LexTransitive(xs: seq<Field>, ys: seq<Field>, zs: seq<Field>)
    requires LexCmp(xs, ys) <= 0 && LexCmp(ys, zs) <= 0
    ensures LexCmp(xs, zs) <= 0
    decreases |xs|
  {
    if xs != [] && ys != [] && zs != [] {
      var c1 := FieldCmp(xs[0], ys[0]);
      var c2 := FieldCmp(ys[0], zs[0]);
      if c1 == 0 && c2 == 0 {
        FieldCmpCongruent(xs[0], ys[0], zs[0]);
        LexTransitive(xs[1..], ys[1..], zs[1..]);
      } else if c1 == 0 {
        FieldCmpCongruent(xs[0], ys[0], zs[0]);
      } else if c2 == 0 {
        FieldCmpCongruent(ys[0], zs[0], xs[0]);
      } else {
        FieldCmpTransitive(xs[0], ys[0], zs[0]);
      }
    }
  }

  /** One step of the lexicographic comparison, for two non-empty key sequences. */
  lemma LexStep(xs: seq<Field>, ys: seq<Field>, i: nat)
    requires i < |xs| && i < |ys|
    ensures LexCmp(xs[i..], ys[i..]) ==
      if FieldCmp(xs[i], ys[i]) != 0 then FieldCmp(xs[i], ys[i]) else LexCmp(xs[i + 1..], ys[i + 1..])
  {
    assert xs[i..][1..] == xs[i + 1..] && ys[i..][1..] == ys[i + 1..];
  }

  lemma LexOfText(s: string, t: string)
    ensures LexCmp([Text(s)], [Text(t)]) == CaseCmp(s, t)
  {
    assert [Text(s)][1..] == [];
    assert [Text(t)][1..] == [];
  }

  /**
   * The cascade of core_updater_list_qsort_func_wizmodl is the
   * lexicographic order of `SortKey`, except on packages with an empty
   * display name.
   */
  lemma {:induction false} CompareGroupedIsLex(a: Entry, b: Entry)
    requires Sortable(Grouped, a) && Sortable(Grouped, b)
    ensures CompareGrouped(a, b) == LexCmp(SortKey(a), SortKey(b))
  {
    var ka, kb := SortKey(a), SortKey(b);
    if a.kind == b.kind {
      assert FieldCmp(ka[0], kb[0]) == 0;
      if a.IsHeader() {
        assert ka[1..] == [Text(a.displayName)] && kb[1..] == [Text(b.displayName)];
        LexOfText(a.displayName, b.displayName);
      } else {
        var ma, mb := Classify(a.displayName), Classify(b.displayName);
        assert ka[1..] == MetadataKey(ma, a.displayName);
        assert kb[1..] == MetadataKey(mb, b.displayName);
        MetadataIsLex(ma, mb, a.displayName, b.displayName);
      }
    }
  }

  /** The grouped comparator gives opposite answers on swapped operands. */
  lemma CompareGroupedAntisymmetric(a: Entry, b: Entry)
    ensures Sign(CompareGrouped(a, b)) == -Sign(CompareGrouped(b, a))
  {
    if Sortable(Grouped, a) && Sortable(Grouped, b) {
      CompareGroupedIsLex(a, b);
      CompareGroupedIsLex(b, a);
      LexAntisymmetric(SortKey(a), SortKey(b));
    }
  }

  /** On entries with display names, "not after" is transitive. */
  lemma CompareGroupedTransitive(a: Entry, b: Entry, c: Entry)
    requires Sortable(Grouped, a) && Sortable(Grouped, b) && Sortable(Grouped, c)
    requires CompareGrouped(a, b) <= 0 && CompareGrouped(b, c) <= 0
    ensures CompareGrouped(a, c) <= 0
  {
    CompareGroupedIsLex(a, b);
    CompareGroupedIsLex(b, c);
    CompareGroupedIsLex(a, c);
    LexTransitive(SortKey(a), SortKey(b), SortKey(c));
  }

  lemma CompareAntisymmetric(mode: SortMode, a: Entry, b: Entry)
    ensures Sign(Compare(mode, a, b)) == -Sign(Compare(mode, b, a))
  {
    match mode
    case Alphabetical => CaseCmpAntisymmetric(a.displayName, b.displayName);
    case Grouped => CompareGroupedAntisymmetric(a, b);
  }

  lemma CompareTransitive(mode: SortMode, a: Entry, b: Entry, c: Entry)
    requires Sortable(mode, a) && Sortable(mode, b) && Sortable(mode, c)
    requires Compare(mode, a, b) <= 0 && Compare(mode, b, c) <= 0
    ensures Compare(mode, a, c) <= 0
  {
    match mode
    case Alphabetical => CaseCmpTransitive(a.displayName, b.displayName, c.displayName);
    case Grouped => CompareGroupedTransitive(a, b, c);
  }

  /** Every pair of entries is in comparator order. */
  predicate SortedBy(mode: SortMode, s: seq<Entry>)
  {
    forall i, j | 0 <= i < j < |s| :: Compare(mode, s[i], s[j]) <= 0
  }

  /** The entries qsort is defined on: the comparator is a total preorder on them. */
  predicate Orderable(mode: SortMode, s: seq<Entry>)
  {
    forall i | 0 <= i < |s| :: Sortable(mode, s[i])
  }

  /**
   * qsort with either comparator, as an insertion sort: the result is a
   * permutation of the input, and, when the comparator is a total
   * preorder on the input, sorted by it.  qsort is not stable, so no
   * particular order among equal entries is promised.
   */
  method Sort(mode: SortMode, s: seq<Entry>) returns (r: seq<Entry>)
    ensures multiset(r) == multiset(s)
    ensures Orderable(mode, s) ==> SortedBy(mode, r)
  {
    r := [];
    var i := 0;
    while i < |s|
      invariant 0 <= i <= |s|
      invariant multiset(r) == multiset(s[..i])
      invariant Orderable(mode, s) ==> Orderable(mode, r) && SortedBy(mode, r)
    {
      assert Sortable(mode, s[i]) <== Orderable(mode, s);
      r := Insert(mode, r, s[i]);
      assert s[..i + 1] == s[..i] + [s[i]];
      i := i + 1;
    }
    assert s[..i] == s;
  }

  /** One step of the insertion sort: place `x` after every entry not after it. */
  method Insert(mode: SortMode, r: seq<Entry>, x: Entry) returns (r': seq<Entry>)
    ensures multiset(r') == multiset(r) + multiset{x}
    ensures Orderable(mode, r) && Sortable(mode, x) && SortedBy(mode, r) ==>
      Orderable(mode, r') && SortedBy(mode, r')
  {
    var k := |r|;
    while k > 0 && Compare(mode, r[k - 1], x) > 0
      invariant 0 <= k <= |r|
      invariant forall j | k <= j < |r| :: Compare(mode, r[j], x) > 0
    {
      k := k - 1;
    }
    r' := r[..k] + [x] + r[k..];
    assert r == r[..k] + r[k..];
    if Orderable(mode, r) && Sortable(mode, x) && SortedBy(mode, r) {
      InsertKeepsOrder(mode, r, x, k);
    }
  }

  /**
   * Placing `x` into a sorted sequence just after the last entry not after
   * it keeps the sequence sorted.
   */
  lemma InsertKeepsOrder(mode: SortMode, r: seq<Entry>, x: Entry, k: nat)
    requires Orderable(mode, r) && Sortable(mode, x) && SortedBy(mode, r)
    requires k <= |r|
    requires k > 0 ==> Compare(mode, r[k - 1], x) <= 0
    requires forall j | k <= j < |r| :: Compare(mode, r[j], x) > 0
    ensures Orderable(mode, r[..k] + [x] + r[k..]) && SortedBy(mode, r[..k] + [x] + r[k..])
  {
    forall j | k <= j < |r|
      ensures Compare(mode, x, r[j]) < 0
    {
      CompareAntisymmetric(mode, r[j], x);
    }
    forall j | 0 <= j < k
      ensures Compare(mode, r[j], x) <= 0
    {
      if j < k - 1 {
        CompareTransitive(mode, r[j], r[k - 1], x);
      }
    }
    InsertedPairsInOrder(mode, r, x, k);
    InsertedOrderable(mode, r, x, k);
  }

  /** The pairs of the new sequence are in order once `x` is in order with every old entry. */
  lemma InsertedPairsInOrder(mode: SortMode, r: seq<Entry>, x: Entry, k: nat)
    requires SortedBy(mode, r) && k <= |r|
    requires forall j | 0 <= j < k :: Compare(mode, r[j], x) <= 0
    requires forall j | k <= j < |r| :: Compare(mode, x, r[j]) < 0
    ensures SortedBy(mode, r[..k] + [x] + r[k..])
  {
    var r' := r[..k] + [x] + r[k..];
    forall i, j | 0 <= i < j < |r'|
      ensures Compare(mode, r'[i], r'[j]) <= 0
    {
      if j == k {
        assert r'[i] == r[i] && r'[j] == x;
      } else if i == k {
        assert r'[i] == x && r'[j] == r[j - 1];
      } else {
        var i0 := if i < k then i else i - 1;
        var j0 := if j < k then j else j - 1;
        assert r'[i] == r[i0] && r'[j] == r[j0] && i0 < j0;
      }
    }
  }

  lemma InsertedOrderable(mode: SortMode, r: seq<Entry>, x: Entry, k: nat)
    requires Orderable(mode, r) && Sortable(mode, x) && k <= |r|
    ensures Orderable(mode, r[..k] + [x] + r[k..])
  {
    var r' := r[..k] + [x] + r[k..];
    forall i | 0 <= i < |r'|
      ensures Sortable(mode, r'[i])
    {
      if i < k {
        assert r'[i] == r[i];
      } else if k < i {
        assert r'[i] == r[i - 1];
      }
    }
  }
}
