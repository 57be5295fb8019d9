/**
 * The core updater list itself (core_updater_list_t): its entries, grown
 * in place as listings are ingested, deduplicated by remote filename,
 * then sorted and grouped under headers; and the cached ("global") list.
 */
module UpdaterList {
  import opened Wrappers
  import opened CStrings
  import opened UpdaterEntry
  import opened Grouping
  import opened Headers

  /** A list already holds a package with this remote filename (core_updater_list_get_filename finds it). */
  predicate HasFilename(es: seq<Entry>, name: string)
  {
    name != [] && exists j | 0 <= j < |es| :: es[j].remoteFilename == name
  }

  /** What one add_entry / add_pfd_entry call does to the entries: push the candidate unless it is missing or a duplicate. */
  function Admit(es: seq<Entry>, candidate: Option<Entry>): seq<Entry>
  {
    match candidate
    case None => es
    case Some(e) => if HasFilename(es, e.remoteFilename) then es else es + [AsPackage(e)]
  }

  /** The three space-separated fields of one listing line, when it has them. */
  function LineEntry(pl: Platform, cfg: Config, line: string): Option<Entry>
  {
    var fields := Tokens(line, ' ');
    if |fields| >= 3 then BuildbotEntry(pl, cfg, fields[0], fields[1], fields[2]) else None
  }

  /** The lines parse_network_data walks: strtok_r over the data up to its first NUL. */
  function NetworkLines(data: string): seq<string>
  {
    Tokens(CStr(data), '\n')
  }

  /** The entries a listing leaves in a freshly reset list, before sorting. */
  function IngestLines(pl: Platform, cfg: Config, lines: seq<string>): seq<Entry>
  {
    if lines == [] then []
    else Admit(IngestLines(pl, cfg, lines[..|lines| - 1]), LineEntry(pl, cfg, lines[|lines| - 1]))
  }

  /** The entries a feature-delivery name list leaves in a freshly reset list, before sorting. */
  function IngestPfd(pl: Platform, cfg: Config, names: seq<string>): seq<Entry>
  {
    if names == [] then []
    else
      var name := names[|names| - 1];
      var es := IngestPfd(pl, cfg, names[..|names| - 1]);
      if name == [] then es else Admit(es, PfdEntry(pl, cfg, name))
  }

  /** No two entries share a remote filename, and each is a named package. */
  predicate WellFormedIngest(es: seq<Entry>)
  {
    && (forall i, j | 0 <= i < j < |es| :: es[i].remoteFilename != es[j].remoteFilename)
    && (forall i | 0 <= i < |es| :: es[i].kind == Package && es[i].displayName != [] && es[i].remoteFilename != [])
  }

  /** A candidate as add_entry / add_pfd_entry build them: a named package with a remote filename. */
  predicate GoodCandidate(c: Option<Entry>)
  {
    c.Some? ==> c.value.kind == Package && c.value.displayName != [] && c.value.remoteFilename != []
  }

  lemma AdmitKeepsWellFormed(es: seq<Entry>, c: Option<Entry>)
    requires WellFormedIngest(es) && GoodCandidate(c)
    ensures WellFormedIngest(Admit(es, c))
    ensures |Admit(es, c)| <= |es| + 1
  {
    if c.Some? && !HasFilename(es, c.value.remoteFilename) {
      var r := Admit(es, c);
      forall i, j | 0 <= i < j < |r|
        ensures r[i].remoteFilename != r[j].remoteFilename
      {
        if j == |es| {
          assert r[i] == es[i];
        }
      }
    }
  }

  /**
   * Deduplication: after ingesting a buildbot listing no two entries share
   * a remote filename, and every entry is a package with a display name.
   */
  lemma {:induction false} IngestLinesWellFormed(pl: Platform, cfg: Config, lines: seq<string>)
    ensures WellFormedIngest(IngestLines(pl, cfg, lines))
    decreases |lines|
  {
    if lines != [] {
      IngestLinesWellFormed(pl, cfg, lines[..|lines| - 1]);
      AdmitKeepsWellFormed(IngestLines(pl, cfg, lines[..|lines| - 1]), LineEntry(pl, cfg, lines[|lines| - 1]));
    }
  }

  /** The same for a feature-delivery name list. */
  lemma {:induction false} IngestPfdWellFormed(pl: Platform, cfg: Config, names: seq<string>)
    ensures WellFormedIngest(IngestPfd(pl, cfg, names))
    decreases |names|
  {
    if names != [] {
      IngestPfdWellFormed(pl, cfg, names[..|names| - 1]);
      var name := names[|names| - 1];
      if name != [] {
        AdmitKeepsWellFormed(IngestPfd(pl, cfg, names[..|names| - 1]), PfdEntry(pl, cfg, name));
      }
    }
  }

  /** `s` is what qsort may leave of `before` with this comparator. */
  predicate IsSortingOf(mode: SortMode, s: seq<Entry>, before: seq<Entry>)
  {
    multiset(s) == multiset(before) && (Orderable(mode, before) ==> SortedBy(mode, s))
  }

  /**
   * core_updater_list_qsort_wizmodl: a list of fewer than two entries is
   * left alone; otherwise it is sorted and, when the injection produced
   * anything, replaced by the injected list.
   */
  ghost predicate GroupedOutcome(before: seq<Entry>, after: seq<Entry>)
  {
    if |before| < 2 then after == before
    else exists s: seq<Entry> :: IsSortingOf(Grouped, s, before) && after == (if WithHeaders(s) == [] then s else WithHeaders(s))
  }

  lemma {:induction false} NamedPackagesOfPackages(es: seq<Entry>)
    requires forall i | 0 <= i < |es| :: es[i].kind == Package && es[i].displayName != []
    ensures NamedPackages(es) == es
    decreases |es|
  {
    if es != [] {
      NamedPackagesOfPackages(es[1..]);
      assert es == [es[0]] + es[1..];
    }
  }

  lemma {:induction false} PackagesOfPackages(es: seq<Entry>)
    requires forall i | 0 <= i < |es| :: es[i].kind == Package
    ensures Packages(es) == es
    decreases |es|
  {
    if es != [] {
      PackagesOfPackages(es[1..]);
      assert es == [es[0]] + es[1..];
    }
  }

  /**
   * After ingestion and grouping, stripping the headers gives back exactly
   * the ingested packages, sorted by the grouped comparator; and a list of
   * two or more packages always opens with a manufacturer header.
   */
  lemma GroupedOutcomeKeepsPackages(before: seq<Entry>, after: seq<Entry>)
    requires WellFormedIngest(before) && GroupedOutcome(before, after)
    ensures multiset(Packages(after)) == multiset(before)
    ensures SortedBy(Grouped, Packages(after))
    ensures |before| >= 2 ==> after[0].kind == ManufacturerHeader
  {
    if |before| < 2 {
      PackagesOfPackages(before);
      if |before| == 1 {
      }
    } else {
      var s :| IsSortingOf(Grouped, s, before) && after == (if WithHeaders(s) == [] then s else WithHeaders(s));
      assert Orderable(Grouped, before);
      forall i | 0 <= i < |s|
        ensures s[i].kind == Package && s[i].displayName != []
      {
        assert s[i] in multiset(before);
      }
      NamedPackagesOfPackages(s);
      GroupedKeepsPackages(s, None);
      GroupedStartsWithManufacturer(s);
      assert Packages(after) == s;
    }
  }

  class CoreUpdaterList {
    var entries: seq<Entry>
    var listType: ListType

    /** core_updater_list_init: an empty list of unknown type. */
    constructor ()
      ensures entries == [] && listType == Unknown
    {
      entries := [];
      listType := Unknown;
    }

    /** core_updater_list_reset (and the observable part of core_updater_list_free). */
    method Reset()
      modifies this
      ensures entries == [] && listType == Unknown
    {
      entries := [];
      listType := Unknown;
    }

    /** core_updater_list_size */
    function Size(): (n: nat)
      reads this
      ensures n == |entries|
      ensures n == 0 <==> entries == []
    {
      |entries|
    }

    /** core_updater_list_get_type */
    function GetType(): (t: ListType)
      reads this
      ensures t == listType
    {
      listType
    }

    /** core_updater_list_get_index: fails on an index past the end. */
    function GetIndex(idx: nat): (r: Option<Entry>)
      reads this
      ensures r.Some? <==> idx < |entries|
      ensures r.Some? ==> r.value == entries[idx]
    {
      if idx < |entries| then Some(entries[idx]) else None
    }

    /**
     * core_updater_list_get_filename: the first entry whose remote filename
     * equals `name`; an empty name is never found.
     */
    method GetFilename(name: string) returns (r: Option<nat>)
      ensures r.Some? <==> HasFilename(entries, name)
      ensures r.Some? ==> r.value < |entries| && entries[r.value].remoteFilename == name
      ensures r.Some? ==> forall j | 0 <= j < r.value :: entries[j].remoteFilename != name
    {
      if name == [] || |entries| < 1 {
        return None;
      }
      var i := 0;
      while i < |entries|
        invariant 0 <= i <= |entries|
        invariant forall j | 0 <= j < i :: entries[j].remoteFilename != name
      {
        var current := entries[i].remoteFilename;
        if current != [] && current == name {
          return Some(i);
        }
        i := i + 1;
      }
      return None;
    }

    /** core_updater_list_push_entry: append a copy, which is never a header. */
    method PushEntry(e: Entry)
      modifies this
      ensures entries == old(entries) + [AsPackage(e)]
      ensures listType == old(listType)
    {
      entries := entries + [AsPackage(e)];
    }

    /** core_updater_list_add_entry: one buildbot listing, skipped when a duplicate or malformed. */
    method AddEntry(pl: Platform, cfg: Config, dateStr: string, crcStr: string, filename: string)
      modifies this
      ensures entries == Admit(old(entries), BuildbotEntry(pl, cfg, dateStr, crcStr, filename))
      ensures listType == old(listType)
    {
      var found := GetFilename(filename);
      if found.Some? {
        return;
      }
      var e := BuildbotEntry(pl, cfg, dateStr, crcStr, filename);
      if e.Some? {
        PushEntry(e.value);
      }
    }

    /** core_updater_list_add_pfd_entry: one feature-delivery core, skipped when a duplicate or unresolvable. */
    method AddPfdEntry(pl: Platform, cfg: Config, filename: string)
      modifies this
      ensures entries == Admit(old(entries), PfdEntry(pl, cfg, filename))
      ensures listType == old(listType)
    {
      if filename == [] {
        return;
      }
      var found := GetFilename(filename);
      if found.Some? {
        return;
      }
      var e := PfdEntry(pl, cfg, filename);
      if e.Some? {
        PushEntry(e.value);
      }
    }

    /** core_updater_list_qsort_wizmodl */
    method QsortWizmodl()
      modifies this
      ensures GroupedOutcome(old(entries), entries)
      ensures listType == old(listType)
    {
      if |entries| < 2 {
        return;
      }
      var sorted := Sort(Grouped, entries);
      var injected := InjectDualHeaders(sorted);
      if |injected| > 0 {
        entries := injected;
      } else {
        entries := sorted;
      }
    }

    /** core_updater_list_qsort: display-name order, unless fewer than two entries. */
    method Qsort()
      modifies this
      ensures |old(entries)| < 2 ==> entries == old(entries)
      ensures |old(entries)| >= 2 ==> IsSortingOf(Alphabetical, entries, old(entries))
      ensures listType == old(listType)
    {
      if |entries| < 2 {
        return;
      }
      entries := Sort(Alphabetical, entries);
    }

    /**
     * core_updater_list_parse_network_data.  `data` is the received
     * buffer (`len` characters, not terminated).  Empty data leaves the
     * list untouched; otherwise the list is reset, and the parse fails
     * when the data has no newline before its first NUL or when no line
     * yields an entry.
     */
    method ParseNetworkData(pl: Platform, cfg: Config, data: string) returns (ok: bool)
      modifies this
      ensures data == [] || data[0] == '\0' ==>
        !ok && entries == old(entries) && listType == old(listType)
      ensures !(data == [] || data[0] == '\0') ==>
        var pushed := IngestLines(pl, cfg, NetworkLines(data));
        && (ok <==> '\n' in CStr(data) && pushed != [])
        && (!ok ==> entries == [] && listType == Unknown)
        && (ok ==> listType == Buildbot && GroupedOutcome(pushed, entries))
    {
      if data == [] || data[0] == '\0' {
        return false;
      }
      Reset();
      var text := CStr(data);
      if '\n' !in text {
        return false;
      }
      var lines := Tokens(text, '\n');
      var i := 0;
      while i < |lines|
        invariant 0 <= i <= |lines|
        invariant entries == IngestLines(pl, cfg, lines[..i])
        invariant listType == Unknown
      {
        var line := lines[i];
        var fields := Tokens(line, ' ');
        if |fields| >= 3 {
          AddEntry(pl, cfg, fields[0], fields[1], fields[2]);
        }
        assert lines[..i + 1][..i] == lines[..i];
        i := i + 1;
      }
      assert lines[..i] == lines;
      if |entries| < 1 {
        return false;
      }
      QsortWizmodl();
      listType := Buildbot;
      return true;
    }

    /**
     * core_updater_list_parse_pfd_data.  An empty name list leaves the list
     * untouched; otherwise the list is reset, and the parse fails when no
     * name yields an entry.
     */
    method ParsePfdData(pl: Platform, cfg: Config, names: seq<string>) returns (ok: bool)
      modifies this
      ensures names == [] ==> !ok && entries == old(entries) && listType == old(listType)
      ensures names != [] ==>
        var pushed := IngestPfd(pl, cfg, names);
        && (ok <==> pushed != [])
        && (!ok ==> entries == [] && listType == Unknown)
        && (ok ==> listType == Pfd && GroupedOutcome(pushed, entries))
    {
      if |names| < 1 {
        return false;
      }
      Reset();
      var i := 0;
      while i < |names|
        invariant 0 <= i <= |names|
        invariant entries == IngestPfd(pl, cfg, names[..i])
        invariant listType == Unknown
      {
        var name := names[i];
        if name != [] {
          AddPfdEntry(pl, cfg, name);
        }
        assert names[..i + 1][..i] == names[..i];
        i := i + 1;
      }
      assert names[..i] == names;
      if |entries| < 1 {
        return false;
      }
      QsortWizmodl();
      listType := Pfd;
      return true;
    }
  }

  /** The cached ("global") list slot, core_list_cached. */
  class CoreListCache {
    var cached: CoreUpdaterList?

    constructor ()
      ensures cached == null
    {
      cached := null;
    }

    /** core_updater_list_init_cached: any previous list is dropped and a fresh, empty one cached. */
    method InitCached() returns (ok: bool)
      modifies this
      ensures ok && cached != null && fresh(cached)
      ensures cached.entries == [] && cached.listType == Unknown
    {
      cached := new CoreUpdaterList();
      return true;
    }

    /** core_updater_list_get_cached */
    function GetCached(): (r: CoreUpdaterList?)
      reads this
      ensures r == cached
    {
      cached
    }

    /** core_updater_list_free_cached */
    method FreeCached()
      modifies this
      ensures cached == null
    {
      cached := null;
    }
  }
}
