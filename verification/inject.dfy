/**
 * The header rows of the grouped core list (create_manufacturer_header,
 * create_console_header) and the pass that interleaves them with the
 * sorted packages (core_updater_list_inject_dual_headers).
 *
 * `GroupedFrom` is the reference definition: each named package is
 * preceded by a manufacturer header when its manufacturer differs from
 * that of the previous named package, and by a console header when the
 * manufacturer or the console model differs.  The loop, which remembers
 * only the last header texts it compared against, is proved to produce
 * exactly that.
 */
module Headers {
  import opened Wrappers
  import opened CStrings
  import opened UpdaterEntry
  import opened Classifier

  function ManufacturerLabel(manufacturer: string): string
  {
    "=== " + manufacturer + " ==="
  }

  /** The release year is shown only when it is a plausible year. */
  function ConsoleLabel(model: string, year: int): string
  {
    if 0 < year < 9999 then "--- " + model + " (" + NatToString(year) + ") ---"
    else "--- " + model + " ---"
  }

  /** A header row: its label is both its name and its remote filename; every other field is empty. */
  function HeaderEntry(text: string, kind: Kind): Entry
  {
    Entry(text, [], [], [], text, [], None, false, 0, Date(0, 0, 0), kind)
  }

  /** create_manufacturer_header: no header for an empty manufacturer. */
  function CreateManufacturerHeader(manufacturer: string): (r: Option<Entry>)
    ensures r.Some? <==> manufacturer != []
    ensures r.Some? ==>
      && r.value.kind == ManufacturerHeader
      && r.value.displayName == r.value.remoteFilename == ManufacturerLabel(manufacturer)
      && r.value.description == [] && r.value.crc == 0 && !r.value.isExperimental
  {
    if manufacturer == [] then None else Some(HeaderEntry(ManufacturerLabel(manufacturer), ManufacturerHeader))
  }

  /** create_console_header: no header for an empty console model. */
  function CreateConsoleHeader(model: string, year: int): (r: Option<Entry>)
    ensures r.Some? <==> model != []
    ensures r.Some? ==>
      && r.value.kind == ConsoleHeader
      && r.value.displayName == r.value.remoteFilename == ConsoleLabel(model, year)
      && r.value.description == [] && r.value.crc == 0 && !r.value.isExperimental
  {
    if model == [] then None else Some(HeaderEntry(ConsoleLabel(model, year), ConsoleHeader))
  }

  /** The copy the injection makes of an original entry: a package, whatever it was. */
  function AsPackage(e: Entry): Entry
  {
    e.(kind := Package)
  }

  /** The headers that go before a named package with metadata `m`, after one with `prev`. */
  function HeadersBetween(prev: Option<Rule>, m: Rule): seq<Entry>
  {
    var newManufacturer := prev.None? || CaseCmp(prev.value.manufacturer, m.manufacturer) != 0;
    var newConsole := newManufacturer || CaseCmp(prev.value.consoleModel, m.consoleModel) != 0;
    (if newManufacturer then [HeaderEntry(ManufacturerLabel(m.manufacturer), ManufacturerHeader)] else [])
    + (if newConsole then [HeaderEntry(ConsoleLabel(m.consoleModel, m.releaseYear), ConsoleHeader)] else [])
  }

  /** Reference definition of the injected list; `prev` is the metadata of the last named package. */
  function GroupedFrom(es: seq<Entry>, prev: Option<Rule>): seq<Entry>
  {
    if es == [] then []
    else if es[0].displayName == [] then GroupedFrom(es[1..], prev)
    else
      var m := Classify(es[0].displayName);
      HeadersBetween(prev, m) + [AsPackage(es[0])] + GroupedFrom(es[1..], Some(m))
  }

  function WithHeaders(es: seq<Entry>): seq<Entry>
  {
    GroupedFrom(es, None)
  }

  /** The entries of `es` with a display name, as packages, in order. */
  function NamedPackages(es: seq<Entry>): seq<Entry>
  {
    if es == [] then []
    else if es[0].displayName == [] then NamedPackages(es[1..])
    else [AsPackage(es[0])] + NamedPackages(es[1..])
  }

  /** The packages of a list, in order, without its headers. */
  function Packages(es: seq<Entry>): seq<Entry>
  {
    if es == [] then []
    else if es[0].IsHeader() then Packages(es[1..])
    else [es[0]] + Packages(es[1..])
  }

  /**
   * The loop's memory agrees with the reference: it has seen a package
   * exactly when `prev` is set, and the texts it last emitted headers for
   * equal, case-insensitively, the previous package's manufacturer and
   * console model.
   */
  predicate Tracks(prev: Option<Rule>, lastManufacturer: Option<string>, lastConsoleModel: Option<string>)
  {
    && (prev.None? <==> lastManufacturer.None?)
    && (prev.Some? ==>
          && lastManufacturer.Some? && CaseCmp(lastManufacturer.value, prev.value.manufacturer) == 0
          && lastConsoleModel.Some? && CaseCmp(lastConsoleModel.value, prev.value.consoleModel) == 0)
  }

  /**
   * The header half of one iteration of core_updater_list_inject_dual_headers:
   * a manufacturer header when the manufacturer changes (which also
   * forgets the console model), then a console header when the console
   * model changes.
   */
  method EmitHeaders(lastManufacturer: Option<string>, lastConsoleModel: Option<string>, meta: Rule,
                     ghost prev: Option<Rule>)
    returns (hs: seq<Entry>, manufacturer': Option<string>, consoleModel': Option<string>)
    requires meta.manufacturer != [] && meta.consoleModel != []
    requires Tracks(prev, lastManufacturer, lastConsoleModel)
    ensures hs == HeadersBetween(prev, meta)
    ensures Tracks(Some(meta), manufacturer', consoleModel')
  {
    hs := [];
    manufacturer', consoleModel' := lastManufacturer, lastConsoleModel;
    if prev.Some? {
      CaseCmpCongruent(lastManufacturer.value, prev.value.manufacturer, meta.manufacturer);
      CaseCmpCongruent(lastConsoleModel.value, prev.value.consoleModel, meta.consoleModel);
    }
    if manufacturer'.None? || CaseCmp(manufacturer'.value, meta.manufacturer) != 0 {
      var header := CreateManufacturerHeader(meta.manufacturer);
      if header.Some? {
        hs := hs + [header.value];
      }
      manufacturer' := Some(meta.manufacturer);
      consoleModel' := None;
    }
    if consoleModel'.None? || CaseCmp(consoleModel'.value, meta.consoleModel) != 0 {
      var header := CreateConsoleHeader(meta.consoleModel, meta.releaseYear);
      if header.Some? {
        hs := hs + [header.value];
      }
      consoleModel' := Some(meta.consoleModel);
    }
    CaseCmpZero(meta.manufacturer, meta.manufacturer);
    CaseCmpZero(meta.consoleModel, meta.consoleModel);
    CaseCmpCongruent(manufacturer'.value, meta.manufacturer, meta.manufacturer);
    CaseCmpCongruent(consoleModel'.value, meta.consoleModel, meta.consoleModel);
  }

  /**
   * core_updater_list_inject_dual_headers, building `new_entries`: each
   * named package, in order, is copied after the headers its metadata
   * calls for; packages without a display name are skipped.
   */
  method InjectDualHeaders(es: seq<Entry>) returns (out: seq<Entry>)
    ensures out == WithHeaders(es)
  {
    out := [];
    var lastManufacturer: Option<string> := None;
    var lastConsoleModel: Option<string> := None;
    ghost var prev: Option<Rule> := None;
    var i := 0;
    while i < |es|
      invariant 0 <= i <= |es|
      invariant out + GroupedFrom(es[i..], prev) == WithHeaders(es)
      invariant Tracks(prev, lastManufacturer, lastConsoleModel)
    {
      var e := es[i];
      GroupedFromStep(es, i, prev);
      if e.displayName != [] {
        var meta := Classify(e.displayName);
        RowNamesSet(ClassifyIndex(e.displayName));
        var hs;
        hs, lastManufacturer, lastConsoleModel := EmitHeaders(lastManufacturer, lastConsoleModel, meta, prev);
        ghost var before := out;
        out := out + (hs + [AsPackage(e)]);
        AppendAssoc(before, hs + [AsPackage(e)], GroupedFrom(es[i + 1..], Some(meta)));
        prev := Some(meta);
      }
      i := i + 1;
    }
    assert es[i..] == [];
  }

  /** One step of the reference definition, at position `i`. */
  lemma GroupedFromStep(es: seq<Entry>, i: nat, prev: Option<Rule>)
    requires i < |es|
    ensures es[i].displayName == [] ==> GroupedFrom(es[i..], prev) == GroupedFrom(es[i + 1..], prev)
    ensures es[i].displayName != [] ==>
      var m := Classify(es[i].displayName);
      GroupedFrom(es[i..], prev) == (HeadersBetween(prev, m) + [AsPackage(es[i])]) + GroupedFrom(es[i + 1..], Some(m))
  {
    assert es[i..][0] == es[i] && es[i..][1..] == es[i + 1..];
  }

  lemma AppendAssoc(xs: seq<Entry>, ys: seq<Entry>, zs: seq<Entry>)
    ensures (xs + ys) + zs == xs + (ys + zs)
  {
  }

  /**
   * Injection keeps every named package, in order, and drops the
   * packages without a display name; everything else it adds is a header.
   */
  lemma {:induction false} GroupedKeepsPackages(es: seq<Entry>, prev: Option<Rule>)
    ensures Packages(GroupedFrom(es, prev)) == NamedPackages(es)
    decreases |es|
  {
    if es != [] {
      assert es[0..] == es;
      GroupedFromStep(es, 0, prev);
      if es[0].displayName == [] {
        GroupedKeepsPackages(es[1..], prev);
      } else {
        var m := Classify(es[0].displayName);
        var p := AsPackage(es[0]);
        var hs := HeadersBetween(prev, m);
        var rest := GroupedFrom(es[1..], Some(m));
        calc {
          Packages(GroupedFrom(es, prev));
          Packages((hs + [p]) + rest);
          { PackagesAppend(hs + [p], rest); }
          Packages(hs + [p]) + Packages(rest);
          { PackagesAppend(hs, [p]); HeadersBetweenHoldNoPackage(prev, m); assert Packages([p]) == [p]; }
          [p] + Packages(rest);
          { GroupedKeepsPackages(es[1..], Some(m)); }
          [p] + NamedPackages(es[1..]);
        }
      }
    }
  }

  lemma {:induction false} PackagesAppend(xs: seq<Entry>, ys: seq<Entry>)
    ensures Packages(xs + ys) == Packages(xs) + Packages(ys)
    decreases |xs|
  {
    if xs != [] {
      assert (xs + ys)[1..] == xs[1..] + ys;
      PackagesAppend(xs[1..], ys);
    } else {
      assert xs + ys == ys;
    }
  }

  lemma HeadersBetweenHoldNoPackage(prev: Option<Rule>, m: Rule)
    ensures Packages(HeadersBetween(prev, m)) == []
  {
    PackagesOfHeaders(HeadersBetween(prev, m));
  }

  lemma PackagesOfHeaders(hs: seq<Entry>)
    requires forall i | 0 <= i < |hs| :: hs[i].IsHeader()
    ensures Packages(hs) == []
    decreases |hs|
  {
    if hs != [] {
      PackagesOfHeaders(hs[1..]);
    }
  }

  /**
   * The injected list opens with a manufacturer header whenever it is not
   * empty, and it is empty exactly when no entry has a display name.
   */
  lemma {:induction false} GroupedStartsWithManufacturer(es: seq<Entry>)
    ensures WithHeaders(es) == [] <==> NamedPackages(es) == []
    ensures WithHeaders(es) != [] ==> WithHeaders(es)[0].kind == ManufacturerHeader
    decreases |es|
  {
    if es != [] && es[0].displayName == [] {
      GroupedStartsWithManufacturer(es[1..]);
    }
  }

  /** No header is left without content: a manufacturer header is followed by a console header, a console header by a package. */
  predicate HeadersHaveContent(out: seq<Entry>)
  {
    forall i | 0 <= i < |out| :: HasContentAt(out, i)
  }

  predicate HasContentAt(out: seq<Entry>, i: nat)
    requires i < |out|
  {
    && (out[i].kind == ManufacturerHeader ==> i + 1 < |out| && out[i + 1].kind == ConsoleHeader)
    && (out[i].kind == ConsoleHeader ==> i + 1 < |out| && out[i + 1].kind == Package)
  }

  lemma ContentAppend(xs: seq<Entry>, ys: seq<Entry>)
    requires HeadersHaveContent(xs) && HeadersHaveContent(ys)
    requires xs != [] ==> !xs[|xs| - 1].IsHeader()
    ensures HeadersHaveContent(xs + ys)
  {
    var zs := xs + ys;
    forall i | 0 <= i < |zs|
      ensures HasContentAt(zs, i)
    {
      if i + 1 < |xs| {
        assert HasContentAt(xs, i);
        assert zs[i] == xs[i] && zs[i + 1] == xs[i + 1];
      } else if i + 1 == |xs| {
        assert zs[i] == xs[|xs| - 1];
      } else {
        var j := i - |xs|;
        assert HasContentAt(ys, j);
        assert zs[i] == ys[j];
        if zs[i].IsHeader() {
          assert zs[i + 1] == ys[j + 1];
        }
      }
    }
  }

  /** The headers before one package never dangle: HeadersBetween emits a manufacturer header only with a console header. */
  lemma GroupHasContent(prev: Option<Rule>, m: Rule, p: Entry)
    requires !p.IsHeader()
    ensures HeadersHaveContent(HeadersBetween(prev, m) + [p])
  {
    var hs := HeadersBetween(prev, m);
    var g := hs + [p];
    assert |hs| <= 2;
    assert |hs| == 2 ==> g[0].kind == ManufacturerHeader && g[1].kind == ConsoleHeader;
    assert |hs| == 1 ==> g[0].kind == ConsoleHeader;
    assert g[|g| - 1] == p;
    forall i | 0 <= i < |g|
      ensures HasContentAt(g, i)
    {
    }
  }

  lemma {:induction false} GroupedHeadersHaveContent(es: seq<Entry>, prev: Option<Rule>)
    ensures HeadersHaveContent(GroupedFrom(es, prev))
    decreases |es|
  {
    if es != [] {
      GroupedHeadersHaveContent(es[1..], prev);
      if es[0].displayName != [] {
        var m := Classify(es[0].displayName);
        GroupedHeadersHaveContent(es[1..], Some(m));
        var group := HeadersBetween(prev, m) + [AsPackage(es[0])];
        GroupHasContent(prev, m, AsPackage(es[0]));
        ContentAppend(group, GroupedFrom(es[1..], Some(m)));
      }
    }
  }
}
