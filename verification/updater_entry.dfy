/**
 * One core updater list entry and the setters that build it from a
 * listing (core_updater_list.c, set_date / set_crc / set_paths /
 * set_core_info and the per-listing glue of add_entry / add_pfd_entry).
 *
 * The path utilities, URL encoder, info-file reader and string splitter
 * are not part of this model: they are fields of `Platform`, passed in.
 */
module UpdaterEntry {
  import opened Wrappers
  import opened CStrings

  /** The delivery method a list was built from. */
  datatype ListType = Unknown | Buildbot | Pfd

  datatype Date = Date(year: nat, month: nat, day: nat)

  /** An entry is a real package, or one of the two kinds of synthetic header row. */
  datatype Kind = Package | ManufacturerHeader | ConsoleHeader

  datatype Entry = Entry(
    remoteFilename: string,
    remoteCorePath: string,
    localCorePath: string,
    localInfoPath: string,
    displayName: string,
    description: string,
    licenses: Option<seq<string>>,
    isExperimental: bool,
    crc: nat,
    date: Date,
    kind: Kind)
  {
    predicate IsHeader() { kind != Package }
  }

  /** What the info-file reader returns; a NULL string field is "". */
  datatype CoreUpdaterInfo = CoreUpdaterInfo(
    displayName: string,
    description: string,
    licenses: string,
    isExperimental: bool)

  /** The foreign helpers set_paths and set_core_info call. */
  datatype Platform = Platform(
    join: (string, string) -> string,         // fill_pathname_join_special
    isCompressed: string -> bool,             // path_is_compressed_file
    removeExtension: string -> string,        // path_remove_extension
    realpath: (string, bool) -> string,       // path_resolve_realpath(path, resolve_symlinks)
    urlEncode: string -> string,              // net_http_urlencode_full
    readInfo: string -> Option<CoreUpdaterInfo>, // core_info_get_core_updater_info
    split: (string, string) -> seq<string>)   // string_split

  /** The directories and base URL every listing is resolved against. */
  datatype Config = Config(
    pathDirLibretro: string,
    pathLibretroInfo: string,
    buildbotUrl: string)

  /** FILE_PATH_CORE_INFO_EXTENSION */
  const InfoExtension: string := ".info"

  /** The one core-name suffix the info path keeps. */
  const LibretroSuffix: string := "_libretro"

  /**
   * set_date: the first three '-'-separated tokens become year, month and
   * day; fewer than three tokens is a failure.
   */
  function SetDate(s: string): (r: Option<Date>)
    ensures r.Some? <==> |Tokens(s, '-')| >= 3
    ensures r.Some? ==> r.value.year < U32 && r.value.month < U32 && r.value.day < U32
    ensures r.Some? ==>
      var t := Tokens(s, '-');
      r.value == Date(StringToUnsigned(t[0]), StringToUnsigned(t[1]), StringToUnsigned(t[2]))
  {
    var t := Tokens(s, '-');
    if s == [] || |t| < 3 then None
    else Some(Date(StringToUnsigned(t[0]), StringToUnsigned(t[1]), StringToUnsigned(t[2])))
  }

  /**
   * set_crc: the hexadecimal value of the text, refused when the text is
   * empty or its value is 0, so a checksum of zero cannot be stored.
   */
  function SetCrc(s: string): (r: Option<nat>)
    ensures r.Some? <==> s != [] && HexToUnsigned(s) != 0
    ensures r.Some? ==> 0 < r.value < U32 && r.value == HexToUnsigned(s)
  {
    if s == [] then None
    else
      var crc := HexToUnsigned(s);
      if crc == 0 then None else Some(crc)
  }

  /** Every spelling of zero is refused as a checksum. */
  lemma ZeroCrcRefused(s: string)
    requires forall i :: 0 <= i < |s| ==> s[i] == '0'
    ensures SetCrc(s).None?
  {
    var h := HexBody(s);
    assert forall i :: 0 <= i < |h| ==> h[i] == '0';
    HexValueOfZeros(h);
  }

  /**
   * The underscore rule of set_paths: cut the path at its last '_' unless
   * what follows from that '_' on is exactly "_libretro".
   */
  function StripPlatformSuffix(p: string): (r: string)
    ensures r <= p
    ensures r == p <==> '_' !in p || p[LastIndexOf(p, '_').value..] == LibretroSuffix
    ensures r != p ==> p[|r|] == '_' && '_' !in p[|r| + 1..] && p[|r|..] != LibretroSuffix
  {
    match LastIndexOf(p, '_')
    case None => p
    case Some(k) => if p[k..] == LibretroSuffix then p else p[..k]
  }

  /**
   * Where the info file of a package lives: the joined path loses one
   * extension, a second one for an archive, then its platform suffix, and
   * gains the info extension.
   */
  function InfoPath(pl: Platform, infoDir: string, filename: string): (r: string)
    ensures |r| >= |InfoExtension| && r[|r| - |InfoExtension|..] == InfoExtension
    ensures var once := pl.removeExtension(pl.join(infoDir, filename));
      var base := if pl.isCompressed(filename) then pl.removeExtension(once) else once;
      r == StripPlatformSuffix(base) + InfoExtension
  {
    var joined := pl.join(infoDir, filename);
    var once := pl.removeExtension(joined);
    var base := if pl.isCompressed(filename) then pl.removeExtension(once) else once;
    var stem := StripPlatformSuffix(base);
    assert (stem + InfoExtension)[|stem|..] == InfoExtension;
    stem + InfoExtension
  }

  datatype Paths = Paths(
    remoteFilename: string,
    remoteCorePath: string,
    localCorePath: string,
    localInfoPath: string)

  /**
   * set_paths: fails on an empty filename or directory, and on a buildbot
   * list without a base URL.  Only buildbot packages get a remote path;
   * symlinks are resolved unless the list comes from feature delivery.
   */
  function SetPaths(pl: Platform, cfg: Config, filename: string, listType: ListType): (r: Option<Paths>)
    ensures r.None? <==>
      filename == [] || cfg.pathDirLibretro == [] || cfg.pathLibretroInfo == []
      || (listType == Buildbot && cfg.buildbotUrl == [])
    ensures r.Some? ==> r.value.remoteFilename == filename
    ensures r.Some? ==> (r.value.remoteCorePath == [] <== listType != Buildbot)
    ensures r.Some? && listType == Buildbot ==>
      r.value.remoteCorePath == pl.urlEncode(pl.join(cfg.buildbotUrl, filename))
    ensures r.Some? ==>
      var joined := pl.join(cfg.pathDirLibretro, filename);
      var stripped := if pl.isCompressed(filename) then pl.removeExtension(joined) else joined;
      r.value.localCorePath == pl.realpath(stripped, listType != Pfd)
    ensures r.Some? ==> r.value.localInfoPath == InfoPath(pl, cfg.pathLibretroInfo, filename)
  {
    if filename == [] || cfg.pathDirLibretro == [] || cfg.pathLibretroInfo == [] then None
    else if listType == Buildbot && cfg.buildbotUrl == [] then None
    else
      var isArchive := pl.isCompressed(filename);
      var remote := if listType == Buildbot then pl.urlEncode(pl.join(cfg.buildbotUrl, filename)) else [];
      var joined := pl.join(cfg.pathDirLibretro, filename);
      var local := pl.realpath(if isArchive then pl.removeExtension(joined) else joined, listType != Pfd);
      Some(Paths(filename, remote, local, InfoPath(pl, cfg.pathLibretroInfo, filename)))
  }

  datatype CoreMeta = CoreMeta(
    displayName: string,
    description: string,
    licenses: Option<seq<string>>,
    isExperimental: bool)

  /**
   * set_core_info: fails only on an empty info path or filename.  The
   * display name comes from the info file when it has one, and otherwise
   * is the filename with the core marked experimental; the description
   * falls back to "".
   */
  function SetCoreInfo(pl: Platform, localInfoPath: string, filename: string): (r: Option<CoreMeta>)
    ensures r.None? <==> localInfoPath == [] || filename == []
    ensures r.Some? ==> r.value.displayName != []
    ensures r.Some? ==>
      match pl.readInfo(localInfoPath)
      case None =>
        r.value == CoreMeta(filename, [], None, true)
      case Some(info) =>
        && (info.displayName != [] ==> r.value.displayName == info.displayName && r.value.isExperimental == info.isExperimental)
        && (info.displayName == [] ==> r.value.displayName == filename && r.value.isExperimental)
        && r.value.description == info.description
        && (r.value.licenses.Some? <==> info.licenses != [])
        && (r.value.licenses.Some? ==> r.value.licenses.value == pl.split(info.licenses, "|"))
  {
    if localInfoPath == [] || filename == [] then None
    else
      match pl.readInfo(localInfoPath)
      case None => Some(CoreMeta(filename, [], None, true))
      case Some(info) =>
        var name := if info.displayName != [] then info.displayName else filename;
        var experimental := if info.displayName != [] then info.isExperimental else true;
        var licenses := if info.licenses != [] then Some(pl.split(info.licenses, "|")) else None;
        Some(CoreMeta(name, info.description, licenses, experimental))
  }

  /** A package entry made from resolved paths and info, the way push_entry stores it. */
  function MakeEntry(paths: Paths, meta: CoreMeta, crc: nat, date: Date): Entry
  {
    Entry(paths.remoteFilename, paths.remoteCorePath, paths.localCorePath, paths.localInfoPath,
          meta.displayName, meta.description, meta.licenses, meta.isExperimental, crc, date, Package)
  }

  /**
   * The entry add_entry builds from one buildbot listing line, before the
   * duplicate check: date, crc, paths and info in that order, any failure
   * discarding the line.
   */
  function BuildbotEntry(pl: Platform, cfg: Config, dateStr: string, crcStr: string, filename: string): (r: Option<Entry>)
    ensures r.Some? <==>
      SetDate(dateStr).Some? && SetCrc(crcStr).Some? && SetPaths(pl, cfg, filename, Buildbot).Some?
    ensures r.Some? ==>
      && r.value.kind == Package
      && r.value.remoteFilename == filename
      && r.value.displayName != []
      && r.value.crc == SetCrc(crcStr).value
      && r.value.date == SetDate(dateStr).value
  {
    match SetDate(dateStr)
    case None => None
    case Some(date) =>
      match SetCrc(crcStr)
      case None => None
      case Some(crc) =>
        match SetPaths(pl, cfg, filename, Buildbot)
        case None => None
        case Some(paths) =>
          match SetCoreInfo(pl, paths.localInfoPath, filename)
          case None => None
          case Some(meta) => Some(MakeEntry(paths, meta, crc, date))
  }

  /**
   * The entry add_pfd_entry builds from one feature-delivery filename:
   * no date, no checksum, no remote path.
   */
  function PfdEntry(pl: Platform, cfg: Config, filename: string): (r: Option<Entry>)
    ensures r.Some? <==> filename != [] && cfg.pathDirLibretro != [] && cfg.pathLibretroInfo != []
    ensures r.Some? ==>
      && r.value.kind == Package
      && r.value.remoteFilename == filename
      && r.value.displayName != []
      && r.value.crc == 0 && r.value.date == Date(0, 0, 0)
      && r.value.remoteCorePath == []
  {
    if filename == [] then None
    else
      match SetPaths(pl, cfg.(buildbotUrl := []), filename, Pfd)
      case None => None
      case Some(paths) =>
        match SetCoreInfo(pl, paths.localInfoPath, filename)
        case None => None
        case Some(meta) => Some(MakeEntry(paths, meta, 0, Date(0, 0, 0)))
  }

  lemma DecimalExamples()
    ensures StringToUnsigned("2021") == 2021
    ensures StringToUnsigned("07") == 7
    ensures StringToUnsigned("04") == 4
  {
    YearExample();
    assert DecimalValue("07") == 7 by {
      assert "07"[..1] == "0" && "0"[..0] == [];
    }
    assert DecimalValue("04") == 4 by {
      assert "04"[..1] == "0" && "0"[..0] == [];
    }
  }

  lemma YearExample()
    ensures DecimalValue("2021") == 2021
  {
    assert "2021"[..3] == "202" && "202"[..2] == "20" && "20"[..1] == "2" && "2"[..0] == [];
    assert DecimalValue("2") == 2;
    assert DecimalValue("20") == 20;
    assert DecimalValue("202") == 202;
  }

  /** Three '-'-separated fields parse; two do not. */
  lemma DateExamples()
    ensures SetDate("2021-07-04") == Some(Date(2021, 7, 4))
    ensures SetDate("2021-07").None?
  {
    TokensJoin(["2021", "07", "04"], '-');
    assert Join(["2021", "07", "04"], '-') == "2021-07-04";
    TokensJoin(["2021", "07"], '-');
    assert Join(["2021", "07"], '-') == "2021-07";
    DecimalExamples();
  }

  /** Zero checksums and one-character texts are refused; a full eight-digit checksum is read. */
  lemma CrcExamples()
    ensures SetCrc("0").None? && SetCrc("00000000").None?
    ensures SetCrc("1a2b3c4d") == Some(0x1a2b3c4d)
    ensures SetCrc("5").None?
  {
    ZeroCrcRefused("0");
    ZeroCrcRefused("00000000");
    assert HexBody("1a2b3c4d") == "1a2b3c4d";
    HexValueExample();
  }

  lemma HexValueExample()
    ensures HexValue("1a2b3c4d") == 0x1a2b3c4d
  {
    var h := "1a2b3c4d";
    assert h[..7] == "1a2b3c4" && h[..6] == "1a2b3c" && h[..5] == "1a2b3";
    assert h[..4] == "1a2b" && h[..3] == "1a2" && h[..2] == "1a" && h[..1] == "1";
    assert HexValue("1") == 1 by { assert "1"[..0] == []; }
    assert HexValue("1a") == 0x1a by { assert "1a"[..1] == "1"; }
    assert HexValue("1a2") == 0x1a2 by { assert "1a2"[..2] == "1a"; }
    assert HexValue("1a2b") == 0x1a2b by { assert "1a2b"[..3] == "1a2"; }
    assert HexValue("1a2b3") == 0x1a2b3 by { assert "1a2b3"[..4] == "1a2b"; }
    assert HexValue("1a2b3c") == 0x1a2b3c by { assert "1a2b3c"[..5] == "1a2b3"; }
    assert HexValue("1a2b3c4") == 0x1a2b3c4 by { assert "1a2b3c4"[..6] == "1a2b3c"; }
  }
}
