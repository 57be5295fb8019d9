/**
 * The WizModl metadata table of core_updater_list.c and its lookup: a
 * display name is classified by the first row, in table order, whose
 * core-name pattern occurs in it; an empty name, or a name no row
 * matches, gets the final "Unknown" row.
 */
module Classifier {
  import opened Wrappers
  import opened CStrings

  /** One row of core_metadata_wizmodl_db. */
  datatype Rule = Rule(
    pattern: Option<string>,     // core_name; NULL only in the fallback row
    manufacturer: string,
    consoleModel: string,
    consoleType: string,
    releaseYear: int,
    manufacturerPriority: int,
    consolePriority: int)

  /** Index of the last row, returned when nothing matches. */
  const Fallback: nat := 87

  /** The columns of a row after the core-name pattern: the console it stands for. */
  datatype Console = Console(
    manufacturer: string,
    consoleModel: string,
    consoleType: string,
    releaseYear: int,
    manufacturerPriority: int,
    consolePriority: int)

  const NintendoEntertainmentSystem      := Console("Nintendo", "Nintendo Entertainment System", "home", 1983, 1, 10)
  const SuperNintendoEntertainmentSystem := Console("Nintendo", "Super Nintendo Entertainment System", "home", 1990, 1, 20)
  const Nintendo64                       := Console("Nintendo", "Nintendo 64", "home", 1996, 1, 30)
  const NintendoGameCube                 := Console("Nintendo", "Nintendo GameCube", "home", 2001, 1, 40)
  const NintendoWii                      := Console("Nintendo", "Nintendo Wii", "home", 2006, 1, 50)
  const GameBoy                          := Console("Nintendo", "Game Boy", "portable", 1989, 1, 100)
  const GameBoyColor                     := Console("Nintendo", "Game Boy Color", "portable", 1998, 1, 110)
  const GameBoyAdvance                   := Console("Nintendo", "Game Boy Advance", "portable", 2001, 1, 120)
  const NintendoDS                       := Console("Nintendo", "Nintendo DS", "portable", 2004, 1, 130)
  const Nintendo3DS                      := Console("Nintendo", "Nintendo 3DS", "portable", 2011, 1, 140)
  const PlayStation                      := Console("Sony", "PlayStation", "home", 1994, 2, 10)
  const PlayStation2                     := Console("Sony", "PlayStation 2", "home", 2000, 2, 20)
  const PlayStation3                     := Console("Sony", "PlayStation 3", "home", 2006, 2, 30)
  const PlayStationPortable              := Console("Sony", "PlayStation Portable", "portable", 2004, 2, 100)
  const PlayStationVita                  := Console("Sony", "PlayStation Vita", "portable", 2011, 2, 110)
  const SegaMasterSystem                 := Console("Sega", "Sega Master System", "home", 1986, 3, 10)
  const SegaGenesisMegaDrive             := Console("Sega", "Sega Genesis/Mega Drive", "home", 1988, 3, 20)
  const SegaCD                           := Console("Sega", "Sega CD", "home", 1991, 3, 25)
  const Sega32X                          := Console("Sega", "Sega 32X", "home", 1994, 3, 28)
  const SegaSaturn                       := Console("Sega", "Sega Saturn", "home", 1994, 3, 30)
  const SegaDreamcast                    := Console("Sega", "Sega Dreamcast", "home", 1998, 3, 40)
  const SegaGameGear                     := Console("Sega", "Sega Game Gear", "portable", 1990, 3, 100)
  const Atari2600                        := Console("Atari", "Atari 2600", "home", 1977, 4, 10)
  const Atari5200                        := Console("Atari", "Atari 5200", "home", 1982, 4, 20)
  const Atari7800                        := Console("Atari", "Atari 7800", "home", 1986, 4, 30)
  const AtariJaguar                      := Console("Atari", "Atari Jaguar", "home", 1993, 4, 40)
  const AtariLynx                        := Console("Atari", "Atari Lynx", "portable", 1989, 4, 100)
  const NeoGeo                           := Console("SNK", "Neo Geo", "home", 1990, 5, 10)
  const NeoGeoPocket                     := Console("SNK", "Neo Geo Pocket", "portable", 1998, 5, 100)
  const PCEngineTurboGrafx16             := Console("NEC", "PC Engine/TurboGrafx-16", "home", 1987, 6, 10)
  const PCFX                             := Console("NEC", "PC-FX", "home", 1994, 6, 20)
  const WonderSwan                       := Console("Bandai", "WonderSwan", "portable", 1999, 7, 100)
  const MultipleArcadeSystems            := Console("Arcade", "Multiple Arcade Systems", "arcade", 1972, 8, 10)
  const Commodore64                      := Console("Commodore", "Commodore 64", "computer", 1982, 9, 10)
  const Amiga                            := Console("Commodore", "Amiga", "computer", 1985, 9, 20)
  const MSX                              := Console("Microsoft", "MSX", "computer", 1983, 10, 10)
  const IBMPCCompatible                  := Console("IBM", "IBM PC Compatible", "computer", 1981, 11, 10)
  const UnknownSystem                    := Console("Unknown", "Unknown System", "unknown", 9999, 999, 999)

  /**
   * Row `j` of core_metadata_wizmodl_db, in table order: its core-name
   * pattern (`CoreName`) and the console columns it shares with the other
   * rows for the same console (`ConsoleOf`).
   */
  function Row(j: nat): Rule
    requires j <= Fallback
  {
    var c := ConsoleOf(j);
    Rule(CoreName(j), c.manufacturer, c.consoleModel, c.consoleType,
         c.releaseYear, c.manufacturerPriority, c.consolePriority)
  }

  /** The core_name column. */
  function CoreName(j: nat): Option<string>
    requires j <= Fallback
  {
    match j
    case 0  => Some("Family Computer")
    case 1  => Some("Famicom")
    case 2  => Some("FCEUmm")
    case 3  => Some("Nestopia")
    case 4  => Some("QuickNES")
    case 5  => Some("Super Nintendo")
    case 6  => Some("Snes9x")
    case 7  => Some("bsnes")
    case 8  => Some("higan")
    case 9  => Some("Nintendo 64")
    case 10 => Some("Mupen64Plus")
    case 11 => Some("ParaLLEl")
    case 12 => Some("GameCube")
    case 13 => Some("Dolphin")
    case 14 => Some("Wii")
    case 15 => Some("Game Boy")
    case 16 => Some("SameBoy")
    case 17 => Some("Gambatte")
    case 18 => Some("TGB Dual")
    case 19 => Some("Game Boy Color")
    case 20 => Some("Game Boy Advance")
    case 21 => Some("mGBA")
    case 22 => Some("VBA")
    case 23 => Some("VBA-M")
    case 24 => Some("Nintendo DS")
    case 25 => Some("DeSmuME")
    case 26 => Some("melonDS")
    case 27 => Some("Nintendo 3DS")
    case 28 => Some("Citra")
    case 29 => Some("PlayStation")
    case 30 => Some("PCSX")
    case 31 => Some("Beetle PSX")
    case 32 => Some("SwanStation")
    case 33 => Some("PlayStation 2")
    case 34 => Some("PCSX2")
    case 35 => Some("PlayStation 3")
    case 36 => Some("RPCS3")
    case 37 => Some("PlayStation Portable")
    case 38 => Some("PPSSPP")
    case 39 => Some("PlayStation Vita")
    case 40 => Some("Vita3K")
    case 41 => Some("Master System")
    case 42 => Some("SMS Plus")
    case 43 => Some("Genesis")
    case 44 => Some("Mega Drive")
    case 45 => Some("Genesis Plus GX")
    case 46 => Some("PicoDrive")
    case 47 => Some("Sega CD")
    case 48 => Some("32X")
    case 49 => Some("Saturn")
    case 50 => Some("Beetle Saturn")
    case 51 => Some("Yabause")
    case 52 => Some("Kronos")
    case 53 => Some("Dreamcast")
    case 54 => Some("Flycast")
    case 55 => Some("Redream")
    case 56 => Some("Game Gear")
    case 57 => Some("Atari 2600")
    case 58 => Some("Stella")
    case 59 => Some("Atari 5200")
    case 60 => Some("Atari 7800")
    case 61 => Some("ProSystem")
    case 62 => Some("Atari Jaguar")
    case 63 => Some("Virtual Jaguar")
    case 64 => Some("Atari Lynx")
    case 65 => Some("Handy")
    case 66 => Some("Neo Geo")
    case 67 => Some("FinalBurn Neo")
    case 68 => Some("Neo Geo Pocket")
    case 69 => Some("RACE")
    case 70 => Some("PC Engine")
    case 71 => Some("Beetle PCE")
    case 72 => Some("TurboGrafx")
    case 73 => Some("PC-FX")
    case 74 => Some("WonderSwan")
    case 75 => Some("Beetle Cygne")
    case 76 => Some("MAME")
    case 77 => Some("Final Burn")
    case 78 => Some("FBNeo")
    case 79 => Some("Commodore 64")
    case 80 => Some("VICE")
    case 81 => Some("Amiga")
    case 82 => Some("PUAE")
    case 83 => Some("MSX")
    case 84 => Some("blueMSX")
    case 85 => Some("DOS")
    case 86 => Some("DOSBox")
    case _  => None
  }

  /** The remaining columns of each row. */
  function ConsoleOf(j: nat): Console
    requires j <= Fallback
  {
    match j
    case 0  => NintendoEntertainmentSystem
    case 1  => NintendoEntertainmentSystem
    case 2  => NintendoEntertainmentSystem
    case 3  => NintendoEntertainmentSystem
    case 4  => NintendoEntertainmentSystem
    case 5  => SuperNintendoEntertainmentSystem
    case 6  => SuperNintendoEntertainmentSystem
    case 7  => SuperNintendoEntertainmentSystem
    case 8  => SuperNintendoEntertainmentSystem
    case 9  => Nintendo64
    case 10 => Nintendo64
    case 11 => Nintendo64
    case 12 => NintendoGameCube
    case 13 => NintendoGameCube
    case 14 => NintendoWii
    case 15 => GameBoy
    case 16 => GameBoy
    case 17 => GameBoy
    case 18 => GameBoy
    case 19 => GameBoyColor
    case 20 => GameBoyAdvance
    case 21 => GameBoyAdvance
    case 22 => GameBoyAdvance
    case 23 => GameBoyAdvance
    case 24 => NintendoDS
    case 25 => NintendoDS
    case 26 => NintendoDS
    case 27 => Nintendo3DS
    case 28 => Nintendo3DS
    case 29 => PlayStation
    case 30 => PlayStation
    case 31 => PlayStation
    case 32 => PlayStation
    case 33 => PlayStation2
    case 34 => PlayStation2
    case 35 => PlayStation3
    case 36 => PlayStation3
    case 37 => PlayStationPortable
    case 38 => PlayStationPortable
    case 39 => PlayStationVita
    case 40 => PlayStationVita
    case 41 => SegaMasterSystem
    case 42 => SegaMasterSystem
    case 43 => SegaGenesisMegaDrive
    case 44 => SegaGenesisMegaDrive
    case 45 => SegaGenesisMegaDrive
    case 46 => SegaGenesisMegaDrive
    case 47 => SegaCD
    case 48 => Sega32X
    case 49 => SegaSaturn
    case 50 => SegaSaturn
    case 51 => SegaSaturn
    case 52 => SegaSaturn
    case 53 => SegaDreamcast
    case 54 => SegaDreamcast
    case 55 => SegaDreamcast
    case 56 => SegaGameGear
    case 57 => Atari2600
    case 58 => Atari2600
    case 59 => Atari5200
    case 60 => Atari7800
    case 61 => Atari7800
    case 62 => AtariJaguar
    case 63 => AtariJaguar
    case 64 => AtariLynx
    case 65 => AtariLynx
    case 66 => NeoGeo
    case 67 => NeoGeo
    case 68 => NeoGeoPocket
    case 69 => NeoGeoPocket
    case 70 => PCEngineTurboGrafx16
    case 71 => PCEngineTurboGrafx16
    case 72 => PCEngineTurboGrafx16
    case 73 => PCFX
    case 74 => WonderSwan
    case 75 => WonderSwan
    case 76 => MultipleArcadeSystems
    case 77 => MultipleArcadeSystems
    case 78 => MultipleArcadeSystems
    case 79 => Commodore64
    case 80 => Commodore64
    case 81 => Amiga
    case 82 => Amiga
    case 83 => MSX
    case 84 => MSX
    case 85 => IBMPCCompatible
    case 86 => IBMPCCompatible
    case _  => UnknownSystem
  }

  /** Row `j` is a candidate for `name`: its pattern is set and occurs in the name. */
  predicate Matches(j: nat, name: string)
    requires j <= Fallback
  {
    Row(j).pattern.Some? && IsSubstring(Row(j).pattern.value, name)
  }

  /** The scan of get_core_metadata_wizmodl from row `i` on. */
  function FirstMatch(name: string, i: nat): (r: nat)
    requires i <= Fallback
    ensures i <= r <= Fallback
    ensures r < Fallback ==> Matches(r, name)
    ensures forall j | i <= j < r :: !Matches(j, name)
    decreases Fallback - i
  {
    if i == Fallback then Fallback
    else if Matches(i, name) then i
    else FirstMatch(name, i + 1)
  }

  /**
   * get_core_metadata_wizmodl, as the index of the row it returns: the
   * first matching row, or the fallback exactly when the name is empty or
   * no row matches.
   */
  function ClassifyIndex(name: string): (r: nat)
    ensures r <= Fallback
    ensures r < Fallback ==> Matches(r, name)
    ensures name != [] ==> forall j | 0 <= j < r :: !Matches(j, name)
    ensures r == Fallback <==> name == [] || forall j | 0 <= j < Fallback :: !Matches(j, name)
  {
    if name == [] then Fallback else FirstMatch(name, 0)
  }

  function Classify(name: string): Rule
  {
    Row(ClassifyIndex(name))
  }

  /**
   * A row whose pattern contains the pattern of an earlier row can never
   * be returned: the earlier row matches every name it matches.
   */
  lemma ShadowedRowUnreachable(i: nat, j: nat, name: string)
    requires i < j < Fallback
    requires Row(i).pattern.Some? && Row(j).pattern.Some?
    requires IsSubstring(Row(i).pattern.value, Row(j).pattern.value)
    ensures ClassifyIndex(name) != j
  {
    if name != [] && ClassifyIndex(name) == j {
      SubstringTransitive(Row(i).pattern.value, Row(j).pattern.value, name);
      assert Matches(i, name);
    }
  }

  /**
   * "Game Boy" is listed before "Game Boy Color", so a "Game Boy Color"
   * core is classified no later than the "Game Boy" row.
   */
  lemma GameBoyColorIsGameBoy(name: string)
    requires IsSubstring("Game Boy Color", name)
    ensures ClassifyIndex(name) <= 15
  {
    PrefixIsSubstring("Game Boy", "Game Boy Color");
    SubstringTransitive("Game Boy", "Game Boy Color", name);
    assert Row(15).pattern == Some("Game Boy");
    assert Matches(15, name);
  }

  /**
   * The "Game Boy Color" and "Game Boy Advance" rows come after "Game Boy"
   * and are never returned.
   */
  lemma GameBoySuccessorsUnreachable(name: string)
    ensures ClassifyIndex(name) != 19 && ClassifyIndex(name) != 20
  {
    assert Row(15).pattern == Some("Game Boy");
    assert Row(19).pattern == Some("Game Boy Color");
    assert Row(20).pattern == Some("Game Boy Advance");
    PrefixIsSubstring("Game Boy", "Game Boy Color");
    PrefixIsSubstring("Game Boy", "Game Boy Advance");
    ShadowedRowUnreachable(15, 19, name);
    ShadowedRowUnreachable(15, 20, name);
  }

  /** The same holds for the later "PlayStation 2" and "PlayStation 3" rows ... */
  lemma PlayStationHomeSuccessorsUnreachable(name: string)
    ensures ClassifyIndex(name) != 33 && ClassifyIndex(name) != 35
  {
    assert Row(29).pattern == Some("PlayStation");
    assert Row(33).pattern == Some("PlayStation 2");
    assert Row(35).pattern == Some("PlayStation 3");
    PrefixIsSubstring("PlayStation", "PlayStation 2");
    PrefixIsSubstring("PlayStation", "PlayStation 3");
    ShadowedRowUnreachable(29, 33, name);
    ShadowedRowUnreachable(29, 35, name);
  }

  /** ... and for the "PlayStation Portable" and "PlayStation Vita" rows. */
  lemma PlayStationPortablesUnreachable(name: string)
    ensures ClassifyIndex(name) != 37 && ClassifyIndex(name) != 39
  {
    assert Row(29).pattern == Some("PlayStation");
    assert Row(37).pattern == Some("PlayStation Portable");
    assert Row(39).pattern == Some("PlayStation Vita");
    PrefixIsSubstring("PlayStation", "PlayStation Portable");
    PrefixIsSubstring("PlayStation", "PlayStation Vita");
    ShadowedRowUnreachable(29, 37, name);
    ShadowedRowUnreachable(29, 39, name);
  }

  /** Every row but the fallback has a pattern and ranks before "Unknown". */
  predicate WellFormedRow(j: nat)
    requires j <= Fallback
  {
    && Row(j).pattern.Some?
    && Row(j).manufacturer != [] && Row(j).consoleModel != []
    && 0 < Row(j).releaseYear < 9999
    && Row(j).manufacturerPriority < 999
  }

  lemma RowWellFormed(j: nat)
    requires j < Fallback
    ensures WellFormedRow(j)
  {
    RowPatternSet(j);
    RowNamesSet(j);
    RowYearKnown(j);
    RowRanksBeforeUnknown(j);
  }

  lemma RowPatternSet(j: nat)
    requires j < Fallback
    ensures Row(j).pattern.Some?
  {
  }

  lemma RowNamesSet(j: nat)
    requires j <= Fallback
    ensures Row(j).manufacturer != [] && Row(j).consoleModel != []
  {
  }

  lemma RowYearKnown(j: nat)
    requires j < Fallback
    ensures 0 < Row(j).releaseYear < 9999
  {
  }

  lemma RowRanksBeforeUnknown(j: nat)
    requires j < Fallback
    ensures Row(j).manufacturerPriority < Row(Fallback).manufacturerPriority
  {
  }

  /** Every classified entry has a manufacturer and console model to head its group. */
  lemma ClassifiedNamed(name: string)
    ensures Classify(name).manufacturer != [] && Classify(name).consoleModel != []
  {
    RowNamesSet(ClassifyIndex(name));
  }

  /** Entries the table does not know sort after all that it does know. */
  lemma ClassifiedBeforeUnknown(name: string)
    ensures ClassifyIndex(name) < Fallback ==>
      WellFormedRow(ClassifyIndex(name))
      && Classify(name).manufacturerPriority < Classify([]).manufacturerPriority
  {
    var r := ClassifyIndex(name);
    if r < Fallback {
      RowWellFormed(r);
      RowRanksBeforeUnknown(r);
    }
  }
}
