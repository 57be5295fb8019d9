# RetroArch core updater list and command helpers, in Dafny

This project models two parts of RetroArch.

The first is the core updater list (`core_updater_list.c`). It holds the
list of core packages the online updater offers, and builds it as follows:

- It parses a buildbot listing of `<date> <crc> <filename>` lines, or
  takes a list of Play Feature Delivery (PFD) filenames.
- It parses each entry's date and CRC.
- It derives each entry's local core path and info path.
- It reads the display name, description and licenses from the core's
  info file.
- It skips duplicate filenames.
- It classifies every display name against a fixed table of consoles.
- It sorts the list with a multi-key comparator.
- It interleaves synthetic `=== Manufacturer ===` and `--- Console (Year) ---`
  header rows.

The second part is a set of self-contained algorithms of the command interface
(`command.c`):

- recognition of a command token;
- line framing of commands read from standard input;
- address decoding over a core's memory map, and the pointer it grants;
- the savestate slot wraparound decision;
- the next automatic savestate index.

Each module follows one part of the program:

| module | file | models |
|---|---|---|
| `Wrappers`, `CStrings` | cstrings.dfy | C strings (NUL termination), `strtok_r`, `strrchr`, `strstr`, `strcasecmp`, decimal and hex parsing |
| `Words` | words.dfy | fixed-width unsigned words as bit sequences, and the C bitwise operators on them |
| `Classifier` | classifier.dfy | `core_metadata_wizmodl_db` and `get_core_metadata_wizmodl` |
| `Grouping` | grouping.dfy | the two qsort comparators, and the sort as a permutation that is sorted |
| `Headers` | inject.dfy | header creation and `core_updater_list_inject_dual_headers` |
| `UpdaterEntry` | updater_entry.dfy | `set_date`, `set_crc`, `set_paths`, `set_core_info`, and the entries `add_entry` and `add_pfd_entry` build |
| `UpdaterList` | updater_list.dfy | the list object, the cached list, ingestion and the sort-and-inject step |
| `CommandArgs` | command_args.dfy | `command_get_arg` |
| `StdinFraming` | stdin_framing.dfy | `command_stdin_poll` and `command_stdin_new` |
| `MemoryMap` | memory_map.dfy | `command_memory_get_descriptor` and `command_memory_get_pointer` |
| `Savestates` | savestates.dfy | `command_scan_states` and `command_event_get_next_savestate_auto_index` |

Parts of the program that change state step by step are imperative Dafny:

- The updater list and the cached-list slot are classes. Their methods
  reassign the `entries` sequence.
- The stdin reader keeps its fixed buffer as an `array<char>` with a
  write pointer. Its poll appends in place and moves the remainder to the
  front with a copying loop, as `memmove` does.
- The header injection, the disconnect-bit reduction and the two loops of
  the savestate scan are methods with loop invariants.

Each of those methods is proved against a reference function. The
properties the program promises are then proved as lemmas about those
functions.

Two details of the code are easy to miss, and the model keeps both:

- The code leaves a list of fewer than two entries unsorted and without
  headers (core_updater_list.c:1182-1183). A one-entry list therefore gets
  no header rows.
- The `_libretro` rule for info paths looks for the last `_` in the whole
  joined path, not only in its file name (core_updater_list.c:517).

## Model

| member | source | states |
|---|---|---|
| CStrings.CStr | command.c:307-310 | the C string of a buffer is its longest NUL-free prefix, ended by a NUL or by the buffer's end |
| CStrings.Tokens | core_updater_list.c:346-360 | `strtok_r` yields only non-empty tokens, none of which holds the delimiter |
| CStrings.TokensJoin | core_updater_list.c:1255-1275 | tokenising tokens joined by the delimiter gives back the same tokens |
| CStrings.LastIndexOf | core_updater_list.c:517 | `strrchr` finds the character iff it occurs; no later position holds it |
| CStrings.CaseCmpZero | core_updater_list.c:1094-1112 | `strcasecmp` is 0 exactly when the two names are equal after lower-casing |
| CStrings.CaseCmpAntisymmetric | core_updater_list.c:1005-1056 | swapping the operands of `strcasecmp` negates its sign |
| CStrings.CaseCmpTransitive | core_updater_list.c:1005-1056 | `strcasecmp` order is transitive, strictly when either step is strict |
| CStrings.StringToUnsigned | core_updater_list.c:378-380 | an empty string or one with a non-digit reads as 0; a digit string reads as its decimal value, saturated at `ULONG_MAX` as `strtoul` does and narrowed to 32 bits, so a value below 2^32 reads back exactly |
| CStrings.HexToUnsigned | core_updater_list.c:400 | a text shorter than two characters, a bare `0x` or one with a non-hex character reads as 0; otherwise the hex value after an optional `0x`, saturated at `ULONG_MAX` and narrowed to 32 bits |
| Words.DecValue | command.c:945-947 | `mask - 1` on a word wraps modulo its width, as unsigned subtraction in C does |
| Words.Shr1Value | command.c:946-947 | `x >> 1` halves the word's value |
| UpdaterEntry.SetDate | core_updater_list.c:330-388 | succeeds iff the string has at least three `-`-separated tokens; year, month and day are then `string_to_unsigned` of the first three tokens |
| UpdaterEntry.DateExamples | core_updater_list.c:340-387 | `"2021-07-04"` gives 2021, 7 and 4; `"2021-07"` fails |
| UpdaterEntry.SetCrc | core_updater_list.c:392-406 | fails on an empty string and on any string whose hex value is 0; otherwise stores that nonzero 32-bit value |
| UpdaterEntry.ZeroCrcRefused | core_updater_list.c:397-405 | every string of zeros, `"0"` and `"00000000"` among them, is refused |
| UpdaterEntry.CrcExamples | core_updater_list.c:397-405 | `"0"`, `"00000000"` and the one-character `"5"` are refused; `"1a2b3c4d"` gives 0x1a2b3c4d |
| UpdaterEntry.StripPlatformSuffix | core_updater_list.c:502-527 | the path is cut at its last `_` unless that suffix is exactly `_libretro` or there is no `_`; the cut leaves no `_` behind |
| UpdaterEntry.InfoPath | core_updater_list.c:502-527 | the info path is the joined path with one extension removed (two for an archive), cut by the `_libretro` rule, followed by `.info` |
| UpdaterEntry.SetPaths | core_updater_list.c:411-538 | fails iff the filename or a directory is empty, or a buildbot list has no base URL; only buildbot entries get a remote path, the URL-encoded join of base URL and filename; the local core path is the joined path without its archive extension, resolved with symlinks followed except for PFD lists; the info path is `InfoPath` |
| UpdaterEntry.SetCoreInfo | core_updater_list.c:543-625 | fails only on an empty info path or filename; the display name is never empty; without an info display name it is the filename and the core is experimental; the description falls back to ""; licenses are the `|`-split of the info's licence string, present iff that string is non-empty |
| UpdaterEntry.BuildbotEntry | core_updater_list.c:680-744 | an entry exists iff date, CRC and paths all parse; it is a named package carrying that CRC and date |
| UpdaterEntry.PfdEntry | core_updater_list.c:1320-1376 | an entry exists iff filename and directories are set; it has no remote path, a zero CRC and a zero date |
| UpdaterList.AdmitKeepsWellFormed | core_updater_list.c:695-697 | admitting a candidate keeps remote filenames unique and adds at most one entry |
| UpdaterList.IngestLinesWellFormed | core_updater_list.c:1255-1297 | after any listing, no two entries share a remote filename and every entry is a named package |
| UpdaterList.IngestPfdWellFormed | core_updater_list.c:1396-1413 | the same holds after any PFD filename list |
| UpdaterList.GroupedOutcomeKeepsPackages | core_updater_list.c:1176-1195 | after sort and injection, the packages left are exactly the entries before, as a multiset, sorted by the grouped comparator, and a list of two or more starts with a manufacturer header |
| UpdaterList.CoreUpdaterList.constructor | core_updater_list.c:102-116 | a new list is empty and of unknown type |
| UpdaterList.CoreUpdaterList.Reset | core_updater_list.c:120-136 | the list becomes empty and of unknown type |
| UpdaterList.CoreUpdaterList.Size | core_updater_list.c:193-199 | the size is the number of entries, 0 iff there are none |
| UpdaterList.CoreUpdaterList.GetType | core_updater_list.c:203-210 | returns the list type |
| UpdaterList.CoreUpdaterList.GetIndex | core_updater_list.c:215-229 | an entry is returned iff the index is in range, and it is the entry at that index |
| UpdaterList.CoreUpdaterList.GetFilename | core_updater_list.c:234-266 | finds the first entry with that remote filename, and finds one iff the name is non-empty and present |
| UpdaterList.CoreUpdaterList.PushEntry | core_updater_list.c:632-675 | appends a copy of the entry as a package and changes nothing else |
| UpdaterList.CoreUpdaterList.AddEntry | core_updater_list.c:680-744 | pushes the parsed entry unless parsing failed or its filename is already listed |
| UpdaterList.CoreUpdaterList.AddPfdEntry | core_updater_list.c:1320-1376 | pushes the PFD entry unless it cannot be built or its filename is already listed |
| UpdaterList.CoreUpdaterList.QsortWizmodl | core_updater_list.c:1176-1195 | a list of two or more becomes a sorting of itself by the grouped comparator with headers injected; a shorter list is unchanged |
| UpdaterList.CoreUpdaterList.Qsort | core_updater_list.c:1198-1212 | a list of two or more becomes an alphabetical sorting of itself, same multiset; a shorter list is unchanged |
| UpdaterList.CoreUpdaterList.ParseNetworkData | core_updater_list.c:1218-1315 | empty data fails and leaves the list alone; otherwise the list is reset, success means a newline and a surviving entry, and on success the list is of buildbot type and holds the grouped outcome of the ingested lines |
| UpdaterList.CoreUpdaterList.ParsePfdData | core_updater_list.c:1382-1426 | the same for a PFD filename list, which sets the PFD type |
| UpdaterList.CoreListCache.InitCached | core_updater_list.c:155-170 | the cached slot holds a fresh, empty list of unknown type |
| UpdaterList.CoreListCache.GetCached | core_updater_list.c:173-179 | returns the cached list |
| UpdaterList.CoreListCache.FreeCached | core_updater_list.c:182-186 | the cached slot is cleared |
| Classifier.FirstMatch | core_updater_list.c:906-912 | scanning from a row returns the first row whose pattern occurs in the name, or the fallback row when none does |
| Classifier.ClassifyIndex | core_updater_list.c:898-915 | an empty name, or one no row matches, gets the Unknown row; otherwise the first matching row in table order |
| Classifier.ShadowedRowUnreachable | core_updater_list.c:758-895 | a row whose pattern contains an earlier row's pattern is never returned |
| Classifier.GameBoyColorIsGameBoy | core_updater_list.c:781-786 | a name containing "Game Boy Color" is classified at or before the "Game Boy" row |
| Classifier.GameBoySuccessorsUnreachable | core_updater_list.c:781-788 | the "Game Boy Color" and "Game Boy Advance" rows are never returned |
| Classifier.PlayStationHomeSuccessorsUnreachable | core_updater_list.c:801-809 | the "PlayStation 2" and "PlayStation 3" rows are never returned |
| Classifier.PlayStationPortablesUnreachable | core_updater_list.c:801-816 | the "PlayStation Portable" and "PlayStation Vita" rows are never returned |
| Classifier.RowWellFormed | core_updater_list.c:760-891 | every row before Unknown has a pattern, a manufacturer, a console model, a year strictly between 0 and 9999 and a manufacturer priority below 999 |
| Classifier.RowNamesSet | core_updater_list.c:758-895 | every row, Unknown included, names a manufacturer and a console model |
| Classifier.ClassifiedNamed | core_updater_list.c:898-915 | every classification has a manufacturer and a console model, so headers can always be made |
| Classifier.ClassifiedBeforeUnknown | core_updater_list.c:893-915 | any recognised name gets a well-formed row that ranks before Unknown |
| Grouping.CompareGrouped | core_updater_list.c:979-1044 | headers before packages, manufacturer headers before console headers, same-kind headers by case-insensitive name, packages with an empty name equal, lower manufacturer priority first |
| Grouping.CompareAlpha | core_updater_list.c:1047-1057 | an empty display name compares equal; names equal up to case compare equal |
| Grouping.MetadataIsLex | core_updater_list.c:1010-1043 | the package comparison is the lexicographic order on (manufacturer priority, manufacturer, console priority, console model, console type, year, display name) |
| Grouping.CompareGroupedIsLex | core_updater_list.c:979-1044 | on sortable entries, the whole grouped comparator is a lexicographic order on one key per entry |
| Grouping.CompareGroupedAntisymmetric | core_updater_list.c:979-1044 | swapping operands negates the comparator's sign |
| Grouping.CompareGroupedTransitive | core_updater_list.c:979-1044 | on entries with display names, the comparator's order is transitive |
| Grouping.CompareAntisymmetric | core_updater_list.c:979-1057 | both comparators are antisymmetric |
| Grouping.CompareTransitive | core_updater_list.c:979-1057 | both comparators are transitive on sortable entries |
| Grouping.Sort | core_updater_list.c:1186-1191 | the result is a permutation of the input, and sorted whenever the comparator is an order on its entries |
| Grouping.Insert | core_updater_list.c:1186-1191 | inserting an entry adds exactly it to the multiset and keeps a sorted list sorted |
| Headers.CreateManufacturerHeader | core_updater_list.c:918-944 | a header exists iff the manufacturer is named; it is a manufacturer header labelled `=== M ===` with no description or CRC |
| Headers.CreateConsoleHeader | core_updater_list.c:947-976 | a header exists iff the console model is named; it is a console header labelled `--- C (Y) ---`, the year shown only when 0 < Y < 9999 |
| Headers.EmitHeaders | core_updater_list.c:1093-1127 | one step emits a manufacturer header when the manufacturer changes (forgetting the console), then a console header when the console changes |
| Headers.InjectDualHeaders | core_updater_list.c:1060-1173 | the loop builds exactly the reference grouped list |
| Headers.GroupedKeepsPackages | core_updater_list.c:1082-1155 | removing the headers gives back the named entries in their original order; unnamed entries are dropped |
| Headers.GroupedStartsWithManufacturer | core_updater_list.c:1093-1110 | the output is empty iff no entry is named, and otherwise starts with a manufacturer header |
| Headers.GroupedHeadersHaveContent | core_updater_list.c:1082-1155 | every header is followed by a console header or package, never by nothing |
| CommandArgs.FirstEqual | command.c:105-117 | finds the first flag command equal to the token, and finds one iff there is one |
| CommandArgs.FirstPrefix | command.c:119-123 | finds the first action command that is a prefix of the token, and finds one iff there is one |
| CommandArgs.Recognise | command.c:100-141 | a flag command is recognised iff the token is one; otherwise the first action prefix is recognised iff a space or the end follows it |
| CommandArgs.GetArg | command.c:100-141 | the two table scans recognise exactly what the reference recognises |
| CommandArgs.ArgStartAsWritten | command.c:124-131 | as written, an action's argument starts one past the end of its name |
| CommandArgs.ArgPastTerminatorAsWritten | command.c:124-131 | a token equal to an action name gets an argument that starts past its terminator |
| CommandArgs.ArgStart | command.c:124-131 | corrected: the argument starts after the space, or at the end of a bare name |
| CommandArgs.ActionTokenSplits | command.c:119-138 | a recognised action token is its name, a space unless it ends there, then the argument; the argument lies within the token |
| CommandArgs.ArgStartDiffersOnlyWhenBare | command.c:124-131 | the correction changes the result only for a bare action name |
| StdinFraming.FrameSplitsAtLastNewline | command.c:310-332 | with a newline, the buffer is the message, a newline and the rest; the rest holds no newline and the pending length drops by the consumed bytes |
| StdinFraming.FrameWithoutNewline | command.c:312-323 | without a newline, a full buffer is flushed to empty and any other is kept whole |
| StdinFraming.FrameLeavesRoom | command.c:300-332 | after a poll the write pointer stays below the buffer size |
| StdinFraming.StdinReader.constructor | command.c:335-362 | a new reader has a zeroed buffer and nothing pending |
| StdinFraming.StdinReader.Append | command.c:300-308 | the bytes read go behind the pending ones, and the buffer is NUL-terminated after them |
| StdinFraming.StdinReader.DropFront | command.c:330-332 | the bytes after the consumed prefix move to the front, as `memmove` does |
| StdinFraming.StdinReader.Poll | command.c:295-333 | the message handed on and the new pending bytes are those of the reference framing of the old pending bytes and the input |
| MemoryMap.Compact | command.c:940-948 | removing the disconnect bits keeps the word's width |
| MemoryMap.CompactClearsTop | command.c:940-948 | the top bits, one per removed bit, are zero |
| MemoryMap.CompactIgnoresMaskedBits | command.c:940-948 | the values of removed bits do not matter |
| MemoryMap.StepKeepsCompact | command.c:943-948 | one loop iteration preserves the final compacted value |
| MemoryMap.StepClearsOneBit | command.c:947 | each iteration clears one set bit of the mask, so the loop ends |
| MemoryMap.Reduce | command.c:943-948 | the loop removes each disconnect bit from the offset and shifts the higher bits down |
| MemoryMap.Locate | command.c:920-955 | a descriptor only grants an offset below its length |
| MemoryMap.SelectMatchesBitwise | command.c:932 | the select test holds iff start and address agree on every select bit |
| MemoryMap.LocateUnselected | command.c:920-927 | with select 0, a descriptor holds the address iff start ≤ address < start + len (computed in size_t), at offset address − start |
| MemoryMap.LocateSelected | command.c:932-955 | with select set, a descriptor holds only addresses matching on the select bits; without disconnect bits, it holds one iff its distance from start is below len, at that distance |
| MemoryMap.FirstHolding | command.c:918-960 | the result is the first descriptor holding the address, or none iff none holds it |
| MemoryMap.LocateIn | command.c:920-956 | the loop body decides exactly what the reference decides |
| MemoryMap.GetDescriptor | command.c:913-961 | returns the first descriptor in array order that holds the address, with its offset |
| MemoryMap.GetPointer | command.c:963-989 | returns the exact reply for no map, no descriptor, no data or a write to read-only data; otherwise grants `(unsigned)(len − offset)` bytes at the descriptor's data offset plus the offset; the granted window never passes the descriptor's end and is its whole rest when that fits in 32 bits (a rest of exactly 2^32 bytes truncates to 0); never grants a write to a read-only descriptor |
| Savestates.ToInt32 | command.c:1694 | the wrapped value is a 32-bit int with the same low 32 bits, and an int that fits is unchanged |
| Savestates.MaxIndex | command.c:1575-1576 | the maximum is at least every index and is 0 or one of them |
| Savestates.CountInRange | command.c:1578-1579 | the count is 0 iff every index lies above the range |
| Savestates.FirstSlot | command.c:1589-1606 | the lowest slot in a range that is used (or free), or none iff there is none |
| Savestates.MarkSlots | command.c:1529-1586 | the first loop counts the indices and those in range, finds their maximum and marks exactly the occupied slots below 1024 |
| Savestates.WalkRange | command.c:1588-1606 | the gap is the lowest free slot in [0, max_keep] and the delete index the first used slot after it, each `UINT_MAX` when missing |
| Savestates.ScanStates | command.c:1492-1680 | the decision is exactly the reference decision over the given indices |
| Savestates.WraparoundWithGap | command.c:1648-1661 | with something in range and a lowest free slot g: the gap is g, the load index g − 1 (or max_keep when g is 0), and the delete index the first used slot above g, or 0 iff there is none |
| Savestates.WraparoundWithoutGap | command.c:1625-1647 | with every slot used, delete equals gap; an index above the range gives load max and gap 1; otherwise an in-range current slot s gives load s and gap s + 1; else load max_keep and gap 0 |
| Savestates.NothingInRange | command.c:1612-1622 | with nothing in range, gap and delete are max_keep, and load is max_keep when no state exists or the highest index otherwise |
| Savestates.DecisionBounds | command.c:1589-1661 | gap and delete stay below 1024; with all indices in range the load index stays within it |
| Savestates.DecodeSlot | command.c:1564-1572 | the slot index is the value of the name's trailing digits, and the root is what precedes them |
| Savestates.PruneName | command.c:1670-1677 | the name to delete is the root, followed by at most four digits of the delete index when that is nonzero |
| Savestates.PrunedNameRescans | command.c:1670-1677 | decoding the name to delete gives back the delete index |
| Savestates.NextAutoIndex | command.c:1691-1701 | the next index is slot + 1 as a wrapping int, except that with max_keep set it is 0 when slot + 1, read as unsigned, exceeds max_keep (above the range, overflowed or negative); with max_keep set it always stays within [0, max_keep] |
| Savestates.AutoIndexCycles | command.c:1693-1700 | from an in-range slot the next index is (slot + 1) mod (max_keep + 1) |
| Savestates.AutoIndexLeavesRange | command.c:1695-1700 | for 0 < max_keep < 2^31: a slot at or above max_keep (INT_MAX included) or below -1 leads back to 0, and a slot from -1 to max_keep - 1 steps to slot + 1 |
| Savestates.NextSaveFillsGap | command.c:1657-1660 | the automatic save after a scan that found a gap goes into that gap |

## Left out

- Directory listing, file deletion and the savestate name handling around them are not modelled. `Savestates.ScanStates` takes the decoded slot indices as input, and `PruneName` takes the savefile root as given.
- `Savestates.ScanStates`: requires `max_keep < 1024`, because the occupancy bitmap has 1024 slots. The code indexes past it for larger values.
- `Savestates.NextAutoIndex`: a signed overflow of `state_slot + 1` is taken to wrap as a 32-bit two's complement int.
- Reading standard input (`read_stdin` and its errors) is not modelled. A poll is given the bytes the read returned.
- Parsing the framed message (`command_parse_msg`) and dispatching commands are not modelled. Only the buffer framing and the token recognition are.
- The two command tables of `command.h` are not part of this model. They are parameters.
- The network, socket, UDS and Emscripten command transports are not modelled: they are socket I/O.
- The content, state, config, shader, disk, controller, OSD and volume handlers of `command.c` are not modelled: they call into drivers and global state.
- `MemoryMap.GetPointer`: a NULL `sys_info` is modelled as an empty map. The pointer is modelled as a descriptor index plus byte offset, without pointer arithmetic.
- `size_t` is taken to be 64 bits wide.
- `UpdaterEntry.InfoPath` and `UpdaterEntry.SetPaths`: paths are unbounded strings. The code builds them in `PATH_MAX_LENGTH` buffers, where a long path is truncated; that truncation is not modelled.
- The path, URL and info helpers are fields of the `Platform` value, with no behaviour assumed. They are `fill_pathname_join_special`, `path_is_compressed_file`, `path_remove_extension`, `path_resolve_realpath`, `net_http_urlencode_full`, `core_info_get_core_updater_info` and `string_split`.
- `core_updater_list_get_core` is not modelled: it depends on `path_resolve_realpath` and on a Windows-only case-insensitive comparison.
- Allocation failure (`malloc`, `strdup` or `RBUF_TRYFIT` returning NULL) is not modelled. Every allocation is taken to succeed.
- Entries are modelled as owned values. The code shares one licenses list between an entry and its copy before freeing it, and that aliasing is not modelled.
- `UpdaterEntry.SetPaths`: a PFD entry's remote core path is modelled as empty. The code copies an uninitialised buffer there.
- `UpdaterList.CoreUpdaterList.QsortWizmodl`: qsort is modelled by an insertion sort. It promises only a permutation sorted by the comparator, not any particular order among ties, because qsort is not stable.
- `Grouping.CompareGrouped`: `strcasecmp` is modelled by its sign, over ASCII lower-casing. The year comparison keeps the raw difference of the release years, as the code computes it.
- `CStrings.StringToUnsigned` and `CStrings.HexToUnsigned`: `string_to_unsigned` and `string_hex_to_unsigned` come from libretro-common's `stdstring.c`, which is not part of this model's sources. They are modelled on its behaviour: the digit check, the two-character guard of the hex reader, `strtoul` saturating at `ULONG_MAX`, and the cast to `unsigned`. `unsigned long` is taken to be 64 bits wide; where it has 32 bits, saturation happens at 2^32 − 1 instead.

## Findings

| source | as written | input that shows it | evidently intended | confidence | as-written member | corrected member |
|---|---|---|---|---|---|---|
| command.c:124-131 | an action command whose name is the whole token gets its argument pointer set one past the name, which is past the token's terminating NUL | a token equal to an action name with nothing after it | the argument is empty and starts at the terminator | not executed | CommandArgs.ArgPastTerminatorAsWritten | CommandArgs.ActionTokenSplits |
