# FleetDesk ETS2: the desktop back end's profile, DLC and save readers

FleetDesk is a companion app for Euro Truck Simulator 2. Its back end,
`src-tauri/src/main.rs`, answers three questions for the front end:

- **Which profiles exist?** `find_profiles` lists the profile directories under
  `Documents/Euro Truck Simulator 2/profiles` and `.../steam_profiles`. The game names
  each directory by hex-encoding the profile's UTF-8 name, so each name is decoded with
  `decode_hex_name`. If anything in the name looks wrong, the raw name is kept.
- **Which map DLCs are installed?** `detect_dlcs` picks an install directory. It uses the
  explicit path first, then the Steam path from the Windows registry if that game directory
  exists (`ets2_install_from_registry`), then a fixed default. Each DLC flag is set when its
  `dlc/<marker>.scs` file exists.
- **What is the player's state?** `read_player_state` reads the first readable save slot:
  quick save, autosave, then autosave_job. It scrapes the player level, the skill points,
  the discovered cities and the owned trailers with four regular expressions. It also
  checks `config.cfg` for the line that switches saves to the text format.

This project models those functions in Dafny and proves what they compute.

## Modules

- **`Bytes`**: text as UTF-8 bytes, plus:
  - the ASCII byte classes used by the regular expressions;
  - decimal digits and their value;
  - substring search (`str::contains`).
- **`Utf8`**: what `String::from_utf8` accepts, and `str::is_char_boundary`.
- **`Paths`**: a path is a list of components, and `join` appends one.
- **`HexName`**: `decode_hex_name`.
  - `ParseChunk` is `u8::from_str_radix(_, 16)` on two bytes, including Rust's acceptance of
    a leading `+`.
  - `DecodeName` is the whole function.
  - `DecodeHexName` is its loop, as a method.
- **`Profiles`**: `find_profiles`. The Documents directory and the directory listings are
  inputs.
- **`Dlcs`**: `ets2_install_from_registry`, the install-path choice, the marker table and
  `detect_dlcs`. The registry value and the set of existing paths are inputs.
- **`SaveScan`**: the four scrapes, as a scanner that follows the regex engine's rules.
  - The leftmost match wins (`captures`).
  - Matches do not overlap, and the search resumes at the end of the previous match
    (`captures_iter`).
  - Each `\s*` and each capture group takes its longest run.
- **`SaveLines`**: the lines a text save holds (`name: value` and `name[i]: value`), and
  what the scrapes give on them.
- **`PlayerState`**: the `u32` parse, the level default, the config check, the slot choice,
  and the `read_player_state` method.
- **`ExampleSave`**: one concrete save, read end to end.

The regular expressions are not anchored, even under `(?m)`. The model keeps that.
`level:\s*(\d+)` also matches inside a longer key such as `xlevel: 3`. The level is taken
from the leftmost full match, not from the first `level:` line: a `level:` followed by no
digits is skipped in favour of a later one.

`read_player_state` has two error results in the code: "No documents dir" when there is no
Documents directory, and the save error when no slot is readable. The model has both.

Two results of the code differ from the way the app's design describes it. The model
follows the code in both:

- A profile name with a character that is not a hex digit is said to come back unchanged.
  But a `+` before a hex digit is accepted, so `+a+b` decodes to the control bytes 0x0A
  0x0B (`HexName.PlusSignedChunksDecode`).
- The player level is said to be at least 1. But a save holding `level: 0` has level 0
  (`PlayerState.LevelOfLine` with n = 0).

## Model

| member | source | states |
|---|---|---|
| HexName.ParseChunk | src-tauri/src/main.rs:21 | a two-byte chunk parses exactly when the low byte is a hex digit and the high byte is a hex digit or `+`; two hex digits give 16·high + low, and `+` with a hex digit gives that digit's value |
| HexName.ParseHexByChunks | src-tauri/src/main.rs:19-25 | the decode loop succeeds exactly when every chunk parses, and then yields the byte of each chunk in order |
| HexName.DecodeName | src-tauri/src/main.rs:14-27 | an odd-length name and the empty name come back unchanged; otherwise the result is either the raw name or valid UTF-8 of half its length |
| HexName.DecodeNameByChunks | src-tauri/src/main.rs:16-26 | all four outcomes: odd length gives the raw name; a bad chunk gives the raw name; bytes that are not UTF-8 give the raw name; otherwise the decoded bytes |
| HexName.BadChunkKeepsRawName | src-tauri/src/main.rs:21-23 | one chunk that fails to parse makes the result the raw name |
| HexName.DecodeHexName | src-tauri/src/main.rs:14-27 | the loop (push each parsed byte, return the raw name on the first error, then the UTF-8 check) computes DecodeName |
| HexName.HexEncodeIsSliceable | src-tauri/src/main.rs:20-21 | every hex-encoded name is valid UTF-8, and every chunk slice falls on character boundaries, so the loop never panics on such names |
| HexName.HexRoundTrip | src-tauri/src/main.rs:14-27 | decoding the hex encoding (either case) of any UTF-8 name gives that name back |
| HexName.PlusSignedChunksDecode | src-tauri/src/main.rs:21 | `+a+b` decodes to the bytes 0x0A 0x0B, because a chunk may carry a leading `+` |
| Profiles.ListedConcat | src-tauri/src/main.rs:47-58 | listing the entries of two runs is the listing of each run, concatenated |
| Profiles.ListedMembers | src-tauri/src/main.rs:48-57 | a profile is listed exactly when it comes from a directory entry: the decoded name, and the path under the root |
| Profiles.ScanRoot | src-tauri/src/main.rs:47-58 | the loop over one root's entries produces exactly the listing of its directory entries, in order |
| Profiles.FindProfiles | src-tauri/src/main.rs:30-62 | no Documents directory gives no profiles; otherwise the profiles of the `profiles` root (if readable) followed by those of `steam_profiles` (if readable) |
| Dlcs.RegistryInstall | src-tauri/src/main.rs:80-93 | a path results exactly when the Steam path is present and `<steam>/steamapps/common/Euro Truck Simulator 2` exists, and it is that path |
| Dlcs.InstallPath | src-tauri/src/main.rs:97-102 | the explicit path wins; then the registry path if it exists; else the fixed default directory |
| Dlcs.MarkersDistinct | src-tauri/src/main.rs:109-119 | different DLCs have different marker file names |
| Dlcs.DetectDlcs | src-tauri/src/main.rs:107-108 | the base game flag is always set |
| Dlcs.DetectDlcsFlag | src-tauri/src/main.rs:104-120 | each DLC flag is set exactly when `<install>/dlc/<its marker>` exists |
| Dlcs.InstallIgnoresMarkers | src-tauri/src/main.rs:96-105 | which install directory is chosen does not depend on the marker files under it |
| Dlcs.OtherMarkerUnaffected | src-tauri/src/main.rs:104-119 | adding one DLC's marker file does not change whether another DLC's marker exists |
| Dlcs.AddingMarkerSetsOnlyItsFlag | src-tauri/src/main.rs:104-120 | adding one DLC's marker file sets that DLC's flag and leaves every other flag as it was |
| Bytes.Contains | src-tauri/src/main.rs:146 | `contains` is true exactly when the pattern occurs at some offset |
| SaveScan.RunEndIsMaximalRun | src-tauri/src/main.rs:165 | a greedy `\s*`, `\d+` or `[a-z0-9_\.]+` ends exactly at the first byte outside its class |
| SaveScan.MatchAtCaptures | src-tauri/src/main.rs:165-168 | a match's capture is a non-empty run of the value class that ends at the match's end |
| SaveScan.FirstMatchIsMatch | src-tauri/src/main.rs:165-168 | what the search finds is a full match of the pattern at its start, at or after the search position, with a non-empty capture inside the text |
| SaveScan.FirstMatchIsLeftmost | src-tauri/src/main.rs:165-168 | no match starts between the search position and the match found |
| SaveScan.FirstMatchFinds | src-tauri/src/main.rs:165-168 | if a match starts at some position, the search finds one that starts no later |
| SaveScan.FirstMatchNone | src-tauri/src/main.rs:165-170 | with no match at any position, the search finds nothing |
| SaveScan.Matches | src-tauri/src/main.rs:172-176 | every match lies inside the text, after the search position, with a non-empty capture |
| SaveScan.MatchesInOrder | src-tauri/src/main.rs:172-176 | the matches come in text order and do not overlap |
| SaveScan.MatchesAreMatches | src-tauri/src/main.rs:172-176 | each listed match is the full match at its start |
| SaveScan.MatchesAreLeftmost | src-tauri/src/main.rs:172-176 | each match is the leftmost one at or after the end of the previous match |
| SaveScan.MatchesCoverEveryMatch | src-tauri/src/main.rs:172-176 | every position where a match starts lies inside some listed match |
| SaveScan.Scrape | src-tauri/src/main.rs:172-188 | one capture per match, each a non-empty run of the pattern's value class |
| SaveScan.ScrapeFromShift | src-tauri/src/main.rs:172-188 | text before the search position does not change what is scraped after it |
| SaveLines.ValueOutsideClassNoMatch | src-tauri/src/main.rs:178-188 | no match starts at the first byte of an array line whose value starts outside the capture class |
| SaveLines.ValueOutsideClassSkipped | src-tauri/src/main.rs:178-188 | an array line whose value starts outside the capture class adds nothing to the scrape: what is scraped is what the following text gives |
| SaveLines.IndexedLineScrape | src-tauri/src/main.rs:172-188 | a `name[i]: value` line contributes exactly its value, and the scrape resumes on the next line |
| SaveLines.IndexedLinesScrape | src-tauri/src/main.rs:172-188 | scraping the lines `name[i]: value` gives back exactly the values, in order |
| SaveLines.BracketFreeLineSkipped | src-tauri/src/main.rs:172-188 | a line holding no `[` contributes nothing to an indexed scrape |
| SaveLines.ForeignIndexedLineSkipped | src-tauri/src/main.rs:172-188 | an indexed line under another key, one that does not end in this key, contributes nothing |
| PlayerState.ParseU32 | src-tauri/src/main.rs:169 | a parsed value always fits in `u32` |
| PlayerState.ParseDigitsValue | src-tauri/src/main.rs:169 | a digit string parses to its decimal value when that fits in `u32`, and fails otherwise |
| PlayerState.ParseU32Digits | src-tauri/src/main.rs:169 | `parse::<u32>` of a non-empty digit run is its value if that is at most 4294967295, else an error |
| PlayerState.Level | src-tauri/src/main.rs:165-170 | the level always fits in `u32` |
| PlayerState.LevelOfLine | src-tauri/src/main.rs:165-170 | a save that starts with `level:` followed by spaces and n has level n when n fits in `u32`, and level 1 when n overflows |
| PlayerState.LevelWithoutKey | src-tauri/src/main.rs:165-170 | a save without `level` has level 1 |
| PlayerState.SaveFormatLineFound | src-tauri/src/main.rs:145-146 | a config holding `uset g_save_format "2"` anywhere counts as the text save format |
| PlayerState.ParseState | src-tauri/src/main.rs:165-196 | the level fits in `u32`; every skill, city and trailer entry is a value its regex can capture; the format flag is set exactly when the config holds the format line |
| PlayerState.SkillsRoundTrip | src-tauri/src/main.rs:172-176 | a save made of `skill_points[i]: v` lines yields exactly those skill values in order |
| PlayerState.CitiesRoundTrip | src-tauri/src/main.rs:178-182 | a save made of `city_discovered[i]: v` lines yields exactly those cities in order |
| PlayerState.TrailersRoundTrip | src-tauri/src/main.rs:184-188 | a save made of `owned_trailer[i]: v` lines yields exactly those trailers in order |
| PlayerState.FirstReadable | src-tauri/src/main.rs:155-162 | there is no save exactly when no slot is readable; otherwise it is the text of the first readable slot |
| PlayerState.ReadPlayerState | src-tauri/src/main.rs:137-197 | no Documents directory gives "No documents dir"; no readable slot among quick, autosave and autosave_job gives the save error; otherwise the state parsed from the first readable save, with an empty config when `config.cfg` cannot be read |
| ExampleSave.ExampleState | src-tauri/src/main.rs:165-196 | a save with `level: 7`, two skill lines and one city line gives level 7, skills 4 and 2, the city `berlin` and no trailers |

## Left out

- The Tauri wiring is not modelled: `main`, the command registration, and serializing results to JSON.
- `export_job_spec` is not modelled. It writes a file and does no computation of interest.
- The `eprintln!` diagnostics in `find_profiles` are output only.
- The operating system is modelled through inputs, and none of these is modelled itself:
  - `dirs::document_dir()` is an `Option` of a path.
  - The Windows registry value `InstallPath` is an `Option` of a text, and `None` stands for any failure to open the key or read the value.
  - `Path::exists` is a set of existing paths.
  - `fs::read_dir` is a map from each readable directory to its entries, with the unreadable entries already dropped (`entries.flatten()`).
  - `is_dir` is a flag on each entry.
  - `fs::read_to_string` is a map from each readable file to its text. A file that is missing, unreadable or not UTF-8 is simply absent from the map.
- Path rendering is not modelled. `to_string_lossy` of a profile path, and of a directory name that is not UTF-8, is left out: a path is its list of components and a name is its bytes.
- Path normalisation is not modelled. The default install directory is one component holding the Windows path string, so it never equals a path built by `join`.
- The regex classes are ASCII only. The `regex` crate's Unicode `\s` and `\d` also match non-ASCII spaces and digits; the model's `\s` is the six ASCII white-space bytes and its `\d` is `0`-`9`.
- HexName.DecodeHexName requires `SlicesOnBoundaries`. The Rust code panics when a chunk slice `os[i..i+2]` splits a character before any chunk fails to parse. The model does not represent the panic; it states the exact condition under which no panic occurs.
- Profiles.FindProfiles requires `RootsDecodable` for the same reason: each directory name must meet DecodeHexName's condition.
- Dlcs.DetectDlcs states only that `base` is set. The other eleven flags are stated by DetectDlcsFlag.
- SaveLines.IndexedLinesScrape covers only lines written with a single space after the colon. It does not cover every spacing the regex accepts; the plain-line lemma LevelOfLine does allow any white-space run.
