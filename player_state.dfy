/** `read_player_state`: pick the first readable save slot of a profile, check the game's
    config for the text save format, and scrape the level, skill points, discovered cities
    and owned trailers out of the save text. */
module PlayerState {
  import opened Wrappers
  import opened Bytes
  import opened Paths
  import opened SaveScan
  import opened SaveLines

  /** The largest `u32`. */
  const U32Max: nat := 0xFFFF_FFFF

  const LevelKey: Text := Ascii("level")
  const SkillKey: Text := Ascii("skill_points")
  const CityKey: Text := Ascii("city_discovered")
  const TrailerKey: Text := Ascii("owned_trailer")

  /** `level:\s*(\d+)` */
  const LevelPattern: Pattern := Pattern(Plain(LevelKey), Digit)
  /** `skill_points\[\d+\]:\s*(\d+)` */
  const SkillPattern: Pattern := Pattern(Indexed(SkillKey), Digit)
  /** `city_discovered\[\d+\]:\s*([a-z0-9_\.]+)` */
  const CityPattern: Pattern := Pattern(Indexed(CityKey), Ident)
  /** `owned_trailer\[\d+\]:\s*([a-z0-9_\.]+)` */
  const TrailerPattern: Pattern := Pattern(Indexed(TrailerKey), Ident)

  /** The config line that selects the plain-text save format. */
  const TextFormatLine: Text := Ascii("uset g_save_format \"2\"")

  const NoDocumentsDir: string := "No documents dir"
  const NoSave: string := "Couldn't read save. Make a quick save in-game."

  datatype PlayerState = PlayerState(
    level: nat,
    skills: seq<Text>,
    discoveredCities: seq<Text>,
    ownedTrailers: seq<Text>,
    saveFormatOk: bool)

  /** The digits of `str::parse::<u32>` from the running value `acc`: each step is a
      checked multiply by ten, then a checked add of the digit; a non-digit or an overflow
      is an error. */
  function ParseDigits(acc: nat, ds: Text): (r: Option<nat>)
    requires acc <= U32Max
    ensures r.Some? ==> r.value <= U32Max
    decreases |ds|
  {
    if ds == [] then Some(acc)
    else if !IsDigit(ds[0]) then None
    else if acc * 10 > U32Max then None
    else if acc * 10 + (ds[0] - 0x30) as nat > U32Max then None
    else ParseDigits(acc * 10 + (ds[0] - 0x30) as nat, ds[1..])
  }

  /** `str::parse::<u32>`: an optional `+`, then at least one decimal digit. */
  function ParseU32(s: Text): (r: Option<nat>)
    ensures r.Some? ==> r.value <= U32Max
  {
    if s == [] || s == [Plus] then None
    else if s[0] == Plus then ParseDigits(0, s[1..])
    else ParseDigits(0, s)
  }

  /** The checked accumulation fails exactly when the digits' value does not fit in a
      `u32`, and otherwise gives that value. */
  lemma {:induction false} ParseDigitsValue(acc: nat, ds: Text)
    requires acc <= U32Max && AllDigits(ds)
    ensures ParseDigits(acc, ds) ==
      if DigitsValueFrom(acc, ds) <= U32Max then Some(DigitsValueFrom(acc, ds)) else None
    decreases |ds|
  {
    if ds != [] {
      var n := acc * 10 + (ds[0] - 0x30) as nat;
      DigitsValueFromGrows(n, ds[1..]);
      if n <= U32Max {
        ParseDigitsValue(n, ds[1..]);
      }
    }
  }

  /** A run of digits parses to its value exactly when that value fits in a `u32`. */
  lemma ParseU32Digits(ds: Text)
    requires ds != [] && AllDigits(ds)
    ensures ParseU32(ds) == if DigitsValue(ds) <= U32Max then Some(DigitsValue(ds)) else None
  {
    assert IsDigit(ds[0]);
    ParseDigitsValue(0, ds);
  }

  /** The player's level: the first match of `level:\s*(\d+)`, parsed as a `u32`; 1 when
      there is no match or the number does not fit. */
  function Level(save: Text): (level: nat)
    ensures level <= U32Max
  {
    match FirstMatch(save, 0, LevelPattern)
    case None => 1
    case Some(m) =>
      FirstMatchIsMatch(save, 0, LevelPattern);
      match ParseU32(Captured(save, m))
      case None => 1
      case Some(v) => v
  }

  /** Round trip for the level: a save that starts with `level:`, any whitespace (line
      breaks included) and the digits of `n` has level `n`, or 1 when `n` overflows a
      `u32`, whatever follows (later `level:` lines included). */
  lemma LevelOfLine(ws: Text, n: nat, rest: Text)
    requires AllSpace(ws)
    ensures Level(PlainLine(LevelKey, ws, Decimal(n)) + rest) == if n <= U32Max then n else 1
  {
    var t := PlainLine(LevelKey, ws, Decimal(n)) + rest;
    var v := |LevelKey| + 1 + |ws|;
    var m := Match(0, v, v + |Decimal(n)|);
    PlainLineMatch(LevelKey, ws, Decimal(n), rest, LevelPattern);
    assert FirstMatch(t, 0, LevelPattern) == Some(m);
    assert Captured(t, m) == Decimal(n);
    ParseU32Digits(Decimal(n));
  }

  /** A save in which `level` never occurs has level 1. */
  lemma LevelWithoutKey(save: Text)
    requires forall p :: 0 <= p <= |save| ==> !OccursAt(save, LevelKey, p)
    ensures Level(save) == 1
  {
    forall p | 0 <= p <= |save| ensures MatchAt(save, p, LevelPattern).None? {
      assert KeyEnd(save, p, LevelPattern.key).None?;
    }
    FirstMatchNone(save, 0, LevelPattern);
  }

  /** A config selects the text save format when the line occurs anywhere in it. */
  function SaveFormatOk(cfg: Text): bool
  {
    Contains(cfg, TextFormatLine)
  }

  /** The config line anywhere in the config, with anything around it, is found. */
  lemma SaveFormatLineFound(before: Text, after: Text)
    ensures SaveFormatOk(before + TextFormatLine + after)
  {
    var cfg := before + TextFormatLine + after;
    assert cfg[|before|..|before| + |TextFormatLine|] == TextFormatLine;
    assert OccursAt(cfg, TextFormatLine, |before|);
  }

  /** Everything the command reports, read off the save text and the config text. */
  function ParseState(save: Text, cfg: Text): (s: PlayerState)
    ensures s.level <= U32Max
    ensures forall i :: 0 <= i < |s.skills| ==> Valued(SkillPattern, s.skills[i])
    ensures forall i :: 0 <= i < |s.discoveredCities| ==> Valued(CityPattern, s.discoveredCities[i])
    ensures forall i :: 0 <= i < |s.ownedTrailers| ==> Valued(TrailerPattern, s.ownedTrailers[i])
    ensures s.saveFormatOk <==> exists i :: 0 <= i && OccursAt(cfg, TextFormatLine, i)
  {
    PlayerState(
      Level(save),
      Scrape(save, SkillPattern),
      Scrape(save, CityPattern),
      Scrape(save, TrailerPattern),
      SaveFormatOk(cfg))
  }

  /** No line break and no `[` in the scraped names, so a line break never starts a key and
      one name's lines never hold another's key. */
  lemma KeysArePlain()
    ensures Newline !in SkillKey && Newline !in CityKey && Newline !in TrailerKey
    ensures OpenBracket !in LevelKey && OpenBracket !in SkillKey && OpenBracket !in CityKey
  {
    assert forall i :: 0 <= i < |SkillKey| ==> SkillKey[i] != Newline && SkillKey[i] != OpenBracket;
    assert forall i :: 0 <= i < |CityKey| ==> CityKey[i] != Newline && CityKey[i] != OpenBracket;
    assert forall i :: 0 <= i < |TrailerKey| ==> TrailerKey[i] != Newline;
    assert forall i :: 0 <= i < |LevelKey| ==> LevelKey[i] != OpenBracket;
  }

  /** Round trip for the skill points: the lines `skill_points[i]: <v>` give back every
      value written, in order, duplicates and index gaps included. */
  lemma SkillsRoundTrip(elems: seq<Element>, cfg: Text)
    requires forall i :: 0 <= i < |elems| ==> Valued(SkillPattern, elems[i].value)
    ensures ParseState(IndexedLines(SkillKey, elems), cfg).skills == Values(elems)
  {
    assert Newline !in SkillKey by {
      KeysArePlain();
    }
    assert Scrape(IndexedLines(SkillKey, elems), SkillPattern) == Values(elems) by {
      IndexedLinesScrape(SkillKey, elems, SkillPattern);
    }
  }

  /** Round trip for the discovered cities. */
  lemma CitiesRoundTrip(elems: seq<Element>, cfg: Text)
    requires forall i :: 0 <= i < |elems| ==> Valued(CityPattern, elems[i].value)
    ensures ParseState(IndexedLines(CityKey, elems), cfg).discoveredCities == Values(elems)
  {
    assert Newline !in CityKey by {
      KeysArePlain();
    }
    assert Scrape(IndexedLines(CityKey, elems), CityPattern) == Values(elems) by {
      IndexedLinesScrape(CityKey, elems, CityPattern);
    }
  }

  /** Round trip for the owned trailers. */
  lemma TrailersRoundTrip(elems: seq<Element>, cfg: Text)
    requires forall i :: 0 <= i < |elems| ==> Valued(TrailerPattern, elems[i].value)
    ensures ParseState(IndexedLines(TrailerKey, elems), cfg).ownedTrailers == Values(elems)
  {
    assert Newline !in TrailerKey by {
      KeysArePlain();
    }
    assert Scrape(IndexedLines(TrailerKey, elems), TrailerPattern) == Values(elems) by {
      IndexedLinesScrape(TrailerKey, elems, TrailerPattern);
    }
  }

  /** The save slots tried, in order: quick save, autosave, then the job autosave. */
  function SaveSlots(profile: Path): (slots: seq<Path>)
    ensures |slots| == 3
  {
    var save := Join(profile, Ascii("save"));
    [Join(Join(save, Ascii("quick")), Ascii("game.sii")),
     Join(Join(save, Ascii("autosave")), Ascii("game.sii")),
     Join(Join(save, Ascii("autosave_job")), Ascii("game.sii"))]
  }

  /** The game's config file under the Documents directory. */
  function ConfigPath(docs: Path): Path
  {
    Join(Join(docs, GameDir), Ascii("config.cfg"))
  }

  /** The contents of the first path that can be read, if any. `texts` holds the files
      that can be read as text. */
  function FirstReadable(texts: map<Path, Text>, paths: seq<Path>): (r: Option<Text>)
    ensures r.None? <==> forall i :: 0 <= i < |paths| ==> paths[i] !in texts
    ensures r.Some? ==> exists i :: 0 <= i < |paths| && paths[i] in texts && r.value == texts[paths[i]] &&
                                    forall j :: 0 <= j < i ==> paths[j] !in texts
    decreases |paths|
  {
    if paths == [] then None
    else if paths[0] in texts then
      Some(texts[paths[0]])
    else
      var r := FirstReadable(texts, paths[1..]);
      assert forall i :: 1 <= i < |paths| ==> paths[i] == paths[1..][i - 1];
      if r.Some? then
        var i :| 0 <= i < |paths[1..]| && paths[1..][i] in texts && r.value == texts[paths[1..][i]] &&
                 forall j :: 0 <= j < i ==> paths[1..][j] !in texts;
        assert paths[i + 1] in texts && forall j :: 0 <= j < i + 1 ==> paths[j] !in texts;
        r
      else r
  }

  /** `read_player_state(profile)`, given the Documents directory (`None` when the system
      has none) and the files that can be read as text. The Documents directory is checked
      first; a missing config reads as empty; the first readable save slot is scraped. */
  method ReadPlayerState(profile: Path, docs: Option<Path>, texts: map<Path, Text>)
    returns (r: Result<PlayerState, string>)
    ensures docs.None? ==> r == Err(NoDocumentsDir)
    ensures docs.Some? ==>
      var cfg := if ConfigPath(docs.value) in texts then texts[ConfigPath(docs.value)] else [];
      r == match FirstReadable(texts, SaveSlots(profile))
           case None => Err(NoSave)
           case Some(save) => Ok(ParseState(save, cfg))
  {
    if docs.None? {
      return Err(NoDocumentsDir);
    }
    var cfgPath := ConfigPath(docs.value);
    var cfg: Text := if cfgPath in texts then texts[cfgPath] else [];
    var saveFormatOk := SaveFormatOk(cfg);

    var candidates := SaveSlots(profile);
    var saveText: Option<Text> := None;
    for i := 0 to |candidates|
      invariant saveText.None?
      invariant FirstReadable(texts, candidates) == FirstReadable(texts, candidates[i..])
    {
      if candidates[i] in texts {
        assert candidates[i..][0] == candidates[i];
        saveText := Some(texts[candidates[i]]);
        break;
      }
      assert candidates[i..][1..] == candidates[i + 1..];
    }
    if saveText.None? {
      assert candidates[|candidates|..] == [];
      return Err(NoSave);
    }
    var save := saveText.value;

    var level := Level(save);
    var skills := Scrape(save, SkillPattern);
    var discoveredCities := Scrape(save, CityPattern);
    var ownedTrailers := Scrape(save, TrailerPattern);
    r := Ok(PlayerState(level, skills, discoveredCities, ownedTrailers, saveFormatOk));
  }
}
