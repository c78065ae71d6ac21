/** A small save text worked through every scrape: one level line, two skill lines and
    one city line give level 7, skills 4 and 2, the city `berlin` and no trailers. */
module ExampleSave {
  import opened Wrappers
  import opened Bytes
  import opened SaveScan
  import opened SaveLines
  import opened PlayerState

  const SaveText: Text :=
    Ascii("level: 7\n") + Ascii("skill_points[0]: 4\n") + Ascii("skill_points[1]: 2\n") +
    Ascii("city_discovered[0]: berlin\n")

  const LevelLineText: Text := PlainLine(LevelKey, [Blank], Decimal(7))
  const Skill0: Text := IndexedLine(SkillKey, 0, Ascii("4"))
  const Skill1: Text := IndexedLine(SkillKey, 1, Ascii("2"))
  const City0: Text := IndexedLine(CityKey, 0, Ascii("berlin"))

  lemma LevelLineIsText()
    ensures Ascii("level: 7\n") == LevelLineText
  {
    assert Decimal(7) == [0x37];
  }

  lemma SkillLinesAreText()
    ensures Ascii("skill_points[0]: 4\n") == Skill0 && Ascii("skill_points[1]: 2\n") == Skill1
  {
    assert Decimal(0) == [0x30];
    assert Decimal(1) == [0x31];
  }

  lemma CityLineIsText()
    ensures Ascii("city_discovered[0]: berlin\n") == City0
  {
    assert Decimal(0) == [0x30];
  }

  /** The text is the four lines one after the other. */
  lemma SaveTextLines()
    ensures SaveText == LevelLineText + (Skill0 + (Skill1 + City0))
  {
    LevelLineIsText();
    SkillLinesAreText();
    CityLineIsText();
  }

  lemma ValuesHaveNoBracket()
    ensures OpenBracket !in Ascii("4") && OpenBracket !in Ascii("2") && OpenBracket !in Ascii("berlin")
  {
    assert forall i :: 0 <= i < 6 ==> Ascii("berlin")[i] != OpenBracket;
  }

  lemma ExampleLevel()
    ensures Level(SaveText) == 7
  {
    SaveTextLines();
    LevelOfLine([Blank], 7, Skill0 + (Skill1 + City0));
  }

  /** No scraped name is a suffix of another, so one array's lines never hold another's
      key. */
  lemma NamesAreNotSuffixes()
    ensures !(|SkillKey| <= |CityKey| && CityKey[|CityKey| - |SkillKey|..] == SkillKey)
    ensures !(|TrailerKey| <= |CityKey| && CityKey[|CityKey| - |TrailerKey|..] == TrailerKey)
    ensures |SkillKey| < |CityKey| && |SkillKey| < |TrailerKey|
  {
    assert CityKey[|CityKey| - |SkillKey|..][0] != SkillKey[0];
    assert CityKey[|CityKey| - |TrailerKey|..][0] != TrailerKey[0];
  }

  /** The level line holds no `[`. */
  lemma LevelLineShape()
    ensures LevelLineText != [] && LevelLineText[|LevelLineText| - 1] == Newline
    ensures OpenBracket !in LevelLineText
  {
    KeysArePlain();
    assert Decimal(7) == [0x37];
  }

  lemma ExampleSkills()
    ensures Scrape(SaveText, SkillPattern) == [Ascii("4"), Ascii("2")]
  {
    var pat := SkillPattern;
    SaveTextLines();
    KeysArePlain();
    ValuesHaveNoBracket();
    assert Ascii("4") == [0x34] && Ascii("2") == [0x32];
    calc {
      ScrapeFrom(SaveText, 0, pat);
      { LevelLineShape();
        BracketFreeLineSkipped(LevelLineText, Skill0 + (Skill1 + City0), pat); }
      ScrapeFrom(Skill0 + (Skill1 + City0), 0, pat);
      { IndexedLineScrape(SkillKey, 0, Ascii("4"), Skill1 + City0, pat); }
      [Ascii("4")] + ScrapeFrom(Skill1 + City0, 0, pat);
      { IndexedLineScrape(SkillKey, 1, Ascii("2"), City0, pat); }
      [Ascii("4")] + ([Ascii("2")] + ScrapeFrom(City0, 0, pat));
      { assert City0 + [] == City0;
        NamesAreNotSuffixes();
        ForeignIndexedLineSkipped(CityKey, 0, Ascii("berlin"), [], pat);
        assert FirstMatch([], 0, pat) == None; }
      [Ascii("4")] + ([Ascii("2")] + []);
    }
  }

  lemma ExampleCities()
    ensures Scrape(SaveText, CityPattern) == [Ascii("berlin")]
  {
    var pat := CityPattern;
    SaveTextLines();
    KeysArePlain();
    ValuesHaveNoBracket();
    calc {
      ScrapeFrom(SaveText, 0, pat);
      { LevelLineShape();
        BracketFreeLineSkipped(LevelLineText, Skill0 + (Skill1 + City0), pat); }
      ScrapeFrom(Skill0 + (Skill1 + City0), 0, pat);
      { NamesAreNotSuffixes();
        ForeignIndexedLineSkipped(SkillKey, 0, Ascii("4"), Skill1 + City0, pat); }
      ScrapeFrom(Skill1 + City0, 0, pat);
      { NamesAreNotSuffixes();
        ForeignIndexedLineSkipped(SkillKey, 1, Ascii("2"), City0, pat); }
      ScrapeFrom(City0, 0, pat);
      { assert City0 + [] == City0;
        assert forall i :: 0 <= i < 6 ==> IsIdent(Ascii("berlin")[i]);
        IndexedLineScrape(CityKey, 0, Ascii("berlin"), [], pat);
        assert FirstMatch([], 0, pat) == None; }
      [Ascii("berlin")];
    }
  }

  lemma ExampleTrailers()
    ensures Scrape(SaveText, TrailerPattern) == []
  {
    var pat := TrailerPattern;
    SaveTextLines();
    KeysArePlain();
    ValuesHaveNoBracket();
    calc {
      ScrapeFrom(SaveText, 0, pat);
      { LevelLineShape();
        BracketFreeLineSkipped(LevelLineText, Skill0 + (Skill1 + City0), pat); }
      ScrapeFrom(Skill0 + (Skill1 + City0), 0, pat);
      { NamesAreNotSuffixes();
        ForeignIndexedLineSkipped(SkillKey, 0, Ascii("4"), Skill1 + City0, pat); }
      ScrapeFrom(Skill1 + City0, 0, pat);
      { NamesAreNotSuffixes();
        ForeignIndexedLineSkipped(SkillKey, 1, Ascii("2"), City0, pat); }
      ScrapeFrom(City0, 0, pat);
      { assert City0 + [] == City0;
        NamesAreNotSuffixes();
        ForeignIndexedLineSkipped(CityKey, 0, Ascii("berlin"), [], pat);
        assert FirstMatch([], 0, pat) == None; }
      [];
    }
  }

  /** The whole state read from the example text, with any config. */
  lemma ExampleState(cfg: Text)
    ensures ParseState(SaveText, cfg) ==
      PlayerState(7, [Ascii("4"), Ascii("2")], [Ascii("berlin")], [], SaveFormatOk(cfg))
  {
    ExampleLevel();
    ExampleSkills();
    ExampleCities();
    ExampleTrailers();
  }
}
