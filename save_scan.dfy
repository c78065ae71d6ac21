/** The four regex scrapes of `read_player_state`, written as explicit left-to-right
    scanners. Each pattern has the shape `<key>\s*(<value>+)` where the key is either
    `name:` or `name[\d+]:`. Since `\s`, `\d` and `[a-z0-9_.]` are disjoint from the byte
    that follows each repetition, a pattern matches at a given position in at most one
    way, and that way takes every repetition as far as it goes; the regex's leftmost-first
    search is then "the first position where the pattern matches". */
module SaveScan {
  import opened Wrappers
  import opened Bytes

  const OpenBracket: byte := 0x5B
  const CloseBracket: byte := 0x5D

  /** The byte classes the patterns repeat. */
  datatype ByteClass = Space | Digit | Ident

  predicate In(c: ByteClass, b: byte)
  {
    match c
    case Space => IsSpace(b)
    case Digit => IsDigit(b)
    case Ident => IsIdent(b)
  }

  /** A key: `name:` (Plain) or `name[<digits>]:` (Indexed). */
  datatype Key = Plain(name: Text) | Indexed(name: Text)

  /** A scrape pattern `<key>\s*(<value>+)`; the value class is Digit or Ident. */
  datatype Pattern = Pattern(key: Key, value: ByteClass)

  /** A match: the key starts at `start`, the captured value is `[valueStart, end)`. */
  datatype Match = Match(start: nat, valueStart: nat, end: nat)

  /** The end of the longest run of `c` bytes starting at `i`. */
  function RunEnd(t: Text, i: nat, c: ByteClass): (e: nat)
    requires i <= |t|
    ensures i <= e <= |t|
    ensures e == |t| || !In(c, t[e])
    decreases |t| - i
  {
    if i < |t| && In(c, t[i]) then RunEnd(t, i + 1, c) else i
  }

  /** Every byte the run covers is in the class. */
  lemma {:induction false} RunEndCovers(t: Text, i: nat, c: ByteClass)
    requires i <= |t|
    ensures forall k :: i <= k < RunEnd(t, i, c) ==> In(c, t[k])
    decreases |t| - i
  {
    if i < |t| && In(c, t[i]) {
      RunEndCovers(t, i + 1, c);
    }
  }

  /** A run is determined by where it starts: any maximal run from `i` ends where RunEnd
      says. */
  lemma {:induction false} RunEndIsMaximalRun(t: Text, i: nat, c: ByteClass, e: nat)
    requires i <= e <= |t|
    requires forall k :: i <= k < e ==> In(c, t[k])
    requires e == |t| || !In(c, t[e])
    ensures RunEnd(t, i, c) == e
    decreases e - i
  {
    if i < e {
      RunEndIsMaximalRun(t, i + 1, c, e);
    }
  }

  /** Where the key of `key` ends (just after its colon) when it occurs at `p`. */
  function KeyEnd(t: Text, p: nat, key: Key): (r: Option<nat>)
    requires p <= |t|
    ensures r.Some? ==> p < r.value <= |t|
  {
    if !OccursAt(t, key.name, p) then None
    else
      var q := p + |key.name|;
      match key
      case Plain(_) =>
        if q < |t| && t[q] == Colon then Some(q + 1) else None
      case Indexed(_) =>
        if q < |t| && t[q] == OpenBracket then
          var d := RunEnd(t, q + 1, Digit);
          if q + 1 < d && d + 1 < |t| && t[d] == CloseBracket && t[d + 1] == Colon then Some(d + 2) else None
        else None
  }

  /** The match of `pat` starting at `p`, if any: after the key, skip whitespace (newlines
      included), then capture the longest non-empty run of the value class. */
  function MatchAt(t: Text, p: nat, pat: Pattern): (r: Option<Match>)
    requires p <= |t|
    ensures r.Some? ==> r.value.start == p < r.value.valueStart < r.value.end <= |t|
  {
    match KeyEnd(t, p, pat.key)
    case None => None
    case Some(k) =>
      var v := RunEnd(t, k, Space);
      var e := RunEnd(t, v, pat.value);
      if v < e then Some(Match(p, v, e)) else None
  }

  /** What a match captures: a longest non-empty run of the value class. */
  lemma MatchAtCaptures(t: Text, p: nat, pat: Pattern)
    requires p <= |t| && MatchAt(t, p, pat).Some?
    ensures var m := MatchAt(t, p, pat).value;
      Valued(pat, Captured(t, m)) && (m.end == |t| || !In(pat.value, t[m.end]))
  {
    var k := KeyEnd(t, p, pat.key).value;
    RunEndCovers(t, RunEnd(t, k, Space), pat.value);
  }

  /** The leftmost match at or after `from` (`Regex::captures` from there). */
  function FirstMatch(t: Text, from: nat, pat: Pattern): Option<Match>
    requires from <= |t|
    decreases |t| - from
  {
    if MatchAt(t, from, pat).Some? then MatchAt(t, from, pat)
    else if from == |t| then None
    else FirstMatch(t, from + 1, pat)
  }

  /** What the search finds is a match of the pattern, at or after `from`. */
  lemma {:induction false} FirstMatchIsMatch(t: Text, from: nat, pat: Pattern)
    requires from <= |t| && FirstMatch(t, from, pat).Some?
    ensures var m := FirstMatch(t, from, pat).value;
      from <= m.start < m.valueStart < m.end <= |t| && MatchAt(t, m.start, pat) == Some(m)
    decreases |t| - from
  {
    if MatchAt(t, from, pat).None? {
      FirstMatchIsMatch(t, from + 1, pat);
    }
  }

  /** The match found is the leftmost one: the pattern matches nowhere between `from` and
      its start (nowhere at all from `from` on when nothing is found). */
  lemma {:induction false} FirstMatchIsLeftmost(t: Text, from: nat, pat: Pattern, p: nat)
    requires from <= p <= |t|
    requires FirstMatch(t, from, pat).None? || p < FirstMatch(t, from, pat).value.start
    ensures MatchAt(t, p, pat).None?
    decreases |t| - from
  {
    if p > from {
      FirstMatchIsLeftmost(t, from + 1, pat, p);
    }
  }

  /** A match anywhere from `from` on is found: the search reports a match that starts no
      later. */
  lemma {:induction false} FirstMatchFinds(t: Text, from: nat, pat: Pattern, p: nat)
    requires from <= p <= |t| && MatchAt(t, p, pat).Some?
    ensures FirstMatch(t, from, pat).Some? && FirstMatch(t, from, pat).value.start <= p
    decreases |t| - from
  {
    if MatchAt(t, from, pat).None? {
      FirstMatchFinds(t, from + 1, pat, p);
    }
  }

  /** Where the pattern matches nowhere from `from` on, the search finds nothing. */
  lemma {:induction false} FirstMatchNone(t: Text, from: nat, pat: Pattern)
    requires from <= |t|
    requires forall p :: from <= p <= |t| ==> MatchAt(t, p, pat).None?
    ensures FirstMatch(t, from, pat).None?
    decreases |t| - from
  {
    if from < |t| {
      FirstMatchNone(t, from + 1, pat);
    }
  }

  /** Every non-overlapping match from `from` on, in text order (`Regex::captures_iter`):
      after a match the search resumes where the match ended. */
  function Matches(t: Text, from: nat, pat: Pattern): (ms: seq<Match>)
    requires from <= |t|
    ensures forall i :: 0 <= i < |ms| ==> from <= ms[i].start < ms[i].valueStart < ms[i].end <= |t|
    decreases |t| - from
  {
    match FirstMatch(t, from, pat)
    case None => []
    case Some(m) =>
      FirstMatchIsMatch(t, from, pat);
      [m] + Matches(t, m.end, pat)
  }

  /** The reported matches do not overlap and come in text order. */
  lemma {:induction false} MatchesInOrder(t: Text, from: nat, pat: Pattern)
    requires from <= |t|
    ensures InOrder(Matches(t, from, pat))
    decreases |t| - from
  {
    if FirstMatch(t, from, pat).Some? {
      var m := FirstMatch(t, from, pat).value;
      FirstMatchIsMatch(t, from, pat);
      MatchesInOrder(t, m.end, pat);
      InOrderCons(m, Matches(t, m.end, pat));
    }
  }

  /** Every reported match is a genuine match of the pattern at its start. */
  lemma {:induction false} MatchesAreMatches(t: Text, from: nat, pat: Pattern, i: nat)
    requires from <= |t| && i < |Matches(t, from, pat)|
    ensures MatchAt(t, Matches(t, from, pat)[i].start, pat) == Some(Matches(t, from, pat)[i])
    decreases i
  {
    var m := FirstMatch(t, from, pat).value;
    FirstMatchIsMatch(t, from, pat);
    var rest := Matches(t, m.end, pat);
    assert Matches(t, from, pat) == [m] + rest;
    if i > 0 {
      MatchesAreMatches(t, m.end, pat, i - 1);
      assert ([m] + rest)[i] == rest[i - 1];
    }
  }

  /** Matches that do not overlap and come in text order. */
  predicate InOrder(ms: seq<Match>)
  {
    forall i, j :: 0 <= i < j < |ms| ==> ms[i].end <= ms[j].start
  }

  lemma InOrderCons(m: Match, ms: seq<Match>)
    requires InOrder(ms)
    requires forall j :: 0 <= j < |ms| ==> m.end <= ms[j].start
    ensures InOrder([m] + ms)
  {
    var ms' := [m] + ms;
    forall i, j | 0 <= i < j < |ms'| ensures ms'[i].end <= ms'[j].start {
      assert ms'[j] == ms[j - 1];
      if i > 0 {
        assert ms'[i] == ms[i - 1];
      }
    }
  }

  /** The scan misses nothing: every position where the pattern matches is either the
      start of a reported match or lies inside one (the regex never reports overlapping
      matches). */
  lemma {:induction false} MatchesCoverEveryMatch(t: Text, from: nat, pat: Pattern, p: nat)
    requires from <= p <= |t|
    requires MatchAt(t, p, pat).Some?
    ensures Covers(Matches(t, from, pat), p)
    decreases |t| - from
  {
    FirstMatchFinds(t, from, pat, p);
    var m := FirstMatch(t, from, pat).value;
    FirstMatchIsMatch(t, from, pat);
    var rest := Matches(t, m.end, pat);
    assert Matches(t, from, pat) == [m] + rest;
    if p >= m.end {
      MatchesCoverEveryMatch(t, m.end, pat, p);
    }
    CoversCons(m, rest, p);
  }

  /** Position `p` lies inside one of the matches. */
  predicate Covers(ms: seq<Match>, p: nat)
  {
    exists i :: 0 <= i < |ms| && ms[i].start <= p < ms[i].end
  }

  lemma CoversCons(m: Match, ms: seq<Match>, p: nat)
    requires m.start <= p < m.end || Covers(ms, p)
    ensures Covers([m] + ms, p)
  {
    if !(m.start <= p < m.end) {
      var i :| 0 <= i < |ms| && ms[i].start <= p < ms[i].end;
      assert ([m] + ms)[i + 1] == ms[i];
    } else {
      assert ([m] + ms)[0] == m;
    }
  }

  /** Each reported match is the leftmost match from where the previous one ended (from
      `from` for the first): so no match starts between two reported ones. */
  lemma {:induction false} MatchesAreLeftmost(t: Text, from: nat, pat: Pattern, i: nat)
    requires from <= |t| && i < |Matches(t, from, pat)|
    ensures FirstMatch(t, if i == 0 then from else Matches(t, from, pat)[i - 1].end, pat) ==
            Some(Matches(t, from, pat)[i])
    decreases i
  {
    var ms := Matches(t, from, pat);
    var m := FirstMatch(t, from, pat).value;
    FirstMatchIsMatch(t, from, pat);
    var rest := Matches(t, m.end, pat);
    assert ms == [m] + rest;
    if i == 1 {
      MatchesAreLeftmost(t, m.end, pat, 0);
      assert ms[1] == rest[0];
    } else if i > 1 {
      MatchesAreLeftmost(t, m.end, pat, i - 1);
      assert ms[i] == rest[i - 1];
      assert ms[i - 1] == rest[i - 2];
    }
  }

  /** The captured value of a match. */
  function Captured(t: Text, m: Match): Text
    requires m.valueStart <= m.end <= |t|
  {
    t[m.valueStart..m.end]
  }

  /** `captures_iter(t).map(|c| c[1].to_string()).collect()`: every captured value, in
      text order, duplicates included. Each is non-empty and made only of the value
      class. */
  function Scrape(t: Text, pat: Pattern): (vs: seq<Text>)
    ensures |vs| == |Matches(t, 0, pat)|
    ensures forall i :: 0 <= i < |vs| ==> Valued(pat, vs[i])
  {
    CapturesValued(t, 0, pat);
    ScrapeFrom(t, 0, pat)
  }

  /** The captured values of the matches from `from` on. */
  function ScrapeFrom(t: Text, from: nat, pat: Pattern): seq<Text>
    requires from <= |t|
  {
    Captures(t, Matches(t, from, pat))
  }

  /** The values captured by a list of matches. */
  function Captures(t: Text, ms: seq<Match>): (vs: seq<Text>)
    requires forall i :: 0 <= i < |ms| ==> ms[i].valueStart <= ms[i].end <= |t|
    ensures |vs| == |ms|
  {
    seq(|ms|, i requires 0 <= i < |ms| => Captured(t, ms[i]))
  }

  lemma CapturesValued(t: Text, from: nat, pat: Pattern)
    requires from <= |t|
    ensures forall i :: 0 <= i < |Matches(t, from, pat)| ==> Valued(pat, Captured(t, Matches(t, from, pat)[i]))
  {
    var ms := Matches(t, from, pat);
    forall i | 0 <= i < |ms| ensures Valued(pat, Captured(t, ms[i])) {
      MatchesAreMatches(t, from, pat, i);
      MatchAtCaptures(t, ms[i].start, pat);
    }
  }

  /** A captured value: non-empty and made only of the pattern's value class. */
  predicate Valued(pat: Pattern, v: Text)
  {
    v != [] && forall k :: 0 <= k < |v| ==> In(pat.value, v[k])
  }

  /** `m` moved `n` bytes to the right. */
  function Shift(m: Match, n: nat): Match
  {
    Match(m.start + n, m.valueStart + n, m.end + n)
  }

  function ShiftOption(r: Option<Match>, n: nat): Option<Match>
  {
    match r
    case None => None
    case Some(m) => Some(Shift(m, n))
  }

  /** Matching only looks forward: text put in front of `t` moves every match of `t` by its
      length and adds no match at or after the join. The lemmas below build this up
      from runs to whole scans. */
  lemma RunEndShift(pre: Text, t: Text, i: nat, c: ByteClass)
    requires i <= |t|
    ensures RunEnd(pre + t, |pre| + i, c) == |pre| + RunEnd(t, i, c)
  {
    var e := RunEnd(t, i, c);
    var u := pre + t;
    RunEndCovers(t, i, c);
    forall k | |pre| + i <= k < |pre| + e ensures In(c, u[k]) {
      assert u[k] == t[k - |pre|];
    }
    if |pre| + e < |u| {
      assert u[|pre| + e] == t[e];
    }
    RunEndIsMaximalRun(u, |pre| + i, c, |pre| + e);
  }

  lemma OccursAtShift(pre: Text, t: Text, p: nat, lit: Text)
    requires p <= |t|
    ensures OccursAt(pre + t, lit, |pre| + p) <==> OccursAt(t, lit, p)
  {
    if p + |lit| <= |t| {
      assert (pre + t)[|pre| + p..|pre| + p + |lit|] == t[p..p + |lit|];
    }
  }

  lemma KeyEndShift(pre: Text, t: Text, p: nat, key: Key)
    requires p <= |t|
    ensures KeyEnd(pre + t, |pre| + p, key) ==
      match KeyEnd(t, p, key) case None => None case Some(k) => Some(|pre| + k)
  {
    var u := pre + t;
    var q := p + |key.name|;
    OccursAtShift(pre, t, p, key.name);
    if OccursAt(t, key.name, p) && q < |t| {
      assert u[|pre| + q] == t[q];
      if key.Indexed? {
        RunEndShift(pre, t, q + 1, Digit);
        var d := RunEnd(t, q + 1, Digit);
        if d + 1 < |t| {
          assert u[|pre| + d] == t[d] && u[|pre| + d + 1] == t[d + 1];
        }
      }
    }
  }

  lemma MatchAtShift(pre: Text, t: Text, p: nat, pat: Pattern)
    requires p <= |t|
    ensures MatchAt(pre + t, |pre| + p, pat) ==
      ShiftOption(MatchAt(t, p, pat), |pre|)
  {
    KeyEndShift(pre, t, p, pat.key);
    if KeyEnd(t, p, pat.key).Some? {
      var k := KeyEnd(t, p, pat.key).value;
      RunEndShift(pre, t, k, Space);
      RunEndShift(pre, t, RunEnd(t, k, Space), pat.value);
    }
  }

  /** The outcome of `MatchAt` at every position of `t`, end of text included. */
  function AllAt(t: Text, pat: Pattern): (ats: seq<Option<Match>>)
    ensures |ats| == |t| + 1
  {
    seq(|t| + 1, p requires 0 <= p <= |t| => MatchAt(t, p, pat))
  }

  /** The first present entry of `ats` at or after `from`. */
  function FirstIn(ats: seq<Option<Match>>, from: nat): Option<Match>
    requires from < |ats|
    decreases |ats| - from
  {
    if ats[from].Some? then ats[from]
    else if from == |ats| - 1 then None
    else FirstIn(ats, from + 1)
  }

  /** The leftmost search is the first present entry of `AllAt`. */
  lemma {:induction false} FirstMatchIsFirstIn(t: Text, from: nat, pat: Pattern)
    requires from <= |t|
    ensures FirstMatch(t, from, pat) == FirstIn(AllAt(t, pat), from)
    decreases |t| - from
  {
    if from < |t| {
      FirstMatchIsFirstIn(t, from + 1, pat);
    }
  }

  /** Searching a table whose tail is another table moved by `k`. */
  lemma {:induction false} FirstInShift(a: seq<Option<Match>>, b: seq<Option<Match>>, k: nat, from: nat)
    requires TableShift(a, b, k) && from < |a|
    ensures FirstIn(b, k + from) == ShiftOption(FirstIn(a, from), k)
    decreases |a| - from
  {
    assert b[k + from] == ShiftOption(a[from], k);
    if a[from].None? && from < |a| - 1 {
      FirstInShift(a, b, k, from + 1);
    }
  }

  /** Table `b` ends with table `a`, every entry moved by `k`. */
  predicate TableShift(a: seq<Option<Match>>, b: seq<Option<Match>>, k: nat)
  {
    |b| == k + |a| && forall p :: 0 <= p < |a| ==> b[k + p] == ShiftOption(a[p], k)
  }

  /** The table of `pre + t` ends with the table of `t`, every entry moved by `|pre|`. */
  lemma AllAtShift(pre: Text, t: Text, pat: Pattern)
    ensures TableShift(AllAt(t, pat), AllAt(pre + t, pat), |pre|)
  {
    var a := AllAt(t, pat);
    var b := AllAt(pre + t, pat);
    forall p | 0 <= p < |a| ensures b[|pre| + p] == ShiftOption(a[p], |pre|) {
      MatchAtShift(pre, t, p, pat);
    }
  }

  /** The leftmost search in `u` from `k + from` is the search in `t` from `from`, moved
      by `k`, when the table of `u` ends with that of `t` moved by `k`. */
  lemma FirstMatchByTable(t: Text, u: Text, k: nat, from: nat, pat: Pattern)
    requires from <= |t| && TableShift(AllAt(t, pat), AllAt(u, pat), k)
    ensures FirstMatch(u, k + from, pat) == ShiftOption(FirstMatch(t, from, pat), k)
  {
    FirstInShift(AllAt(t, pat), AllAt(u, pat), k, from);
    FirstMatchIsFirstIn(t, from, pat);
    FirstMatchIsFirstIn(u, k + from, pat);
  }

  lemma FirstMatchShift(pre: Text, t: Text, from: nat, pat: Pattern)
    requires from <= |t|
    ensures FirstMatch(pre + t, |pre| + from, pat) == ShiftOption(FirstMatch(t, from, pat), |pre|)
  {
    AllAtShift(pre, t, pat);
    FirstMatchByTable(t, pre + t, |pre|, from, pat);
  }

  function ShiftAll(ms: seq<Match>, n: nat): (r: seq<Match>)
    ensures |r| == |ms|
  {
    seq(|ms|, i requires 0 <= i < |ms| => Shift(ms[i], n))
  }

  /** The non-overlapping matches read off a table of outcomes, as `Matches` reads them
      off the text; a match that would not move the search forward ends the list. */
  function MatchesIn(ats: seq<Option<Match>>, from: nat): seq<Match>
    requires from < |ats|
    decreases |ats| - from
  {
    match FirstIn(ats, from)
    case None => []
    case Some(m) => if from < m.end < |ats| then [m] + MatchesIn(ats, m.end) else [m]
  }

  lemma {:induction false} MatchesIsMatchesIn(t: Text, from: nat, pat: Pattern)
    requires from <= |t|
    ensures Matches(t, from, pat) == MatchesIn(AllAt(t, pat), from)
    decreases |t| - from
  {
    FirstMatchIsFirstIn(t, from, pat);
    match FirstMatch(t, from, pat)
    case None =>
    case Some(m) =>
      FirstMatchIsMatch(t, from, pat);
      MatchesIsMatchesIn(t, m.end, pat);
  }

  lemma {:induction false} MatchesInShift(a: seq<Option<Match>>, b: seq<Option<Match>>, k: nat, from: nat)
    requires TableShift(a, b, k) && from < |a|
    ensures MatchesIn(b, k + from) == ShiftAll(MatchesIn(a, from), k)
    decreases |a| - from
  {
    FirstInShift(a, b, k, from);
    match FirstIn(a, from)
    case None =>
    case Some(m) =>
      if from < m.end < |a| {
        MatchesInShift(a, b, k, m.end);
        assert k + m.end == Shift(m, k).end;
      }
  }

  lemma MatchesByTable(t: Text, u: Text, k: nat, from: nat, pat: Pattern)
    requires from <= |t| && TableShift(AllAt(t, pat), AllAt(u, pat), k)
    ensures Matches(u, k + from, pat) == ShiftAll(Matches(t, from, pat), k)
  {
    MatchesInShift(AllAt(t, pat), AllAt(u, pat), k, from);
    MatchesIsMatchesIn(t, from, pat);
    MatchesIsMatchesIn(u, k + from, pat);
  }

  /** Every match in `t` is a match in `pre + t`, moved by `|pre|`, and there are no
      others from the join on. */
  lemma MatchesShift(pre: Text, t: Text, from: nat, pat: Pattern)
    requires from <= |t|
    ensures Matches(pre + t, |pre| + from, pat) == ShiftAll(Matches(t, from, pat), |pre|)
  {
    AllAtShift(pre, t, pat);
    MatchesByTable(t, pre + t, |pre|, from, pat);
  }

  lemma CapturesShift(pre: Text, t: Text, ms: seq<Match>)
    requires forall i :: 0 <= i < |ms| ==> ms[i].valueStart <= ms[i].end <= |t|
    ensures Captures(pre + t, ShiftAll(ms, |pre|)) == Captures(t, ms)
  {
    var u := pre + t;
    var ns := ShiftAll(ms, |pre|);
    forall i | 0 <= i < |ms| ensures Captured(u, ns[i]) == Captured(t, ms[i]) {
      assert u[ms[i].valueStart + |pre|..ms[i].end + |pre|] == t[ms[i].valueStart..ms[i].end];
    }
  }

  /** Text in front does not change what is captured from the join on. */
  lemma ScrapeFromShift(pre: Text, t: Text, from: nat, pat: Pattern)
    requires from <= |t|
    ensures ScrapeFrom(pre + t, |pre| + from, pat) == ScrapeFrom(t, from, pat)
  {
    MatchesShift(pre, t, from, pat);
    CapturesShift(pre, t, Matches(t, from, pat));
  }

  lemma CapturesCons(t: Text, m: Match, ms: seq<Match>)
    requires m.valueStart <= m.end <= |t|
    requires forall i :: 0 <= i < |ms| ==> ms[i].valueStart <= ms[i].end <= |t|
    ensures Captures(t, [m] + ms) == [Captured(t, m)] + Captures(t, ms)
  {
    var ns := [m] + ms;
    forall i | 1 <= i < |ns| ensures Captured(t, ns[i]) == Captured(t, ms[i - 1]) {
      assert ns[i] == ms[i - 1];
    }
  }

  /** One step of the scan: the first capture, then the scan from where it ended. */
  lemma ScrapeFromCons(t: Text, from: nat, pat: Pattern)
    requires from <= |t| && FirstMatch(t, from, pat).Some?
    ensures var m := FirstMatch(t, from, pat).value;
      m.valueStart <= m.end <= |t| &&
      ScrapeFrom(t, from, pat) == [Captured(t, m)] + ScrapeFrom(t, m.end, pat)
  {
    var m := FirstMatch(t, from, pat).value;
    FirstMatchIsMatch(t, from, pat);
    assert Matches(t, from, pat) == [m] + Matches(t, m.end, pat);
    CapturesCons(t, m, Matches(t, m.end, pat));
  }

  /** A position where the pattern cannot match is skipped. */
  lemma ScrapeFromSkip(t: Text, from: nat, pat: Pattern)
    requires from < |t| && MatchAt(t, from, pat).None?
    ensures ScrapeFrom(t, from, pat) == ScrapeFrom(t, from + 1, pat)
  {
    assert FirstMatch(t, from, pat) == FirstMatch(t, from + 1, pat);
    assert Matches(t, from, pat) == Matches(t, from + 1, pat);
  }
}
