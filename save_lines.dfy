/** The lines a game save writes for its entries, and what the scrapes read back from
    them: a plain entry `name: value` and the elements `name[i]: value` of an array
    entry, each on its own line. */
module SaveLines {
  import opened Wrappers
  import opened Bytes
  import opened SaveScan

  const Blank: byte := 0x20

  /** `<name>:`, whitespace `ws` (line breaks allowed), `<value>` and a line break. */
  function PlainLine(name: Text, ws: Text, value: Text): Text
  {
    name + [Colon] + ws + value + [Newline]
  }

  predicate AllSpace(ws: Text)
  {
    forall i :: 0 <= i < |ws| ==> IsSpace(ws[i])
  }

  /** `<name>[<index>]: <value>` and a line break: one element of an array entry. */
  function IndexedLine(name: Text, index: nat, value: Text): Text
  {
    name + [OpenBracket] + Decimal(index) + [CloseBracket, Colon, Blank] + value + [Newline]
  }

  /** One element of an array entry: its index and its value. */
  datatype Element = Element(index: nat, value: Text)

  /** The elements of an array entry, one line each, in the order given (indices may have
      gaps, repeat or go backwards). */
  function IndexedLines(name: Text, elems: seq<Element>): Text
    decreases |elems|
  {
    if elems == [] then []
    else IndexedLine(name, elems[0].index, elems[0].value) + IndexedLines(name, elems[1..])
  }

  /** The values of the elements, in order. */
  function Values(elems: seq<Element>): (vs: seq<Text>)
    ensures |vs| == |elems| && forall i :: 0 <= i < |elems| ==> vs[i] == elems[i].value
  {
    seq(|elems|, i requires 0 <= i < |elems| => elems[i].value)
  }

  /** After a key that ends at `k`, a run of whitespace up to `v` and a non-empty run of
      the value class from `v` to `e` make a match, and its value is that run. */
  lemma MatchAfterKey(t: Text, p: nat, pat: Pattern, k: nat, v: nat, e: nat)
    requires p <= |t| && KeyEnd(t, p, pat.key) == Some(k)
    requires pat.value != Space
    requires k <= v < e <= |t|
    requires forall j :: k <= j < v ==> IsSpace(t[j])
    requires Valued(pat, t[v..e])
    requires e == |t| || !In(pat.value, t[e])
    ensures MatchAt(t, p, pat) == Some(Match(p, v, e))
  {
    forall j | v <= j < e ensures In(pat.value, t[j]) {
      assert t[j] == t[v..e][j - v];
    }
    RunEndIsMaximalRun(t, k, Space, v);
    RunEndIsMaximalRun(t, v, pat.value, e);
  }

  /** A plain line matches the plain pattern of its name at its first byte, capturing
      exactly its value, whatever whitespace separates the two. */
  lemma PlainLineMatch(name: Text, ws: Text, value: Text, rest: Text, pat: Pattern)
    requires pat.key == Plain(name) && pat.value != Space && AllSpace(ws) && Valued(pat, value)
    ensures var t := PlainLine(name, ws, value) + rest;
      var v := |name| + 1 + |ws|;
      MatchAt(t, 0, pat) == Some(Match(0, v, v + |value|))
  {
    var t := PlainLine(name, ws, value) + rest;
    var n := |name|;
    var v := n + 1 + |ws|;
    assert t[..n] == name;
    assert t[n] == Colon;
    assert KeyEnd(t, 0, pat.key) == Some(n + 1);
    forall j | n + 1 <= j < v ensures IsSpace(t[j]) {
      assert t[j] == ws[j - n - 1];
    }
    assert t[v..v + |value|] == value;
    assert t[v + |value|] == Newline;
    MatchAfterKey(t, 0, pat, n + 1, v, v + |value|);
  }

  /** The key of an array element line ends after `name[<index>]:`. */
  lemma IndexedLineKey(name: Text, index: nat, value: Text, rest: Text)
    ensures KeyEnd(IndexedLine(name, index, value) + rest, 0, Indexed(name)) ==
      Some(|name| + |Decimal(index)| + 3)
  {
    var t := IndexedLine(name, index, value) + rest;
    var n := |name|;
    var ds := Decimal(index);
    var d := n + 1 + |ds|;
    assert t[..n] == name;
    assert t[n] == OpenBracket;
    forall j | n + 1 <= j < d ensures In(Digit, t[j]) {
      assert t[j] == ds[j - n - 1];
    }
    assert t[d] == CloseBracket && t[d + 1] == Colon;
    RunEndIsMaximalRun(t, n + 1, Digit, d);
  }

  /** An array element line matches the indexed pattern of its name at its first byte,
      capturing exactly its value. */
  lemma IndexedLineMatch(name: Text, index: nat, value: Text, rest: Text, pat: Pattern)
    requires pat.key == Indexed(name) && pat.value != Space && Valued(pat, value)
    ensures var t := IndexedLine(name, index, value) + rest;
      var k := |name| + |Decimal(index)| + 3;
      MatchAt(t, 0, pat) == Some(Match(0, k + 1, k + 1 + |value|))
  {
    var t := IndexedLine(name, index, value) + rest;
    var k := |name| + |Decimal(index)| + 3;
    IndexedLineKey(name, index, value, rest);
    IndexedLineValue(name, index, value, rest);
    MatchAfterBlank(t, pat, k, value);
  }

  /** A key ending at `k`, one blank, a value and a line break make a match that captures
      the value. */
  lemma MatchAfterBlank(t: Text, pat: Pattern, k: nat, value: Text)
    requires KeyEnd(t, 0, pat.key) == Some(k) && pat.value != Space && Valued(pat, value)
    requires k + 1 + |value| < |t| && t[k] == Blank && t[k + 1 + |value|] == Newline
    requires t[k + 1..k + 1 + |value|] == value
    ensures MatchAt(t, 0, pat) == Some(Match(0, k + 1, k + 1 + |value|))
  {
    MatchAfterKey(t, 0, pat, k, k + 1, k + 1 + |value|);
  }

  /** Where the value of an array element line sits: after a single blank, and followed
      by the line break. */
  lemma IndexedLineValue(name: Text, index: nat, value: Text, rest: Text)
    ensures var t := IndexedLine(name, index, value) + rest;
      var k := |name| + |Decimal(index)| + 3;
      k + 1 + |value| < |t| && t[k] == Blank && t[k + 1 + |value|] == Newline &&
      t[k + 1..k + 1 + |value|] == value
  {
    var t := IndexedLine(name, index, value) + rest;
    var k := |name| + |Decimal(index)| + 3;
    var head := name + [OpenBracket] + Decimal(index) + [CloseBracket, Colon, Blank];
    assert |head| == k + 1;
    assert t == head + value + ([Newline] + rest);
  }

  /** An array element whose value starts outside the value class (and is not whitespace)
      gives no match at its line: the key is there but nothing is captured. */
  lemma ValueOutsideClassNoMatch(name: Text, index: nat, value: Text, rest: Text, pat: Pattern)
    requires pat.key == Indexed(name)
    requires value != [] && !In(pat.value, value[0]) && !IsSpace(value[0])
    ensures MatchAt(IndexedLine(name, index, value) + rest, 0, pat).None?
  {
    var t := IndexedLine(name, index, value) + rest;
    var k := |name| + |Decimal(index)| + 3;
    IndexedLineKey(name, index, value, rest);
    assert t[k] == Blank && t[k + 1] == value[0];
    RunEndIsMaximalRun(t, k, Space, k + 1);
    RunEndIsMaximalRun(t, k + 1, pat.value, k + 1);
  }

  /** An array element whose value starts outside the value class (and is not whitespace)
      adds nothing to the scrape: no match starts anywhere on its line. */
  lemma ValueOutsideClassSkipped(name: Text, index: nat, value: Text, rest: Text, pat: Pattern)
    requires pat.key == Indexed(name)
    requires value != [] && !In(pat.value, value[0]) && !IsSpace(value[0])
    requires Newline !in name && OpenBracket !in name && OpenBracket !in value
    ensures ScrapeFrom(IndexedLine(name, index, value) + rest, 0, pat) == ScrapeFrom(rest, 0, pat)
  {
    var line := IndexedLine(name, index, value);
    var t := line + rest;
    forall p | 0 <= p < |line| ensures MatchAt(t, p, pat).None? {
      if p == 0 {
        ValueOutsideClassNoMatch(name, index, value, rest, pat);
      } else {
        var q := p + |name|;
        if q < |line| {
          IndexedLineBracket(name, index, value, q);
          assert t[p..q] == line[p..q];
          assert t[q] == line[q];
        } else if q <= |t| {
          assert line[|line| - 1] == Newline;
          assert t[p..q][|line| - 1 - p] == Newline;
        }
      }
    }
    LineWithoutMatch(line, rest, pat);
  }

  /** No key starts at a line break, unless the name itself starts with one. */
  lemma NoMatchAtLineBreak(t: Text, p: nat, pat: Pattern)
    requires p < |t| && t[p] == Newline && Newline !in pat.key.name
    ensures MatchAt(t, p, pat).None?
  {
    if pat.key.name != [] && p + |pat.key.name| <= |t| {
      assert t[p..p + |pat.key.name|][0] == t[p];
    }
  }

  /** The scan from a match that ends at a line break continues after the break. */
  lemma SkipLineBreak(t: Text, pat: Pattern, m: Match)
    requires m.end < |t| && t[m.end] == Newline && Newline !in pat.key.name
    ensures ScrapeFrom(t, m.end, pat) == ScrapeFrom(t, m.end + 1, pat)
  {
    NoMatchAtLineBreak(t, m.end, pat);
    ScrapeFromSkip(t, m.end, pat);
  }

  /** A match at the first byte gives the first captured value. */
  lemma ScrapeFirst(t: Text, pat: Pattern, m: Match)
    requires MatchAt(t, 0, pat) == Some(m)
    ensures ScrapeFrom(t, 0, pat) == [t[m.valueStart..m.end]] + ScrapeFrom(t, m.end, pat)
  {
    assert FirstMatch(t, 0, pat) == Some(m);
    ScrapeFromCons(t, 0, pat);
  }

  /** A line whose first byte starts a match that runs up to its line break adds the
      captured value in front of what the following text gives. */
  lemma LineScrape(line: Text, rest: Text, pat: Pattern, m: Match)
    requires MatchAt(line + rest, 0, pat) == Some(m)
    requires m.end + 1 == |line| && line[m.end] == Newline && Newline !in pat.key.name
    ensures ScrapeFrom(line + rest, 0, pat) == [line[m.valueStart..m.end]] + ScrapeFrom(rest, 0, pat)
  {
    assert (line + rest)[m.valueStart..m.end] == line[m.valueStart..m.end];
    ScrapeFirst(line + rest, pat, m);
    ScrapeAfterLine(line, rest, pat, m);
  }

  /** Once a match has run up to the line break, the scan goes on with the next line. */
  lemma ScrapeAfterLine(line: Text, rest: Text, pat: Pattern, m: Match)
    requires m.end + 1 == |line| && line[m.end] == Newline && Newline !in pat.key.name
    ensures ScrapeFrom(line + rest, m.end, pat) == ScrapeFrom(rest, 0, pat)
  {
    SkipLineBreak(line + rest, pat, m);
    ScrapeFromShift(line, rest, 0, pat);
  }

  /** An array element line in front of `rest` adds its value in front of what `rest`
      gives. */
  lemma IndexedLineScrape(name: Text, index: nat, value: Text, rest: Text, pat: Pattern)
    requires pat.key == Indexed(name) && pat.value != Space && Newline !in name && Valued(pat, value)
    ensures ScrapeFrom(IndexedLine(name, index, value) + rest, 0, pat) == [value] + ScrapeFrom(rest, 0, pat)
  {
    var line := IndexedLine(name, index, value);
    var k := |name| + |Decimal(index)| + 3;
    var e := k + 1 + |value|;
    IndexedLineMatch(name, index, value, rest, pat);
    assert line[k + 1..e] == value;
    LineScrape(line, rest, pat, Match(0, k + 1, e));
  }

  /** Round trip for the array scrapes: the lines of an array entry give back exactly the
      values written, in order, whatever their indices. */
  lemma {:induction false} IndexedLinesScrape(name: Text, elems: seq<Element>, pat: Pattern)
    requires pat.key == Indexed(name) && pat.value != Space && Newline !in name
    requires forall i :: 0 <= i < |elems| ==> Valued(pat, elems[i].value)
    ensures Scrape(IndexedLines(name, elems), pat) == Values(elems)
    decreases |elems|
  {
    if elems == [] {
      assert FirstMatch([], 0, pat) == None;
    } else {
      var line := IndexedLine(name, elems[0].index, elems[0].value);
      var rest := IndexedLines(name, elems[1..]);
      calc {
        Scrape(IndexedLines(name, elems), pat);
        ScrapeFrom(line + rest, 0, pat);
        { IndexedLineScrape(name, elems[0].index, elems[0].value, rest, pat); }
        [elems[0].value] + ScrapeFrom(rest, 0, pat);
        { IndexedLinesScrape(name, elems[1..], pat); }
        [elems[0].value] + Values(elems[1..]);
      }
      assert Values(elems) == [elems[0].value] + Values(elems[1..]);
    }
  }

  /** The scan passes over positions where the pattern does not match. */
  lemma {:induction false} ScrapeSkipsTo(t: Text, p: nat, q: nat, pat: Pattern)
    requires p <= q <= |t|
    requires forall j :: p <= j < q ==> MatchAt(t, j, pat).None?
    ensures ScrapeFrom(t, p, pat) == ScrapeFrom(t, q, pat)
    decreases q - p
  {
    if p < q {
      assert ScrapeFrom(t, p, pat) == ScrapeFrom(t, p + 1, pat) by {
        ScrapeFromSkip(t, p, pat);
      }
      ScrapeSkipsTo(t, p + 1, q, pat);
    }
  }

  /** A line in which no match of the pattern starts adds nothing. */
  lemma LineWithoutMatch(line: Text, rest: Text, pat: Pattern)
    requires forall p :: 0 <= p < |line| ==> MatchAt(line + rest, p, pat).None?
    ensures ScrapeFrom(line + rest, 0, pat) == ScrapeFrom(rest, 0, pat)
  {
    ScrapeSkipsTo(line + rest, 0, |line|, pat);
    ScrapeFromShift(line, rest, 0, pat);
  }

  /** An indexed key can start inside a line only where the name is followed by `[`; a
      line in which no `[` follows the name has no match of the pattern. */
  lemma NoIndexedKeyInLine(line: Text, rest: Text, pat: Pattern, p: nat)
    requires pat.key.Indexed? && Newline !in pat.key.name
    requires line != [] && line[|line| - 1] == Newline && p < |line|
    requires forall q :: |pat.key.name| <= q < |line| && line[q] == OpenBracket ==>
      line[q - |pat.key.name|..q] != pat.key.name
    ensures MatchAt(line + rest, p, pat).None?
  {
    var t := line + rest;
    var name := pat.key.name;
    var q := p + |name|;
    if q < |line| {
      assert t[p..q] == line[p..q];
      assert t[q] == line[q];
    } else if q <= |t| {
      assert t[p..q][|line| - 1 - p] == Newline;
    }
  }

  /** A line with no `[` holds no array element, of any name. */
  lemma BracketFreeLineSkipped(line: Text, rest: Text, pat: Pattern)
    requires pat.key.Indexed? && Newline !in pat.key.name
    requires line != [] && line[|line| - 1] == Newline && OpenBracket !in line
    ensures ScrapeFrom(line + rest, 0, pat) == ScrapeFrom(rest, 0, pat)
  {
    forall p | 0 <= p < |line| ensures MatchAt(line + rest, p, pat).None? {
      NoIndexedKeyInLine(line, rest, pat, p);
    }
    LineWithoutMatch(line, rest, pat);
  }

  /** The only `[` of an array element line is the one after its name. */
  lemma IndexedLineBracket(name: Text, index: nat, value: Text, q: nat)
    requires OpenBracket !in name && OpenBracket !in value
    requires q < |IndexedLine(name, index, value)|
    ensures IndexedLine(name, index, value)[q] == OpenBracket ==> q == |name|
  {
    var line := IndexedLine(name, index, value);
    var ds := Decimal(index);
    var n := |name|;
    if q < n {
      assert line[q] == name[q];
    } else if n < q <= n + |ds| {
      assert line[q] == ds[q - n - 1];
    } else if n + |ds| + 4 <= q < n + |ds| + 4 + |value| {
      assert line[q] == value[q - n - |ds| - 4];
    }
  }

  /** An element line of another array entry adds nothing, as long as the name searched
      for is not a suffix of that entry's name. */
  lemma ForeignIndexedLineSkipped(other: Text, index: nat, value: Text, rest: Text, pat: Pattern)
    requires pat.key.Indexed? && Newline !in pat.key.name
    requires OpenBracket !in other && OpenBracket !in value
    requires !(|pat.key.name| <= |other| && other[|other| - |pat.key.name|..] == pat.key.name)
    ensures ScrapeFrom(IndexedLine(other, index, value) + rest, 0, pat) == ScrapeFrom(rest, 0, pat)
  {
    var line := IndexedLine(other, index, value);
    var name := pat.key.name;
    forall q | |name| <= q < |line| && line[q] == OpenBracket
      ensures line[q - |name|..q] != name
    {
      IndexedLineBracket(other, index, value, q);
      assert line[q - |name|..q] == other[|other| - |name|..];
    }
    forall p | 0 <= p < |line| ensures MatchAt(line + rest, p, pat).None? {
      NoIndexedKeyInLine(line, rest, pat, p);
    }
    LineWithoutMatch(line, rest, pat);
  }
}
