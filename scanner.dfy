/**
  The occurrence scanner: splits a document into lines, walks the results of every
  configured pattern on every non-empty line, keeps the captures the version grammar
  accepts, locates each on its line and drops later duplicates of the same
  (line, start column, version text).

  The regular-expression engine is not modelled. A pattern applied to a line is
  represented by the sequence of results its `exec` loop returns, supplied by an
  `Engine` that maps a pattern string and a line to that sequence.
*/
module Scanner {
  import opened Wrappers
  import opened Text
  import opened Types
  import opened Version

  /**
    One result of `pattern.exec(line)`: the position where the whole match starts,
    the text of the whole match, and capture group 1 (None when the group did not
    take part in the match).
  */
  datatype RegexMatch = RegexMatch(index: nat, fullMatch: string, group1: Option<string>)

  /** The successive results of `new RegExp(pattern, 'gi').exec(line)` until it returns null. */
  type Engine = (string, string) -> seq<RegexMatch>

  /** What every regular-expression engine guarantees of a result on `line`: the whole match is the slice of the line at its index. */
  predicate IsExecResult(line: string, m: RegexMatch) {
    OccursAt(line, m.fullMatch, m.index)
  }

  /**
    Group 1 occurs inside the whole match. Engines do not guarantee this: a pattern that
    captures group 1 inside a lookahead or lookbehind, such as `v(?=(\d+\.\d+\.\d+))` on
    `v1.2.3`, yields the whole match `v` with group 1 `1.2.3`.
  */
  predicate CapturedInside(m: RegexMatch) {
    m.group1.Some? ==> IndexOf(m.fullMatch, m.group1.value) >= 0
  }

  /** A result the scanner locates correctly on `line`: a genuine result whose group 1 lies inside its whole match. */
  predicate IsLocatable(line: string, m: RegexMatch) {
    IsExecResult(line, m) && CapturedInside(m)
  }

  predicate AreLocatable(line: string, ms: seq<RegexMatch>) {
    forall k | 0 <= k < |ms| :: IsLocatable(line, ms[k])
  }

  /** Every pattern's results on `line` are locatable. */
  predicate LineResultsOk(engine: Engine, line: string, patterns: seq<string>) {
    forall j | 0 <= j < |patterns| :: AreLocatable(line, engine(patterns[j], line))
  }

  /** Every pattern's results on every line are locatable. */
  predicate EngineSound(engine: Engine, lines: seq<string>, patterns: seq<string>) {
    forall i | 0 <= i < |lines| :: LineResultsOk(engine, lines[i], patterns)
  }

  /**
    A global `exec` loop finds matches left to right without overlap: each match
    starts at or after the end of the one before.
  */
  predicate ExecOrdered(ms: seq<RegexMatch>) {
    forall a, b | 0 <= a < b < |ms| :: ms[a].index + |ms[a].fullMatch| <= ms[b].index
  }

  /** Group 1 is present, non-empty and a version: the result is one the scanner goes on to locate. */
  predicate Accepted(m: RegexMatch) {
    m.group1.Some? && m.group1.value != "" && ParseVersion(m.group1.value).Some?
  }

  /** `match.index + match[0].indexOf(versionString)`, which is -1 when group 1 is not inside a whole match at index 0. */
  function Column(m: RegexMatch): int
    requires m.group1.Some?
  {
    m.index + IndexOf(m.fullMatch, m.group1.value)
  }

  /** An accepted result whose column is negative: `new vscode.Position(lineIndex, startChar)` throws and the scan fails. */
  predicate Throws(m: RegexMatch) {
    Accepted(m) && Column(m) < 0
  }

  /** The scan throws on a result exactly when it accepts a capture that is not inside a whole match found at index 0. */
  lemma ThrowsIff(m: RegexMatch)
    ensures Throws(m) <==> Accepted(m) && m.index == 0 && IndexOf(m.fullMatch, m.group1.value) == -1
  {
  }

  /**
    The occurrence one result contributes (at most one): none when group 1 is absent
    or empty or the grammar rejects it, or when its column is negative (the scan then
    throws instead); otherwise the capture placed at `index + fullMatch.indexOf(capture)`
    on line `lineIndex`.
  */
  function Emitted(lineIndex: nat, m: RegexMatch): seq<VersionMatch>
  {
    match m.group1
    case None => []
    case Some(v) =>
      if v == "" then []
      else
        match ParseVersion(v)
        case None => []
        case Some(p) =>
          var startChar := m.index + IndexOf(m.fullMatch, v);
          if startChar < 0 then []
          else
            var endChar := startChar + |v|;
            [VersionMatch(v, p.major, p.minor, p.patch, p.prerelease,
               Range(Position(lineIndex, startChar), Position(lineIndex, endChar)), lineIndex, m.fullMatch)]
  }

  /** A result whose group 1 is a non-empty version with a non-negative column contributes the occurrence built from it. */
  lemma EmittedCapture(lineIndex: nat, m: RegexMatch, v: string, p: ParsedVersion, startChar: nat)
    requires m.group1 == Some(v) && v != "" && ParseVersion(v) == Some(p)
    requires startChar == m.index + IndexOf(m.fullMatch, v)
    ensures Emitted(lineIndex, m) ==
      [VersionMatch(v, p.major, p.minor, p.patch, p.prerelease,
         Range(Position(lineIndex, startChar), Position(lineIndex, startChar + |v|)), lineIndex, m.fullMatch)]
  {
  }

  /** The occurrences of one pattern on one line, in the order its results come. */
  function PatternOccurrences(lineIndex: nat, ms: seq<RegexMatch>): seq<VersionMatch>
    decreases |ms|
  {
    if ms == [] then []
    else PatternOccurrences(lineIndex, ms[..|ms| - 1]) + Emitted(lineIndex, ms[|ms| - 1])
  }

  /** The occurrences of the patterns on one non-empty line: pattern by pattern, in configured order. */
  function PatternsOccurrences(engine: Engine, lineIndex: nat, line: string, patterns: seq<string>): seq<VersionMatch>
    decreases |patterns|
  {
    if patterns == [] then []
    else
      PatternsOccurrences(engine, lineIndex, line, patterns[..|patterns| - 1]) +
      PatternOccurrences(lineIndex, engine(patterns[|patterns| - 1], line))
  }

  /** The occurrences on one line; an empty line is skipped. */
  function LineOccurrences(engine: Engine, lineIndex: nat, line: string, patterns: seq<string>): seq<VersionMatch>
  {
    if line == "" then [] else PatternsOccurrences(engine, lineIndex, line, patterns)
  }

  /** The occurrences of a document before deduplication: line by line, from the top. */
  function DocumentOccurrences(engine: Engine, lines: seq<string>, patterns: seq<string>): seq<VersionMatch>
    decreases |lines|
  {
    if lines == [] then []
    else
      DocumentOccurrences(engine, lines[..|lines| - 1], patterns) +
      LineOccurrences(engine, |lines| - 1, lines[|lines| - 1], patterns)
  }

  /** Some result of one pattern's `exec` loop makes the scan throw. */
  predicate PatternThrows(ms: seq<RegexMatch>)
    decreases |ms|
  {
    ms != [] && (PatternThrows(ms[..|ms| - 1]) || Throws(ms[|ms| - 1]))
  }

  /** Some configured pattern makes the scan of `line` throw. */
  predicate PatternsThrow(engine: Engine, line: string, patterns: seq<string>)
    decreases |patterns|
  {
    patterns != [] &&
    (PatternsThrow(engine, line, patterns[..|patterns| - 1]) || PatternThrows(engine(patterns[|patterns| - 1], line)))
  }

  /** The scan of one line throws; an empty line is skipped and never throws. */
  predicate LineThrows(engine: Engine, line: string, patterns: seq<string>) {
    line != "" && PatternsThrow(engine, line, patterns)
  }

  /** The scan of some line of the document throws. */
  predicate DocumentThrows(engine: Engine, lines: seq<string>, patterns: seq<string>)
    decreases |lines|
  {
    lines != [] &&
    (DocumentThrows(engine, lines[..|lines| - 1], patterns) || LineThrows(engine, lines[|lines| - 1], patterns))
  }

  /** One pattern's loop throws exactly when one of its results does. */
  lemma {:induction false} PatternThrowsIff(ms: seq<RegexMatch>)
    ensures PatternThrows(ms) <==> exists k | 0 <= k < |ms| :: Throws(ms[k])
    decreases |ms|
  {
    if ms != [] {
      var init := ms[..|ms| - 1];
      PatternThrowsIff(init);
      assert PatternThrows(ms) == (PatternThrows(init) || Throws(ms[|ms| - 1]));
      if PatternThrows(init) {
        var k :| 0 <= k < |init| && Throws(init[k]);
        assert ms[k] == init[k];
      } else if !Throws(ms[|ms| - 1]) {
        forall k | 0 <= k < |ms| ensures !Throws(ms[k]) {
          if k < |init| {
            assert init[k] == ms[k] && !Throws(init[k]);
          } else {
            assert k == |ms| - 1;
          }
        }
      }
    }
  }

  /** The scan of a line throws exactly when the loop of one of its patterns does. */
  lemma {:induction false} PatternsThrowIff(engine: Engine, line: string, patterns: seq<string>)
    ensures PatternsThrow(engine, line, patterns) <==>
      exists j | 0 <= j < |patterns| :: PatternThrows(engine(patterns[j], line))
    decreases |patterns|
  {
    if patterns != [] {
      var init := patterns[..|patterns| - 1];
      PatternsThrowIff(engine, line, init);
      if PatternsThrow(engine, line, init) {
        var j :| 0 <= j < |init| && PatternThrows(engine(init[j], line));
        assert patterns[j] == init[j];
      }
      if exists j | 0 <= j < |patterns| :: PatternThrows(engine(patterns[j], line)) {
        var j :| 0 <= j < |patterns| && PatternThrows(engine(patterns[j], line));
        if j < |init| {
          assert init[j] == patterns[j];
        }
      }
    }
  }

  /** The scan of a document throws exactly when some result of some pattern on one of its non-empty lines does. */
  lemma {:induction false} DocumentThrowsIff(engine: Engine, lines: seq<string>, patterns: seq<string>)
    ensures DocumentThrows(engine, lines, patterns) <==>
      exists i | 0 <= i < |lines| :: lines[i] != "" && PatternsThrow(engine, lines[i], patterns)
    decreases |lines|
  {
    if lines != [] {
      var init := lines[..|lines| - 1];
      DocumentThrowsIff(engine, init, patterns);
      if DocumentThrows(engine, init, patterns) {
        var i :| 0 <= i < |init| && init[i] != "" && PatternsThrow(engine, init[i], patterns);
        assert lines[i] == init[i];
      }
      if exists i | 0 <= i < |lines| :: lines[i] != "" && PatternsThrow(engine, lines[i], patterns) {
        var i :| 0 <= i < |lines| && lines[i] != "" && PatternsThrow(engine, lines[i], patterns);
        if i < |init| {
          assert init[i] == lines[i];
        }
      }
    }
  }

  /** When every result is locatable the scan never throws. */
  lemma LocatableNeverThrows(engine: Engine, lines: seq<string>, patterns: seq<string>)
    requires EngineSound(engine, lines, patterns)
    ensures !DocumentThrows(engine, lines, patterns)
  {
    DocumentThrowsIff(engine, lines, patterns);
    forall i | 0 <= i < |lines|
      ensures !PatternsThrow(engine, lines[i], patterns)
    {
      PatternsThrowIff(engine, lines[i], patterns);
      forall j | 0 <= j < |patterns|
        ensures !PatternThrows(engine(patterns[j], lines[i]))
      {
        var ms := engine(patterns[j], lines[i]);
        PatternThrowsIff(ms);
        assert LineResultsOk(engine, lines[i], patterns);
        assert AreLocatable(lines[i], ms);
        forall k | 0 <= k < |ms| ensures !Throws(ms[k]) {
          assert IsLocatable(lines[i], ms[k]);
        }
      }
    }
  }

  /** A throw in a prefix of the results is a throw of the whole loop. */
  lemma PatternThrowsExtend(ms: seq<RegexMatch>, n: nat)
    requires n <= |ms| && PatternThrows(ms[..n])
    ensures PatternThrows(ms)
  {
    PatternThrowsIff(ms[..n]);
    var k :| 0 <= k < n && Throws(ms[..n][k]);
    assert ms[..n][k] == ms[k];
    PatternThrowsIff(ms);
  }

  /** A throw on a prefix of the patterns is a throw of the line. */
  lemma PatternsThrowExtend(engine: Engine, line: string, patterns: seq<string>, n: nat)
    requires n <= |patterns| && PatternsThrow(engine, line, patterns[..n])
    ensures PatternsThrow(engine, line, patterns)
  {
    PatternsThrowIff(engine, line, patterns[..n]);
    var j :| 0 <= j < n && PatternThrows(engine(patterns[..n][j], line));
    assert patterns[..n][j] == patterns[j];
    PatternsThrowIff(engine, line, patterns);
  }

  /** A throw on a prefix of the lines is a throw of the document. */
  lemma DocumentThrowsExtend(engine: Engine, lines: seq<string>, patterns: seq<string>, n: nat)
    requires n <= |lines| && DocumentThrows(engine, lines[..n], patterns)
    ensures DocumentThrows(engine, lines, patterns)
  {
    DocumentThrowsIff(engine, lines[..n], patterns);
    var i :| 0 <= i < n && lines[..n][i] != "" && PatternsThrow(engine, lines[..n][i], patterns);
    assert lines[..n][i] == lines[i];
    DocumentThrowsIff(engine, lines, patterns);
  }

  /**
    `x` is built as the scanner builds every occurrence: a non-empty text the grammar
    accepts with exactly those numbers and tag, and a range on `x.line` as long as the text.
  */
  predicate WellBuilt(x: VersionMatch) {
    x.version != "" &&
    ParseVersion(x.version) == Some(ParsedVersion(x.major, x.minor, x.patch, x.prerelease)) &&
    x.range.start.line == x.line && x.range.end.line == x.line &&
    x.range.end.character == x.range.start.character + |x.version|
  }

  /** `line` holds the text of `x` at its range, inside an occurrence of its whole match. */
  ghost predicate LocatedOn(line: string, x: VersionMatch) {
    var start, end := x.range.start.character, x.range.end.character;
    OccursAt(line, x.version, start) &&
    exists idx :: OccursAt(line, x.fullMatch, idx) && idx <= start && end <= idx + |x.fullMatch|
  }

  /** `x` is an occurrence located on `line` as the scanner promises: well built and located there. */
  ghost predicate IsOccurrenceIn(line: string, x: VersionMatch) {
    WellBuilt(x) && LocatedOn(line, x)
  }

  /** `x` was made from result `m` on line `lineIndex`: group 1, the whole match and the column formula. */
  predicate MadeFrom(lineIndex: nat, m: RegexMatch, x: VersionMatch) {
    m.group1 == Some(x.version) && x.fullMatch == m.fullMatch && x.line == lineIndex &&
    x.range.start.character == m.index + IndexOf(m.fullMatch, x.version)
  }

  /** The range of `x` lies inside the span of the whole match `m`. */
  predicate Within(m: RegexMatch, x: VersionMatch) {
    m.index <= x.range.start.character && x.range.end.character <= m.index + |m.fullMatch|
  }

  /**
    A result contributes at most one occurrence, and one exactly when group 1 is a
    non-empty version and the scan does not throw on it; that occurrence is well built
    and carries group 1, the whole match and the column formula.
  */
  lemma EmittedSpec(lineIndex: nat, m: RegexMatch)
    ensures |Emitted(lineIndex, m)| <= 1
    ensures |Emitted(lineIndex, m)| == 1 <==> Accepted(m) && !Throws(m)
    ensures |Emitted(lineIndex, m)| == 1 ==>
      var x := Emitted(lineIndex, m)[0];
      MadeFrom(lineIndex, m, x) && WellBuilt(x)
  {
  }

  /** The occurrence of a locatable result lies inside its whole match and holds group 1 on the line. */
  lemma EmittedLocated(lineIndex: nat, line: string, m: RegexMatch)
    requires IsLocatable(line, m)
    ensures !Throws(m)
    ensures |Emitted(lineIndex, m)| == 1 ==>
      var x := Emitted(lineIndex, m)[0];
      Within(m, x) && IsOccurrenceIn(line, x)
  {
    var r := Emitted(lineIndex, m);
    EmittedSpec(lineIndex, m);
    if |r| == 1 {
      var x := r[0];
      var v := m.group1.value;
      var off := IndexOf(m.fullMatch, v);
      OccursInside(line, m.fullMatch, v, m.index, off);
      assert OccursAt(line, m.fullMatch, m.index) && m.index <= x.range.start.character &&
        x.range.end.character <= m.index + |m.fullMatch|;
    }
  }

  /** `x` is an occurrence located on `line`, on line `lineIndex`, made from one of the results `ms`. */
  ghost predicate SourcedFrom(lineIndex: nat, line: string, ms: seq<RegexMatch>, x: VersionMatch) {
    x.line == lineIndex && IsOccurrenceIn(line, x) &&
    exists k | 0 <= k < |ms| :: MadeFrom(lineIndex, ms[k], x) && Within(ms[k], x)
  }

  /** Every occurrence of one pattern on a line whose results are locatable is located correctly and comes from one of its results. */
  lemma {:induction false} PatternOccurrencesSound(lineIndex: nat, line: string, ms: seq<RegexMatch>)
    requires AreLocatable(line, ms)
    ensures forall x | x in PatternOccurrences(lineIndex, ms) :: SourcedFrom(lineIndex, line, ms, x)
    decreases |ms|
  {
    if ms != [] {
      var init := ms[..|ms| - 1];
      var last := ms[|ms| - 1];
      PatternOccurrencesSound(lineIndex, line, init);
      EmittedSpec(lineIndex, last);
      EmittedLocated(lineIndex, line, last);
      forall x | x in PatternOccurrences(lineIndex, ms)
        ensures SourcedFrom(lineIndex, line, ms, x)
      {
        if x in PatternOccurrences(lineIndex, init) {
          var k :| 0 <= k < |init| && MadeFrom(lineIndex, init[k], x) && Within(init[k], x);
          assert ms[k] == init[k];
        } else {
          assert x == Emitted(lineIndex, last)[0];
          assert ms[|ms| - 1] == last;
          assert MadeFrom(lineIndex, ms[|ms| - 1], x) && Within(ms[|ms| - 1], x);
        }
      }
    }
  }

  /** Every result whose group 1 is a non-empty version, and on which the scan does not throw, contributes its occurrence. */
  lemma {:induction false} PatternOccurrencesComplete(lineIndex: nat, ms: seq<RegexMatch>, k: nat)
    requires k < |ms| && |Emitted(lineIndex, ms[k])| == 1
    ensures Emitted(lineIndex, ms[k])[0] in PatternOccurrences(lineIndex, ms)
    decreases |ms|
  {
    var init := ms[..|ms| - 1];
    if k < |ms| - 1 {
      assert init[k] == ms[k];
      PatternOccurrencesComplete(lineIndex, init, k);
    }
  }

  /** Every occurrence of one pattern on a line carries that line's index. */
  lemma {:induction false} PatternOccurrencesOnLine(lineIndex: nat, ms: seq<RegexMatch>)
    ensures forall x | x in PatternOccurrences(lineIndex, ms) :: x.line == lineIndex
    decreases |ms|
  {
    if ms != [] {
      PatternOccurrencesOnLine(lineIndex, ms[..|ms| - 1]);
      EmittedSpec(lineIndex, ms[|ms| - 1]);
    }
  }

  /** Every occurrence of one pattern, whatever its results, is well built and made from one of them. */
  lemma {:induction false} PatternOccurrencesBuilt(lineIndex: nat, ms: seq<RegexMatch>)
    ensures forall x | x in PatternOccurrences(lineIndex, ms) ::
      WellBuilt(x) && exists k | 0 <= k < |ms| :: MadeFrom(lineIndex, ms[k], x)
    decreases |ms|
  {
    if ms != [] {
      var init := ms[..|ms| - 1];
      var last := ms[|ms| - 1];
      PatternOccurrencesBuilt(lineIndex, init);
      EmittedSpec(lineIndex, last);
      forall x | x in PatternOccurrences(lineIndex, ms)
        ensures WellBuilt(x) && exists k | 0 <= k < |ms| :: MadeFrom(lineIndex, ms[k], x)
      {
        if x in PatternOccurrences(lineIndex, init) {
          var k :| 0 <= k < |init| && MadeFrom(lineIndex, init[k], x);
          assert ms[k] == init[k];
        } else {
          assert x == Emitted(lineIndex, last)[0];
          assert MadeFrom(lineIndex, ms[|ms| - 1], x);
        }
      }
    }
  }

  /** Each range ends at or before the next one starts. */
  predicate LeftToRight(r: seq<VersionMatch>) {
    forall a, b | 0 <= a < b < |r| :: r[a].range.end.character <= r[b].range.start.character
  }

  /** The occurrence of a locatable result lies inside that result's whole match. */
  lemma EmittedWithin(lineIndex: nat, line: string, m: RegexMatch)
    requires IsLocatable(line, m)
    ensures forall x | x in Emitted(lineIndex, m) :: Within(m, x)
  {
    EmittedLocated(lineIndex, line, m);
  }

  /** Every occurrence of one pattern lies inside the whole match of one of its results. */
  lemma {:induction false} PatternOccurrencesWithin(lineIndex: nat, line: string, ms: seq<RegexMatch>)
    requires AreLocatable(line, ms)
    ensures forall x | x in PatternOccurrences(lineIndex, ms) :: exists k | 0 <= k < |ms| :: Within(ms[k], x)
    decreases |ms|
  {
    if ms != [] {
      var init := ms[..|ms| - 1];
      PatternOccurrencesWithin(lineIndex, line, init);
      EmittedWithin(lineIndex, line, ms[|ms| - 1]);
      forall x | x in PatternOccurrences(lineIndex, ms)
        ensures exists k | 0 <= k < |ms| :: Within(ms[k], x)
      {
        if x in PatternOccurrences(lineIndex, init) {
          var k :| 0 <= k < |init| && Within(init[k], x);
          assert ms[k] == init[k];
        }
      }
    }
  }

  /**
    When the locatable results come left to right without overlap, so do the occurrences
    of one pattern on a line: each range ends at or before the next one starts.
  */
  lemma {:induction false} PatternOccurrencesLeftToRight(lineIndex: nat, line: string, ms: seq<RegexMatch>)
    requires AreLocatable(line, ms) && ExecOrdered(ms)
    ensures LeftToRight(PatternOccurrences(lineIndex, ms))
    decreases |ms|
  {
    if ms != [] {
      var init := ms[..|ms| - 1];
      var last := ms[|ms| - 1];
      assert ExecOrdered(init);
      PatternOccurrencesLeftToRight(lineIndex, line, init);
      PatternOccurrencesWithin(lineIndex, line, init);
      EmittedWithin(lineIndex, line, last);
      var r0 := PatternOccurrences(lineIndex, init);
      var r := PatternOccurrences(lineIndex, ms);
      assert r == r0 + Emitted(lineIndex, last);
      forall a, b | 0 <= a < b < |r|
        ensures r[a].range.end.character <= r[b].range.start.character
      {
        if b < |r0| {
          assert r[a] == r0[a] && r[b] == r0[b];
        } else {
          assert r[a] == r0[a] && r0[a] in r0;
          var k :| 0 <= k < |init| && Within(init[k], r0[a]);
          assert ms[k] == init[k];
          assert r[b] in Emitted(lineIndex, last);
        }
      }
    }
  }

  /** `x` is a well-built occurrence on line `lineIndex`, made from a result of one of the patterns on `line`. */
  ghost predicate LineBuilt(engine: Engine, lineIndex: nat, line: string, patterns: seq<string>, x: VersionMatch) {
    x.line == lineIndex && WellBuilt(x) &&
    exists j, k | 0 <= j < |patterns| && 0 <= k < |engine(patterns[j], line)| ::
      MadeFrom(lineIndex, engine(patterns[j], line)[k], x)
  }

  /** `x` is an occurrence located on `line`, on line `lineIndex`, made from a result of one of the patterns. */
  ghost predicate LineSourced(engine: Engine, lineIndex: nat, line: string, patterns: seq<string>, x: VersionMatch) {
    LineBuilt(engine, lineIndex, line, patterns, x) && LocatedOn(line, x)
  }

  /** Every occurrence found on a line, whatever the results, is well built and made from a result of a configured pattern. */
  lemma {:induction false} PatternsOccurrencesBuilt(engine: Engine, lineIndex: nat, line: string, patterns: seq<string>)
    ensures forall x | x in PatternsOccurrences(engine, lineIndex, line, patterns) ::
      LineBuilt(engine, lineIndex, line, patterns, x)
    decreases |patterns|
  {
    if patterns != [] {
      var init := patterns[..|patterns| - 1];
      var ms := engine(patterns[|patterns| - 1], line);
      PatternsOccurrencesBuilt(engine, lineIndex, line, init);
      PatternOccurrencesBuilt(lineIndex, ms);
      PatternOccurrencesOnLine(lineIndex, ms);
      forall x | x in PatternsOccurrences(engine, lineIndex, line, patterns)
        ensures LineBuilt(engine, lineIndex, line, patterns, x)
      {
        if x in PatternsOccurrences(engine, lineIndex, line, init) {
          var j, k :| 0 <= j < |init| && 0 <= k < |engine(init[j], line)| &&
            MadeFrom(lineIndex, engine(init[j], line)[k], x);
          assert patterns[j] == init[j];
        } else {
          assert x in PatternOccurrences(lineIndex, ms);
          var k :| 0 <= k < |ms| && MadeFrom(lineIndex, ms[k], x);
          assert MadeFrom(lineIndex, engine(patterns[|patterns| - 1], line)[k], x);
        }
      }
    }
  }

  /** Every occurrence found on a line with locatable results is located correctly and comes from a result of a configured pattern. */
  lemma {:induction false} PatternsOccurrencesSound(engine: Engine, lineIndex: nat, line: string, patterns: seq<string>)
    requires LineResultsOk(engine, line, patterns)
    ensures forall x | x in PatternsOccurrences(engine, lineIndex, line, patterns) ::
      LineSourced(engine, lineIndex, line, patterns, x)
    decreases |patterns|
  {
    if patterns != [] {
      var init := patterns[..|patterns| - 1];
      var ms := engine(patterns[|patterns| - 1], line);
      PatternsOccurrencesSound(engine, lineIndex, line, init);
      PatternOccurrencesSound(lineIndex, line, ms);
      forall x | x in PatternsOccurrences(engine, lineIndex, line, patterns)
        ensures LineSourced(engine, lineIndex, line, patterns, x)
      {
        if x in PatternsOccurrences(engine, lineIndex, line, init) {
          var j, k :| 0 <= j < |init| && 0 <= k < |engine(init[j], line)| &&
            MadeFrom(lineIndex, engine(init[j], line)[k], x);
          assert patterns[j] == init[j];
        } else {
          assert x in PatternOccurrences(lineIndex, ms);
          var k :| 0 <= k < |ms| && MadeFrom(lineIndex, ms[k], x) && Within(ms[k], x);
          assert MadeFrom(lineIndex, engine(patterns[|patterns| - 1], line)[k], x);
        }
      }
    }
  }

  /** Every result on a line that contributes an occurrence has it among the line's occurrences. */
  lemma {:induction false} PatternsOccurrencesComplete(engine: Engine, lineIndex: nat, line: string, patterns: seq<string>, j: nat, k: nat)
    requires j < |patterns| && k < |engine(patterns[j], line)|
    requires |Emitted(lineIndex, engine(patterns[j], line)[k])| == 1
    ensures Emitted(lineIndex, engine(patterns[j], line)[k])[0] in PatternsOccurrences(engine, lineIndex, line, patterns)
    decreases |patterns|
  {
    var init := patterns[..|patterns| - 1];
    if j < |patterns| - 1 {
      assert init[j] == patterns[j];
      PatternsOccurrencesComplete(engine, lineIndex, line, init, j, k);
    } else {
      PatternOccurrencesComplete(lineIndex, engine(patterns[j], line), k);
    }
  }

  /** `x` is a well-built occurrence on a non-empty line of the document, made from a result of one of the patterns on it. */
  ghost predicate BuiltIn(engine: Engine, lines: seq<string>, patterns: seq<string>, x: VersionMatch) {
    x.line < |lines| && lines[x.line] != "" &&
    LineBuilt(engine, x.line, lines[x.line], patterns, x)
  }

  /**
    `x` is an occurrence on a non-empty line of the document, located correctly on that line
    and made from a result of one of the patterns on it.
  */
  ghost predicate FoundIn(engine: Engine, lines: seq<string>, patterns: seq<string>, x: VersionMatch) {
    BuiltIn(engine, lines, patterns, x) && LocatedOn(lines[x.line], x)
  }

  /** Every occurrence found in a document, whatever the results, is well built and made from a result on a non-empty line of it. */
  lemma {:induction false} DocumentOccurrencesBuilt(engine: Engine, lines: seq<string>, patterns: seq<string>)
    ensures forall x | x in DocumentOccurrences(engine, lines, patterns) :: BuiltIn(engine, lines, patterns, x)
    decreases |lines|
  {
    if lines != [] {
      var init := lines[..|lines| - 1];
      var line := lines[|lines| - 1];
      DocumentOccurrencesBuilt(engine, init, patterns);
      PatternsOccurrencesBuilt(engine, |lines| - 1, line, patterns);
      forall x | x in DocumentOccurrences(engine, lines, patterns)
        ensures BuiltIn(engine, lines, patterns, x)
      {
        if x in DocumentOccurrences(engine, init, patterns) {
          assert BuiltIn(engine, init, patterns, x);
          assert lines[x.line] == init[x.line];
        } else {
          assert x in LineOccurrences(engine, |lines| - 1, line, patterns);
          assert line != "" && x in PatternsOccurrences(engine, |lines| - 1, line, patterns);
        }
      }
    }
  }

  /** Every occurrence found in a document with locatable results lies on a non-empty line and is located and sourced correctly there. */
  lemma {:induction false} DocumentOccurrencesSound(engine: Engine, lines: seq<string>, patterns: seq<string>)
    requires EngineSound(engine, lines, patterns)
    ensures forall x | x in DocumentOccurrences(engine, lines, patterns) :: FoundIn(engine, lines, patterns, x)
    decreases |lines|
  {
    if lines != [] {
      var init := lines[..|lines| - 1];
      var line := lines[|lines| - 1];
      assert EngineSound(engine, init, patterns);
      DocumentOccurrencesSound(engine, init, patterns);
      DocumentOccurrencesBuilt(engine, lines, patterns);
      var l := LineOccurrences(engine, |lines| - 1, line, patterns);
      assert DocumentOccurrences(engine, lines, patterns) == DocumentOccurrences(engine, init, patterns) + l;
      forall x | x in DocumentOccurrences(engine, lines, patterns)
        ensures LocatedOn(lines[x.line], x)
      {
        if x in DocumentOccurrences(engine, init, patterns) {
          assert FoundIn(engine, init, patterns, x);
          assert lines[x.line] == init[x.line];
        } else {
          assert x in l;
          PatternsOccurrencesSound(engine, |lines| - 1, line, patterns);
          assert LineSourced(engine, |lines| - 1, line, patterns, x);
        }
      }
    }
  }

  /** Every result on a non-empty line that contributes an occurrence has it among the document's occurrences. */
  lemma {:induction false} DocumentOccurrencesComplete(engine: Engine, lines: seq<string>, patterns: seq<string>, i: nat, j: nat, k: nat)
    requires i < |lines| && lines[i] != "" && j < |patterns| && k < |engine(patterns[j], lines[i])|
    requires |Emitted(i, engine(patterns[j], lines[i])[k])| == 1
    ensures Emitted(i, engine(patterns[j], lines[i])[k])[0] in DocumentOccurrences(engine, lines, patterns)
    decreases |lines|
  {
    var init := lines[..|lines| - 1];
    if i < |lines| - 1 {
      assert init[i] == lines[i];
      DocumentOccurrencesComplete(engine, init, patterns, i, j, k);
    } else {
      PatternsOccurrencesComplete(engine, i, lines[i], patterns, j, k);
    }
  }

  /** The occurrences on a line all carry that line's index. */
  lemma {:induction false} PatternsOccurrencesOnLine(engine: Engine, lineIndex: nat, line: string, patterns: seq<string>)
    ensures forall x | x in PatternsOccurrences(engine, lineIndex, line, patterns) :: x.line == lineIndex
    decreases |patterns|
  {
    if patterns != [] {
      PatternsOccurrencesOnLine(engine, lineIndex, line, patterns[..|patterns| - 1]);
      PatternOccurrencesOnLine(lineIndex, engine(patterns[|patterns| - 1], line));
    }
  }

  /** Occurrences come line by line: their line indices never decrease. */
  predicate LinesAscending(r: seq<VersionMatch>) {
    forall a, b | 0 <= a < b < |r| :: r[a].line <= r[b].line
  }

  /** The document's occurrences have ascending line indices, all below the number of lines. */
  lemma {:induction false} DocumentOccurrencesLineOrder(engine: Engine, lines: seq<string>, patterns: seq<string>)
    ensures LinesAscending(DocumentOccurrences(engine, lines, patterns))
    ensures forall x | x in DocumentOccurrences(engine, lines, patterns) :: x.line < |lines|
    decreases |lines|
  {
    if lines != [] {
      var init := lines[..|lines| - 1];
      var line := lines[|lines| - 1];
      DocumentOccurrencesLineOrder(engine, init, patterns);
      var r0 := DocumentOccurrences(engine, init, patterns);
      var l := LineOccurrences(engine, |lines| - 1, line, patterns);
      if line != "" {
        PatternsOccurrencesOnLine(engine, |lines| - 1, line, patterns);
      }
      var r := DocumentOccurrences(engine, lines, patterns);
      assert r == r0 + l;
      forall a, b | 0 <= a < b < |r| ensures r[a].line <= r[b].line {
        if b < |r0| {
          assert r[a] == r0[a] && r[b] == r0[b];
        } else if a < |r0| {
          assert r[a] in r0;
          assert r[b] in l;
        } else {
          assert r[a] in l && r[b] in l;
        }
      }
    }
  }

  // Deduplication

  /** The key `${line}:${start character}:${version}` a match is deduplicated by. */
  function DedupKey(x: VersionMatch): string {
    NatToDecimal(x.line) + ":" + NatToDecimal(x.range.start.character) + ":" + x.version
  }

  /** Two matches collide when their keys are the same. */
  predicate SameKey(x: VersionMatch, y: VersionMatch) {
    DedupKey(x) == DedupKey(y)
  }

  /** Keys collide exactly when line, start column and version text all agree. */
  lemma DedupKeyInjective(x: VersionMatch, y: VersionMatch)
    ensures SameKey(x, y) <==>
      x.line == y.line && x.range.start.character == y.range.start.character && x.version == y.version
  {
    if SameKey(x, y) {
      var lx, ly := NatToDecimal(x.line), NatToDecimal(y.line);
      var cx, cy := NatToDecimal(x.range.start.character), NatToDecimal(y.range.start.character);
      assert DedupKey(x) == lx + [':'] + (cx + [':'] + x.version);
      assert DedupKey(y) == ly + [':'] + (cy + [':'] + y.version);
      DigitsExclude(lx, ':');
      DigitsExclude(ly, ':');
      DigitsExclude(cx, ':');
      DigitsExclude(cy, ':');
      CutAtFirst(lx, cx + [':'] + x.version, ly, cy + [':'] + y.version, ':');
      CutAtFirst(cx, x.version, cy, y.version, ':');
      NatToDecimalInjective(x.line, y.line);
      NatToDecimalInjective(x.range.start.character, y.range.start.character);
    }
  }

  /** The keys of a sequence of matches. */
  function KeysOf(r: seq<VersionMatch>): set<string> {
    set i | 0 <= i < |r| :: DedupKey(r[i])
  }

  lemma KeysOfSnoc(r: seq<VersionMatch>, x: VersionMatch)
    ensures KeysOf(r + [x]) == KeysOf(r) + {DedupKey(x)}
  {
    var s := r + [x];
    forall k | k in KeysOf(r) ensures k in KeysOf(s) {
      var i :| 0 <= i < |r| && DedupKey(r[i]) == k;
      assert s[i] == r[i];
    }
    assert s[|r|] == x;
  }

  /**
    `deduplicateMatches`: keep a match when its key has not been seen earlier in the
    input (first wins), in input order.
  */
  function Dedup(r: seq<VersionMatch>): seq<VersionMatch>
    decreases |r|
  {
    if r == [] then []
    else
      var init := r[..|r| - 1];
      if DedupKey(r[|r| - 1]) in KeysOf(init) then Dedup(init) else Dedup(init) + [r[|r| - 1]]
  }

  /** Position `i` holds the first match of `r` with its key. */
  ghost predicate IsFirst(r: seq<VersionMatch>, i: int) {
    0 <= i < |r| && forall j | 0 <= j < i :: !SameKey(r[j], r[i])
  }

  /** `idx` lists ascending positions of `r` whose matches, in order, make up `d`. */
  ghost predicate Picks(d: seq<VersionMatch>, r: seq<VersionMatch>, idx: seq<nat>) {
    |idx| == |d| &&
    (forall t | 0 <= t < |idx| :: idx[t] < |r| && d[t] == r[idx[t]]) &&
    (forall s, t | 0 <= s < t < |idx| :: idx[s] < idx[t])
  }

  ghost predicate IsSubsequence(d: seq<VersionMatch>, r: seq<VersionMatch>) {
    exists idx :: Picks(d, r, idx)
  }

  /** No two matches share a key. */
  predicate DistinctKeys(r: seq<VersionMatch>) {
    forall a, b | 0 <= a < b < |r| :: !SameKey(r[a], r[b])
  }

  /** The positions of the first match of each key, ascending. */
  function FirstPositions(r: seq<VersionMatch>): seq<nat>
    decreases |r|
  {
    if r == [] then []
    else
      var init := r[..|r| - 1];
      if DedupKey(r[|r| - 1]) in KeysOf(init) then FirstPositions(init) else FirstPositions(init) + [|r| - 1]
  }

  lemma IsFirstPrefix(r: seq<VersionMatch>, i: nat)
    requires i < |r| - 1
    ensures IsFirst(r, i) <==> IsFirst(r[..|r| - 1], i)
  {
    var init := r[..|r| - 1];
    assert forall j | 0 <= j <= i :: init[j] == r[j];
  }

  /** The first positions are ascending positions of `r`. */
  lemma {:induction false} FirstPositionsAscending(r: seq<VersionMatch>)
    ensures forall t | 0 <= t < |FirstPositions(r)| :: FirstPositions(r)[t] < |r|
    ensures forall s, t | 0 <= s < t < |FirstPositions(r)| :: FirstPositions(r)[s] < FirstPositions(r)[t]
    decreases |r|
  {
    if r != [] {
      FirstPositionsAscending(r[..|r| - 1]);
    }
  }

  /** The deduplicated matches are the matches at the first positions, in order. */
  lemma {:induction false} DedupAtFirstPositions(r: seq<VersionMatch>)
    ensures |Dedup(r)| == |FirstPositions(r)|
    ensures forall t | 0 <= t < |FirstPositions(r)| :: FirstPositions(r)[t] < |r| && Dedup(r)[t] == r[FirstPositions(r)[t]]
    decreases |r|
  {
    if r != [] {
      var init := r[..|r| - 1];
      DedupAtFirstPositions(init);
      var p0 := FirstPositions(init);
      assert forall t | 0 <= t < |p0| :: init[p0[t]] == r[p0[t]];
    }
  }

  /** A position is a first position exactly when it holds the first match of its key. */
  lemma {:induction false} FirstPositionsExact(r: seq<VersionMatch>)
    ensures forall i | 0 <= i < |r| :: i in FirstPositions(r) <==> IsFirst(r, i)
    decreases |r|
  {
    if r != [] {
      var init := r[..|r| - 1];
      var last := r[|r| - 1];
      var n := |r| - 1;
      FirstPositionsExact(init);
      FirstPositionsAscending(init);
      var p0 := FirstPositions(init);
      assert n !in p0;
      forall i | 0 <= i < n ensures i in FirstPositions(r) <==> IsFirst(r, i) {
        IsFirstPrefix(r, i);
      }
      if DedupKey(last) in KeysOf(init) {
        var j :| 0 <= j < n && DedupKey(init[j]) == DedupKey(last);
        assert r[j] == init[j];
        assert !IsFirst(r, n);
      } else {
        forall j | 0 <= j < n ensures !SameKey(r[j], r[n]) {
          assert r[j] == init[j];
        }
        assert IsFirst(r, n);
      }
    }
  }

  /**
    The deduplicated matches are exactly the first match of each key, taken in input
    order: the picked positions are ascending and a position is picked if and only if it
    holds the first match of its key.
  */
  lemma DedupPicksFirst(r: seq<VersionMatch>)
    ensures Picks(Dedup(r), r, FirstPositions(r))
    ensures forall i | 0 <= i < |r| :: i in FirstPositions(r) <==> IsFirst(r, i)
  {
    FirstPositionsAscending(r);
    DedupAtFirstPositions(r);
    FirstPositionsExact(r);
  }

  /** Deduplication keeps a subsequence of its input. */
  lemma DedupSubsequence(r: seq<VersionMatch>)
    ensures IsSubsequence(Dedup(r), r)
  {
    DedupPicksFirst(r);
  }

  /** No two deduplicated matches share a key. */
  lemma DedupDistinct(r: seq<VersionMatch>)
    ensures DistinctKeys(Dedup(r))
  {
    DedupPicksFirst(r);
    var d, idx := Dedup(r), FirstPositions(r);
    forall a, b | 0 <= a < b < |d| ensures !SameKey(d[a], d[b]) {
      assert idx[a] < idx[b] && idx[b] in idx;
      assert IsFirst(r, idx[b]);
    }
  }

  /** Every key of the input is carried into the output by the first match with that key. */
  lemma DedupKeepsFirst(r: seq<VersionMatch>, i: nat)
    requires i < |r|
    ensures exists j | 0 <= j <= i :: IsFirst(r, j) && SameKey(r[j], r[i]) && r[j] in Dedup(r)
  {
    DedupPicksFirst(r);
    var j := FirstWithKey(r, i);
    assert IsFirst(r, j);
    var idx := FirstPositions(r);
    var t :| 0 <= t < |idx| && idx[t] == j;
    assert Dedup(r)[t] == r[j];
  }

  /** The least position holding the key of `r[i]`. */
  ghost function FirstWithKey(r: seq<VersionMatch>, i: nat): (j: nat)
    requires i < |r|
    ensures j <= i && SameKey(r[j], r[i]) && IsFirst(r, j)
    decreases i
  {
    if exists j | 0 <= j < i :: SameKey(r[j], r[i]) then
      var j :| 0 <= j < i && SameKey(r[j], r[i]);
      FirstWithKey(r, j)
    else i
  }

  /** Deduplication keeps the set of keys. */
  lemma DedupKeys(r: seq<VersionMatch>)
    ensures KeysOf(Dedup(r)) == KeysOf(r)
  {
    DedupPicksFirst(r);
    var d, idx := Dedup(r), FirstPositions(r);
    forall k | k in KeysOf(r) ensures k in KeysOf(d) {
      var i :| 0 <= i < |r| && DedupKey(r[i]) == k;
      DedupKeepsFirst(r, i);
      var j :| 0 <= j <= i && IsFirst(r, j) && SameKey(r[j], r[i]) && r[j] in d;
      var t :| 0 <= t < |d| && d[t] == r[j];
    }
    forall k | k in KeysOf(d) ensures k in KeysOf(r) {
      var t :| 0 <= t < |d| && DedupKey(d[t]) == k;
      assert d[t] == r[idx[t]];
    }
  }

  /** On matches whose keys are already distinct deduplication changes nothing. */
  lemma {:induction false} DedupIdentity(r: seq<VersionMatch>)
    requires DistinctKeys(r)
    ensures Dedup(r) == r
    decreases |r|
  {
    if r != [] {
      var init := r[..|r| - 1];
      assert DistinctKeys(init);
      DedupIdentity(init);
      if DedupKey(r[|r| - 1]) in KeysOf(init) {
        var j :| 0 <= j < |init| && DedupKey(init[j]) == DedupKey(r[|r| - 1]);
        assert r[j] == init[j];
        assert SameKey(r[j], r[|r| - 1]);
      }
    }
  }

  /** Deduplicating twice is deduplicating once. */
  lemma DedupIdempotent(r: seq<VersionMatch>)
    ensures Dedup(Dedup(r)) == Dedup(r)
  {
    DedupDistinct(r);
    DedupIdentity(Dedup(r));
  }

  /** A subsequence of matches with ascending line indices has ascending line indices. */
  lemma DedupLinesAscending(r: seq<VersionMatch>)
    requires LinesAscending(r)
    ensures LinesAscending(Dedup(r))
  {
    DedupPicksFirst(r);
    var d, idx := Dedup(r), FirstPositions(r);
    forall a, b | 0 <= a < b < |d| ensures d[a].line <= d[b].line {
      assert d[a] == r[idx[a]] && d[b] == r[idx[b]] && idx[a] < idx[b];
    }
  }


  /**
    What a scan that does not throw promises: no two reported occurrences share a key,
    they come line by line, each one is well built and made from a result of a configured
    pattern on a non-empty line, and, when every result is locatable, each one is also
    located correctly on that line.
  */
  lemma ScanResultSound(engine: Engine, lines: seq<string>, patterns: seq<string>)
    ensures forall x | x in Dedup(DocumentOccurrences(engine, lines, patterns)) :: BuiltIn(engine, lines, patterns, x)
    ensures EngineSound(engine, lines, patterns) ==>
      forall x | x in Dedup(DocumentOccurrences(engine, lines, patterns)) :: FoundIn(engine, lines, patterns, x)
    ensures DistinctKeys(Dedup(DocumentOccurrences(engine, lines, patterns)))
    ensures LinesAscending(Dedup(DocumentOccurrences(engine, lines, patterns)))
  {
    var r := DocumentOccurrences(engine, lines, patterns);
    var d := Dedup(r);
    DocumentOccurrencesLineOrder(engine, lines, patterns);
    DedupPicksFirst(r);
    DedupDistinct(r);
    DedupLinesAscending(r);
    DocumentOccurrencesBuilt(engine, lines, patterns);
    forall x | x in d ensures x in r {
      var t :| 0 <= t < |d| && d[t] == x;
      assert x == r[FirstPositions(r)[t]];
    }
    if EngineSound(engine, lines, patterns) {
      DocumentOccurrencesSound(engine, lines, patterns);
    }
  }

  /** One more match: its key joins the keys seen, and it is kept exactly when its key is new. */
  lemma DedupStep(r: seq<VersionMatch>, i: nat)
    requires i < |r|
    ensures KeysOf(r[..i + 1]) == KeysOf(r[..i]) + {DedupKey(r[i])}
    ensures Dedup(r[..i + 1]) ==
      if DedupKey(r[i]) in KeysOf(r[..i]) then Dedup(r[..i]) else Dedup(r[..i]) + [r[i]]
  {
    assert r[..i + 1][..i] == r[..i];
    assert r[..i] + [r[i]] == r[..i + 1];
    KeysOfSnoc(r[..i], r[i]);
  }

  /**
    `deduplicateMatches`: a single pass that records every key in `seen` and keeps a
    match only when its key was not seen before.
  */
  method DeduplicateMatches(matches: seq<VersionMatch>) returns (kept: seq<VersionMatch>)
    ensures kept == Dedup(matches)
    ensures IsSubsequence(kept, matches)
    ensures DistinctKeys(kept)
    ensures KeysOf(kept) == KeysOf(matches)
  {
    var seen: set<string> := {};
    kept := [];
    for i := 0 to |matches|
      invariant kept == Dedup(matches[..i])
      invariant seen == KeysOf(matches[..i])
    {
      var key := DedupKey(matches[i]);
      DedupStep(matches, i);
      if key !in seen {
        seen := seen + {key};
        kept := kept + [matches[i]];
      }
    }
    assert matches[..|matches|] == matches;
    DedupSubsequence(matches);
    DedupDistinct(matches);
    DedupKeys(matches);
  }

  /** Taking one more result of a pattern appends what that result contributes. */
  lemma PatternOccurrencesStep(lineIndex: nat, ms: seq<RegexMatch>, k: nat)
    requires 0 < k <= |ms|
    ensures PatternOccurrences(lineIndex, ms[..k]) ==
      PatternOccurrences(lineIndex, ms[..k - 1]) + Emitted(lineIndex, ms[k - 1])
    ensures PatternThrows(ms[..k]) == (PatternThrows(ms[..k - 1]) || Throws(ms[k - 1]))
  {
    assert ms[..k][..k - 1] == ms[..k - 1];
  }

  /** Taking one more pattern appends that pattern's occurrences on the line. */
  lemma PatternsOccurrencesStep(engine: Engine, lineIndex: nat, line: string, patterns: seq<string>, j: nat)
    requires 0 < j <= |patterns|
    ensures PatternsOccurrences(engine, lineIndex, line, patterns[..j]) ==
      PatternsOccurrences(engine, lineIndex, line, patterns[..j - 1]) +
      PatternOccurrences(lineIndex, engine(patterns[j - 1], line))
    ensures PatternsThrow(engine, line, patterns[..j]) ==
      (PatternsThrow(engine, line, patterns[..j - 1]) || PatternThrows(engine(patterns[j - 1], line)))
  {
    assert patterns[..j][..j - 1] == patterns[..j - 1];
  }

  /** Taking one more line appends that line's occurrences. */
  lemma DocumentOccurrencesStep(engine: Engine, lines: seq<string>, patterns: seq<string>, i: nat)
    requires 0 < i <= |lines|
    ensures DocumentOccurrences(engine, lines[..i], patterns) ==
      DocumentOccurrences(engine, lines[..i - 1], patterns) + LineOccurrences(engine, i - 1, lines[i - 1], patterns)
    ensures DocumentThrows(engine, lines[..i], patterns) ==
      (DocumentThrows(engine, lines[..i - 1], patterns) || LineThrows(engine, lines[i - 1], patterns))
  {
    assert lines[..i][..i - 1] == lines[..i - 1];
  }

  /**
    One turn of the `exec` loop: skip a result whose group 1 is absent, empty or not a
    version, and otherwise build the occurrence located at `index + fullMatch.indexOf(capture)`.
    None when that column is negative, where constructing the editor position throws.
  */
  method LocateResult(lineIndex: nat, m: RegexMatch) returns (found: Option<seq<VersionMatch>>)
    ensures found.None? <==> Throws(m)
    ensures found.Some? ==> found.value == Emitted(lineIndex, m)
  {
    if m.group1.None? || m.group1.value == "" {
      assert Emitted(lineIndex, m) == [];
      return Some([]);
    }
    var versionString := m.group1.value;
    var parsed := ParseVersion(versionString);
    if parsed.None? {
      assert Emitted(lineIndex, m) == [];
      return Some([]);
    }
    var startChar := m.index + IndexOf(m.fullMatch, versionString);
    if startChar < 0 {
      return None;
    }
    var endChar := startChar + |versionString|;
    var versionMatch := VersionMatch(versionString, parsed.value.major, parsed.value.minor, parsed.value.patch,
      None, Range(Position(lineIndex, startChar), Position(lineIndex, endChar)), lineIndex, m.fullMatch);
    if parsed.value.prerelease.Some? {
      versionMatch := versionMatch.(prerelease := parsed.value.prerelease);
    }
    assert versionMatch.prerelease == parsed.value.prerelease;
    assert versionMatch == VersionMatch(versionString, parsed.value.major, parsed.value.minor, parsed.value.patch,
      parsed.value.prerelease, Range(Position(lineIndex, startChar), Position(lineIndex, endChar)), lineIndex, m.fullMatch);
    EmittedCapture(lineIndex, m, versionString, parsed.value, startChar);
    return Some([versionMatch]);
  }

  /**
    The `exec` loop of one pattern on one line: walk its results in order and push what
    each contributes; None as soon as one of them throws.
  */
  method ScanPattern(lineIndex: nat, ms: seq<RegexMatch>) returns (found: Option<seq<VersionMatch>>)
    ensures found.None? <==> PatternThrows(ms)
    ensures found.Some? ==> found.value == PatternOccurrences(lineIndex, ms)
  {
    var pushed: seq<VersionMatch> := [];
    for k := 0 to |ms|
      invariant !PatternThrows(ms[..k])
      invariant pushed == PatternOccurrences(lineIndex, ms[..k])
    {
      PatternOccurrencesStep(lineIndex, ms, k + 1);
      var more := LocateResult(lineIndex, ms[k]);
      if more.None? {
        PatternThrowsExtend(ms, k + 1);
        return None;
      }
      pushed := pushed + more.value;
    }
    assert ms[..|ms|] == ms;
    found := Some(pushed);
  }

  /** The patterns of one non-empty line, in configured order, each walked by its `exec` loop; None when one of them throws. */
  method ScanLine(engine: Engine, lineIndex: nat, line: string, patterns: seq<string>) returns (found: Option<seq<VersionMatch>>)
    ensures found.None? <==> PatternsThrow(engine, line, patterns)
    ensures found.Some? ==> found.value == PatternsOccurrences(engine, lineIndex, line, patterns)
  {
    var pushed: seq<VersionMatch> := [];
    for j := 0 to |patterns|
      invariant !PatternsThrow(engine, line, patterns[..j])
      invariant pushed == PatternsOccurrences(engine, lineIndex, line, patterns[..j])
    {
      PatternsOccurrencesStep(engine, lineIndex, line, patterns, j + 1);
      var more := ScanPattern(lineIndex, engine(patterns[j], line));
      if more.None? {
        PatternsThrowExtend(engine, line, patterns, j + 1);
        return None;
      }
      pushed := pushed + more.value;
    }
    assert patterns[..|patterns|] == patterns;
    found := Some(pushed);
  }

  /**
    `scanDocument`: split the text on newlines; on every non-empty line run every
    configured pattern in order and walk its results, keeping each capture the version
    grammar accepts, located at `index + fullMatch.indexOf(capture)`; then drop later
    duplicates. None when some accepted capture gets a negative column, where the
    editor position throws and no result is returned. Otherwise the result is the
    deduplicated document occurrences, with distinct keys and ascending line indices,
    each one well built and made from a result of a configured pattern on the non-empty
    line it names, and located correctly there when the results are locatable.
  */
  method ScanDocument(text: string, patterns: seq<string>, engine: Engine) returns (result: Option<seq<VersionMatch>>)
    ensures result.None? <==> DocumentThrows(engine, Split(text, '\n'), patterns)
    ensures result.Some? ==> result.value == Dedup(DocumentOccurrences(engine, Split(text, '\n'), patterns))
    ensures result.Some? ==> DistinctKeys(result.value) && LinesAscending(result.value)
    ensures result.Some? ==> forall x | x in result.value :: BuiltIn(engine, Split(text, '\n'), patterns, x)
    ensures result.Some? && EngineSound(engine, Split(text, '\n'), patterns) ==>
      forall x | x in result.value :: FoundIn(engine, Split(text, '\n'), patterns, x)
  {
    var lines := Split(text, '\n');
    var matches: seq<VersionMatch> := [];
    for lineIndex := 0 to |lines|
      invariant !DocumentThrows(engine, lines[..lineIndex], patterns)
      invariant matches == DocumentOccurrences(engine, lines[..lineIndex], patterns)
    {
      var line := lines[lineIndex];
      DocumentOccurrencesStep(engine, lines, patterns, lineIndex + 1);
      if line == "" {
        continue;
      }
      var found := ScanLine(engine, lineIndex, line, patterns);
      if found.None? {
        DocumentThrowsExtend(engine, lines, patterns, lineIndex + 1);
        return None;
      }
      matches := matches + found.value;
    }
    assert lines[..|lines|] == lines;
    var kept := DeduplicateMatches(matches);
    ScanResultSound(engine, lines, patterns);
    result := Some(kept);
  }

  /**
    With a lookahead capture at the start of a line, the column is -1: the whole match
    `v` is a genuine result, group 1 `1.2.3` is not inside it, and the scan throws.
  */
  lemma LookaheadAtStartThrows()
    ensures IsExecResult("v1.2.3", RegexMatch(0, "v", Some("1.2.3")))
    ensures !CapturedInside(RegexMatch(0, "v", Some("1.2.3")))
    ensures Throws(RegexMatch(0, "v", Some("1.2.3")))
  {
    FormatRoundTrip(Triple(1, 2, 3));
    assert FormatTriple(Triple(1, 2, 3)) == "1.2.3";
  }

  /**
    With the same lookahead capture one column further in, the column is `index - 1`:
    the reported range starts at column 0 of `xv1.2.3`, which does not hold the version.
  */
  lemma LookaheadMisplaced()
    ensures IsExecResult("xv1.2.3", RegexMatch(1, "v", Some("1.2.3")))
    ensures |Emitted(0, RegexMatch(1, "v", Some("1.2.3")))| == 1
    ensures Emitted(0, RegexMatch(1, "v", Some("1.2.3")))[0].range.start.character == 0
    ensures !OccursAt("xv1.2.3", "1.2.3", 0)
  {
    FormatRoundTrip(Triple(1, 2, 3));
    assert FormatTriple(Triple(1, 2, 3)) == "1.2.3";
  }
}
