/**
  The version grammar of the extension: parsing `M.m.p` with an optional `-tail`,
  bumping by major, minor or patch, comparing two version strings and validating one.
  The grammar is deliberately looser than Semantic Versioning 2.0.0: leading zeros
  are accepted, the tail is any run of characters other than line terminators, and
  the comparison never looks at the tail.
*/
module Version {
  import opened Wrappers
  import opened Text
  import opened Types

  /** The record `parseVersion` returns; `prerelease` is present only when the text has a `-tail`. */
  datatype ParsedVersion = ParsedVersion(major: nat, minor: nat, patch: nat, prerelease: Option<string>)

  /** The four capture groups of the grammar `^(\d+)\.(\d+)\.(\d+)(?:-(.+))?$`. */
  datatype Captures = Captures(major: string, minor: string, patch: string, prerelease: Option<string>)

  /** The characters a regular-expression `.` does not match when the `s` flag is absent. */
  predicate IsLineTerminator(c: char) {
    c == '\n' || c == '\r' || c == '\U{2028}' || c == '\U{2029}'
  }

  /** What `(.+)` matches: one or more characters, none of them a line terminator. */
  predicate IsTail(t: string) {
    |t| >= 1 && forall i | 0 <= i < |t| :: !IsLineTerminator(t[i])
  }

  /** What `(\d+)` matches. */
  predicate IsDigitRun(s: string) {
    |s| >= 1 && AllDigits(s)
  }

  /** Captures that the grammar can produce. */
  predicate WellFormed(c: Captures) {
    IsDigitRun(c.major) && IsDigitRun(c.minor) && IsDigitRun(c.patch) &&
    (c.prerelease.Some? ==> IsTail(c.prerelease.value))
  }

  /** The text of the optional `-tail`: nothing, or `-` followed by the tag. */
  function TagText(tag: Option<string>): string {
    match tag
    case None => ""
    case Some(t) => "-" + t
  }

  /** The text a match with these captures spans: `major.minor.patch`, then `-tail` when there is one. */
  function Render(c: Captures): string {
    c.major + "." + c.minor + "." + c.patch + TagText(c.prerelease)
  }

  /** The strings the grammar accepts. */
  ghost predicate IsVersionText(s: string) {
    exists c :: WellFormed(c) && Render(c) == s
  }

  /** Length of the longest run of digits in `s` starting at `from`. */
  function DigitRun(s: string, from: nat): (n: nat)
    requires from <= |s|
    ensures from + n <= |s|
    decreases |s| - from
  {
    if from < |s| && IsDigit(s[from]) then 1 + DigitRun(s, from + 1) else 0
  }

  /** The run found is all digits, and it stops at a non-digit or at the end of the text. */
  lemma {:induction false} DigitRunSpec(s: string, from: nat)
    requires from <= |s|
    ensures AllDigits(s[from..from + DigitRun(s, from)])
    ensures from + DigitRun(s, from) < |s| ==> !IsDigit(s[from + DigitRun(s, from)])
    decreases |s| - from
  {
    if from < |s| && IsDigit(s[from]) {
      var m := DigitRun(s, from + 1);
      DigitRunSpec(s, from + 1);
      assert s[from..from + 1 + m] == [s[from]] + s[from + 1..from + 1 + m];
    }
  }

  /** A digit run of length `n` that ends at a non-digit or at the end is the longest one. */
  lemma {:induction false} DigitRunExact(s: string, from: nat, n: nat)
    requires from + n <= |s| && AllDigits(s[from..from + n])
    requires from + n < |s| ==> !IsDigit(s[from + n])
    ensures DigitRun(s, from) == n
    decreases n
  {
    if n > 0 {
      assert s[from..from + n][0] == s[from];
      assert s[from + 1..from + 1 + (n - 1)] == s[from..from + n][1..];
      DigitRunExact(s, from + 1, n - 1);
    }
  }

  /**
    What `(?:-(.+))?$` makes of the text from `e` on: Some(None) at the end of the text,
    Some(Some(tail)) for `-` and a tail, None otherwise.
  */
  function MatchTail(s: string, e: nat): Option<Option<string>>
    requires e <= |s|
  {
    if e == |s| then Some(None)
    else if s[e] == '-' && IsTail(s[e + 1..]) then Some(Some(s[e + 1..]))
    else None
  }

  /** MatchTail accepts exactly a rest that is the text of a well-formed tag, and returns that tag. */
  lemma MatchTailSpec(s: string, e: nat, tag: Option<string>)
    requires e <= |s|
    ensures MatchTail(s, e) == Some(tag) <==> s[e..] == TagText(tag) && (tag.Some? ==> IsTail(tag.value))
  {
    match tag {
      case None =>
        if s[e..] == "" { assert e == |s| by { assert |s[e..]| == 0; } }
      case Some(t) =>
        if s[e..] == "-" + t {
          assert s[e..][0] == s[e] && s[e + 1..] == s[e..][1..];
        }
        if MatchTail(s, e) == Some(tag) {
          assert s[e..] == [s[e]] + s[e + 1..];
        }
    }
  }

  /**
    The anchored match of the grammar: the captures when all of `s` matches, None otherwise.
    Each `\d+` must stop at the longest digit run, because the character after it must be
    `.`, `-` or the end, none of which is a digit, so there is no other way to match.
  */
  function MatchGrammar(s: string): Option<Captures>
  {
    var n1 := DigitRun(s, 0);
    if n1 == 0 || n1 == |s| || s[n1] != '.' then None
    else
      var p2 := n1 + 1;
      var n2 := DigitRun(s, p2);
      if n2 == 0 || p2 + n2 == |s| || s[p2 + n2] != '.' then None
      else
        var p3 := p2 + n2 + 1;
        var n3 := DigitRun(s, p3);
        if n3 == 0 then None
        else
          match MatchTail(s, p3 + n3)
          case None => None
          case Some(tag) => Some(Captures(s[..n1], s[p2..p2 + n2], s[p3..p3 + n3], tag))
  }

  /** A text whose three digit runs are followed by dots is those runs, the dots and the rest. */
  lemma Reassemble(s: string, n1: nat, n2: nat, n3: nat)
    requires n1 + 1 + n2 + 1 + n3 <= |s| && s[n1] == '.' && s[n1 + 1 + n2] == '.'
    ensures var p2, p3 := n1 + 1, n1 + 1 + n2 + 1;
      s == s[..n1] + "." + s[p2..p2 + n2] + "." + s[p3..p3 + n3] + s[p3 + n3..]
  {
    var p2, p3 := n1 + 1, n1 + 1 + n2 + 1;
    var e := p3 + n3;
    var a, b := s[..n1] + "." + s[p2..p2 + n2], "." + s[p3..e] + s[e..];
    assert a == s[..p2 + n2] by {
      assert s[..p2] == s[..n1] + "." by { assert s[..p2] == s[..n1] + [s[n1]]; }
      assert s[..p2 + n2] == s[..p2] + s[p2..p2 + n2];
    }
    assert b == s[p2 + n2..] by {
      assert s[p3..] == s[p3..e] + s[e..];
      assert s[p2 + n2..] == [s[p2 + n2]] + s[p3..];
    }
    assert s == a + b;
  }

  /** Whatever the grammar matches is well formed and is spanned by its captures. */
  lemma MatchGrammarSound(s: string)
    ensures MatchGrammar(s).Some? ==> WellFormed(MatchGrammar(s).value) && Render(MatchGrammar(s).value) == s
  {
    if MatchGrammar(s).Some? {
      var n1 := DigitRun(s, 0);
      var p2 := n1 + 1;
      var n2 := DigitRun(s, p2);
      var p3 := p2 + n2 + 1;
      var n3 := DigitRun(s, p3);
      var tag := MatchTail(s, p3 + n3).value;
      assert MatchGrammar(s).value == Captures(s[..n1], s[p2..p2 + n2], s[p3..p3 + n3], tag);
      MatchTailSpec(s, p3 + n3, tag);
      RunAtStart(s, n1);
      RunAt(s, p2, n2);
      RunAt(s, p3, n3);
      CapturesWellFormed(s[..n1], s[p2..p2 + n2], s[p3..p3 + n3], tag);
      CapturesRender(s, n1, n2, n3, tag);
    }
  }

  /** Captures made of digit runs and a tail are well formed. */
  lemma CapturesWellFormed(major: string, minor: string, patch: string, tag: Option<string>)
    requires IsDigitRun(major) && IsDigitRun(minor) && IsDigitRun(patch)
    requires tag.Some? ==> IsTail(tag.value)
    ensures WellFormed(Captures(major, minor, patch, tag))
  {
  }

  /** Three runs joined by dots and followed by a tag's text are spelled by the captures of those pieces. */
  lemma CapturesRender(s: string, n1: nat, n2: nat, n3: nat, tag: Option<string>)
    requires n1 + 1 + n2 + 1 + n3 <= |s| && s[n1] == '.' && s[n1 + 1 + n2] == '.'
    requires s[n1 + 1 + n2 + 1 + n3..] == TagText(tag)
    ensures var p2, p3 := n1 + 1, n1 + 1 + n2 + 1;
      Render(Captures(s[..n1], s[p2..p2 + n2], s[p3..p3 + n3], tag)) == s
  {
    Reassemble(s, n1, n2, n3);
  }

  /** A non-empty longest digit run is a digit run. */
  lemma RunAt(s: string, from: nat, n: nat)
    requires from <= |s| && DigitRun(s, from) == n && n > 0
    ensures IsDigitRun(s[from..from + n])
  {
    DigitRunSpec(s, from);
  }

  /** A non-empty longest digit run at the start is a digit run. */
  lemma RunAtStart(s: string, n: nat)
    requires DigitRun(s, 0) == n && n > 0
    ensures IsDigitRun(s[..n])
  {
    RunAt(s, 0, n);
    assert s[..n] == s[0..0 + n];
  }

  /** Where each capture sits inside the rendered text. */
  lemma RenderLayout(c: Captures)
    ensures LaidOut(Render(c), c)
  {
    var tail := TagText(c.prerelease);
    var q1 := c.major + ".";
    var q2 := q1 + c.minor;
    var q3 := q2 + ".";
    var q4 := q3 + c.patch;
    var s := q4 + tail;
    assert s == Render(c);
    assert s[..|q4|] == q4 && s[|q4|..] == tail;
    assert q4[..|q3|] == q3 && q4[|q3|..] == c.patch;
    assert q3[..|q2|] == q2 && q3[|q2|] == '.';
    assert q2[..|q1|] == q1 && q2[|q1|..] == c.minor;
    assert q1[..|c.major|] == c.major && q1[|c.major|] == '.';
    assert s[..|q3|] == q3 && s[|q3|..|q4|] == c.patch;
    assert s[..|q2|] == q2 && s[|q2|] == '.';
    assert s[..|q1|] == q1 && s[|q1|..|q2|] == c.minor;
    assert s[..|c.major|] == c.major && s[|c.major|] == '.';
  }

  /** `s` holds the captures of `c` at the places the grammar puts them. */
  predicate LaidOut(s: string, c: Captures) {
    var n1, n2, n3 := |c.major|, |c.minor|, |c.patch|;
    var p2 := n1 + 1;
    var p3 := p2 + n2 + 1;
    |s| >= p3 + n3 &&
    s[..n1] == c.major && s[n1] == '.' &&
    s[p2..p2 + n2] == c.minor && s[p2 + n2] == '.' &&
    s[p3..p3 + n3] == c.patch &&
    s[p3 + n3..] == TagText(c.prerelease)
  }

  /** In a text laid out as well-formed captures say, each digit run and the tail are found where they sit. */
  lemma LaidOutRuns(s: string, c: Captures)
    requires WellFormed(c) && LaidOut(s, c)
    ensures var n1, n2, n3 := |c.major|, |c.minor|, |c.patch|;
      var p2 := n1 + 1;
      var p3 := p2 + n2 + 1;
      DigitRun(s, 0) == n1 && DigitRun(s, p2) == n2 && DigitRun(s, p3) == n3 &&
      MatchTail(s, p3 + n3) == Some(c.prerelease)
  {
    var n1, n2, n3 := |c.major|, |c.minor|, |c.patch|;
    var p2 := n1 + 1;
    var p3 := p2 + n2 + 1;
    var e := p3 + n3;
    assert AllDigits(s[0..0 + n1]) by { assert s[0..0 + n1] == c.major; }
    DigitRunExact(s, 0, n1);
    DigitRunExact(s, p2, n2);
    MatchTailSpec(s, e, c.prerelease);
    assert e < |s| ==> s[e] == '-' by {
      if e < |s| { assert s[e] == s[e..][0]; }
    }
    DigitRunExact(s, p3, n3);
  }

  /** The match of a text laid out as the captures say, whatever the text is made of. */
  lemma MatchGrammarLaidOut(s: string, c: Captures)
    requires WellFormed(c) && LaidOut(s, c)
    ensures MatchGrammar(s) == Some(c)
  {
    var n1, n2, n3 := |c.major|, |c.minor|, |c.patch|;
    var p2 := n1 + 1;
    var p3 := p2 + n2 + 1;
    LaidOutRuns(s, c);
    MatchGrammarAt(s, n1, n2, n3, c.prerelease);
    assert c == Captures(s[..n1], s[p2..p2 + n2], s[p3..p3 + n3], c.prerelease);
  }

  /** Where the three runs and the tail are found, MatchGrammar returns them. */
  lemma MatchGrammarAt(s: string, n1: nat, n2: nat, n3: nat, tag: Option<string>)
    requires 0 < n1 && 0 < n2 && 0 < n3 && n1 + n2 + n3 + 2 <= |s|
    requires DigitRun(s, 0) == n1 && s[n1] == '.'
    requires DigitRun(s, n1 + 1) == n2 && s[n1 + 1 + n2] == '.'
    requires DigitRun(s, n1 + n2 + 2) == n3 && MatchTail(s, n1 + n2 + 2 + n3) == Some(tag)
    ensures MatchGrammar(s) == Some(Captures(s[..n1], s[n1 + 1..n1 + 1 + n2], s[n1 + n2 + 2..n1 + n2 + 2 + n3], tag))
  {
  }

  /** Every text the grammar describes is matched, with exactly the captures it was built from. */
  lemma MatchGrammarComplete(c: Captures)
    requires WellFormed(c)
    ensures MatchGrammar(Render(c)) == Some(c)
  {
    RenderLayout(c);
    MatchGrammarLaidOut(Render(c), c);
  }

  /** The numeric record made from well-formed captures. */
  function ValueOf(c: Captures): ParsedVersion
    requires WellFormed(c)
  {
    ParsedVersion(DecimalValue(c.major), DecimalValue(c.minor), DecimalValue(c.patch), c.prerelease)
  }

  /** `parseVersion`: the record of a version string, or None when the grammar rejects it. */
  function ParseVersion(s: string): (r: Option<ParsedVersion>)
  {
    match MatchGrammar(s)
    case None => None
    case Some(c) =>
      MatchGrammarSound(s);
      Some(ValueOf(c))
  }

  /** ParseVersion succeeds exactly on the texts the grammar describes. */
  lemma ParseVersionSucceedsIff(s: string)
    ensures ParseVersion(s).Some? <==> IsVersionText(s)
  {
    if IsVersionText(s) {
      var c :| WellFormed(c) && Render(c) == s;
      MatchGrammarComplete(c);
    }
    MatchGrammarSound(s);
  }

  /**
    On a text of the grammar, the three numbers are the decimal values of the three
    digit runs (leading zeros allowed) and the prerelease tag is the tail verbatim,
    present exactly when the text has one.
  */
  lemma ParseVersionValues(c: Captures)
    requires WellFormed(c)
    ensures ParseVersion(Render(c)) ==
      Some(ParsedVersion(DecimalValue(c.major), DecimalValue(c.minor), DecimalValue(c.patch), c.prerelease))
  {
    MatchGrammarComplete(c);
  }

  /** Extra leading zeros on a component do not change what is parsed. */
  lemma ParseIgnoresLeadingZeros(c: Captures)
    requires WellFormed(c)
    ensures ParseVersion(Render(c.(major := "0" + c.major))) == ParseVersion(Render(c))
    ensures ParseVersion(Render(c.(minor := "0" + c.minor))) == ParseVersion(Render(c))
    ensures ParseVersion(Render(c.(patch := "0" + c.patch))) == ParseVersion(Render(c))
  {
    LeadingZero(c.major);
    LeadingZero(c.minor);
    LeadingZero(c.patch);
    ParseVersionValues(c);
    ParseVersionValues(c.(major := "0" + c.major));
    ParseVersionValues(c.(minor := "0" + c.minor));
    ParseVersionValues(c.(patch := "0" + c.patch));
  }

  /** The three numbers of a version, without its prerelease tag. */
  datatype Triple = Triple(major: nat, minor: nat, patch: nat)

  function TripleOf(p: ParsedVersion): Triple {
    Triple(p.major, p.minor, p.patch)
  }

  /** `${major}.${minor}.${patch}`. */
  function FormatTriple(t: Triple): string {
    NatToDecimal(t.major) + "." + NatToDecimal(t.minor) + "." + NatToDecimal(t.patch)
  }

  /** Formatting then parsing gives back the three numbers and no prerelease tag. */
  lemma FormatRoundTrip(t: Triple)
    ensures ParseVersion(FormatTriple(t)) == Some(ParsedVersion(t.major, t.minor, t.patch, None))
  {
    var c := Captures(NatToDecimal(t.major), NatToDecimal(t.minor), NatToDecimal(t.patch), None);
    assert Render(c) == FormatTriple(t);
    ParseVersionValues(c);
  }

  /**
    Parsing then formatting gives back a tag-less version text whose components
    carry no superfluous leading zeros.
  */
  lemma FormatParseRoundTrip(c: Captures)
    requires IsCanonical(c.major) && IsCanonical(c.minor) && IsCanonical(c.patch)
    requires c.prerelease == None
    ensures ParseVersion(Render(c)).Some?
    ensures FormatTriple(TripleOf(ParseVersion(Render(c)).value)) == Render(c)
  {
    ParseVersionValues(c);
    NatToDecimalCanonical(c.major);
    NatToDecimalCanonical(c.minor);
    NatToDecimalCanonical(c.patch);
  }

  /** Lexicographic order on sequences of equal length: equal on a prefix, smaller at the next place. */
  predicate LexLess(a: seq<nat>, b: seq<nat>) {
    exists k | 0 <= k < |a| && k < |b| :: a[..k] == b[..k] && a[k] < b[k]
  }

  function Components(t: Triple): seq<nat> {
    [t.major, t.minor, t.patch]
  }

  /** The order of versions: lexicographic on (major, minor, patch). */
  predicate Less(t: Triple, u: Triple) {
    LexLess(Components(t), Components(u))
  }

  /** Less compares major first, then minor, then patch. */
  lemma LessCases(t: Triple, u: Triple)
    ensures Less(t, u) <==>
      t.major < u.major ||
      (t.major == u.major && (t.minor < u.minor || (t.minor == u.minor && t.patch < u.patch)))
  {
    var a, b := Components(t), Components(u);
    if Less(t, u) {
      var k :| 0 <= k < |a| && k < |b| && a[..k] == b[..k] && a[k] < b[k];
      if k == 1 {
        assert a[..1][0] == b[..1][0];
      } else if k == 2 {
        assert a[..2][0] == b[..2][0] && a[..2][1] == b[..2][1];
      }
    } else {
      assert a[..0] == b[..0];
      assert !(a[0] < b[0]);
      if t.major == u.major {
        assert a[..1] == b[..1];
        assert !(a[1] < b[1]);
        if t.minor == u.minor {
          assert a[..2] == b[..2];
          assert !(a[2] < b[2]);
        }
      }
    }
  }

  /** Less is a strict total order on triples. */
  lemma LessIsStrictTotalOrder(t: Triple, u: Triple, w: Triple)
    ensures !Less(t, t)
    ensures Less(t, u) && Less(u, w) ==> Less(t, w)
    ensures t == u || Less(t, u) || Less(u, t)
    ensures !(Less(t, u) && Less(u, t))
  {
    LessCases(t, t);
    LessCases(t, u);
    LessCases(u, t);
    LessCases(u, w);
    LessCases(t, w);
  }

  /** `compareVersions`: negative, zero or positive; zero when either side does not parse. */
  function CompareVersions(a: string, b: string): (r: int)
    ensures ParseVersion(a).None? || ParseVersion(b).None? ==> r == 0
    ensures ParseVersion(a).Some? && ParseVersion(b).Some? ==>
      var ta, tb := TripleOf(ParseVersion(a).value), TripleOf(ParseVersion(b).value);
      (r < 0 <==> Less(ta, tb)) && (r == 0 <==> ta == tb) && (r > 0 <==> Less(tb, ta))
  {
    match (ParseVersion(a), ParseVersion(b))
    case (Some(pa), Some(pb)) =>
      LessCases(TripleOf(pa), TripleOf(pb));
      LessCases(TripleOf(pb), TripleOf(pa));
      if pa.major != pb.major then pa.major - pb.major
      else if pa.minor != pb.minor then pa.minor - pb.minor
      else pa.patch - pb.patch
    case _ => 0
  }

  /** Swapping the arguments negates the result; a version compares equal to itself. */
  lemma CompareAntisymmetric(a: string, b: string)
    ensures CompareVersions(a, b) == -CompareVersions(b, a)
    ensures CompareVersions(a, a) == 0
  {
  }

  /** The sign of the comparison is transitive. */
  lemma CompareTransitive(a: string, b: string, c: string)
    requires ParseVersion(a).Some? && ParseVersion(b).Some? && ParseVersion(c).Some?
    ensures CompareVersions(a, b) < 0 && CompareVersions(b, c) < 0 ==> CompareVersions(a, c) < 0
    ensures CompareVersions(a, b) == 0 && CompareVersions(b, c) == 0 ==> CompareVersions(a, c) == 0
  {
    LessIsStrictTotalOrder(TripleOf(ParseVersion(a).value), TripleOf(ParseVersion(b).value),
      TripleOf(ParseVersion(c).value));
  }

  /** Two texts differing only in their prerelease tags compare equal. */
  lemma CompareIgnoresPrerelease(c: Captures, tag: Option<string>)
    requires WellFormed(c) && (tag.Some? ==> IsTail(tag.value))
    ensures CompareVersions(Render(c), Render(c.(prerelease := tag))) == 0
  {
    ParseVersionValues(c);
    ParseVersionValues(c.(prerelease := tag));
  }

  /** `isValidVersion`. */
  function IsValidVersion(s: string): (b: bool)
    ensures b <==> IsVersionText(s)
  {
    ParseVersionSucceedsIff(s);
    ParseVersion(s).Some?
  }

  /** The cascade of a bump: raise one component and reset the ones after it. */
  function Bumped(t: Triple, kind: BumpKind): Triple {
    match kind
    case Major => Triple(t.major + 1, 0, 0)
    case Minor => Triple(t.major, t.minor + 1, 0)
    case Patch => Triple(t.major, t.minor, t.patch + 1)
  }

  /** How many leading components a bump of this kind must raise. */
  function Level(kind: BumpKind): nat {
    match kind
    case Major => 1
    case Minor => 2
    case Patch => 3
  }

  /** `u` is above `t` at the level of `kind`: on the first Level(kind) components, lexicographically. */
  predicate Above(t: Triple, u: Triple, kind: BumpKind) {
    LexLess(Components(t)[..Level(kind)], Components(u)[..Level(kind)])
  }

  /**
    A bump gives the least triple above the original at the bump's level: the next
    major, the next minor of the same major, or the next patch.
  */
  lemma BumpIsLeastAbove(t: Triple, kind: BumpKind, u: Triple)
    requires Above(t, u, kind)
    ensures Above(t, Bumped(t, kind), kind)
    ensures Bumped(t, kind) == u || Less(Bumped(t, kind), u)
  {
    var b := Bumped(t, kind);
    var ct, cu, cb := Components(t), Components(u), Components(b);
    LessCases(b, u);
    var k :| 0 <= k < Level(kind) && ct[..Level(kind)][..k] == cu[..Level(kind)][..k] &&
      ct[..Level(kind)][k] < cu[..Level(kind)][k];
    if k >= 1 { assert ct[0] == ct[..Level(kind)][..k][0] == cu[..Level(kind)][..k][0] == cu[0]; }
    if k >= 2 { assert ct[1] == ct[..Level(kind)][..k][1] == cu[..Level(kind)][..k][1] == cu[1]; }
    var j := Level(kind) - 1;
    assert ct[..Level(kind)][..j] == cb[..Level(kind)][..j];
  }

  /** A bump always gives a strictly greater version. */
  lemma BumpIncreases(t: Triple, kind: BumpKind)
    ensures Less(t, Bumped(t, kind))
  {
    LessCases(t, Bumped(t, kind));
  }

  /** The bumped text of any parsable version compares greater than the version itself. */
  lemma BumpComparesGreater(s: string, kind: BumpKind)
    requires ParseVersion(s).Some?
    ensures CompareVersions(FormatTriple(Bumped(TripleOf(ParseVersion(s).value), kind)), s) > 0
  {
    var t := TripleOf(ParseVersion(s).value);
    FormatRoundTrip(Bumped(t, kind));
    BumpIncreases(t, kind);
  }

  /**
    `bumpVersion`: rebinds major, minor and patch as the bump kind says and prints
    `M.m.p`. The prerelease tag of the input is dropped; the text always parses back
    to the bumped numbers.
  */
  method BumpVersion(version: VersionMatch, kind: BumpKind) returns (s: string)
    ensures s == FormatTriple(Bumped(Triple(version.major, version.minor, version.patch), kind))
    ensures var b := Bumped(Triple(version.major, version.minor, version.patch), kind);
      ParseVersion(s) == Some(ParsedVersion(b.major, b.minor, b.patch, None))
  {
    var major, minor, patch := version.major, version.minor, version.patch;
    match kind {
      case Major =>
        major := major + 1;
        minor := 0;
        patch := 0;
      case Minor =>
        minor := minor + 1;
        patch := 0;
      case Patch =>
        patch := patch + 1;
    }
    s := NatToDecimal(major) + "." + NatToDecimal(minor) + "." + NatToDecimal(patch);
    FormatRoundTrip(Triple(major, minor, patch));
  }

  /** A word has no leading digit run. */
  lemma RejectsWord()
    ensures ParseVersion("invalid") == None
  {
    assert DigitRun("invalid", 0) == 0;
  }

  /** Two components are too few. */
  lemma RejectsTwoComponents()
    ensures ParseVersion("1.2") == None
  {
    assert DigitRun("1.2", 2) == 1;
    assert DigitRun("1.2", 0) == 1;
  }

  /** Four components are too many: after the third run comes `.`, not `-` or the end. */
  lemma RejectsFourComponents()
    ensures ParseVersion("1.2.3.4") == None
  {
    var s := "1.2.3.4";
    assert s[0..1] == "1" && s[2..3] == "2" && s[4..5] == "3";
    DigitRunExact(s, 0, 1);
    DigitRunExact(s, 2, 1);
    DigitRunExact(s, 4, 1);
    assert MatchTail(s, 5) == None;
  }

  /** The empty string has no digit run. */
  lemma RejectsEmpty()
    ensures ParseVersion("") == None
  {
  }

  /** A `v` prefix is not part of the grammar. */
  lemma RejectsPrefix()
    ensures ParseVersion("v1.2.3") == None
  {
    assert DigitRun("v1.2.3", 0) == 0;
  }

  /** Texts outside the grammar: a word, too few or too many components, the empty string, a `v` prefix. */
  lemma ParseVersionRejects()
    ensures ParseVersion("invalid") == None
    ensures ParseVersion("1.2") == None
    ensures ParseVersion("1.2.3.4") == None
    ensures ParseVersion("") == None
    ensures ParseVersion("v1.2.3") == None
  {
    RejectsWord();
    RejectsTwoComponents();
    RejectsFourComponents();
    RejectsEmpty();
    RejectsPrefix();
  }

  /** `1.2.3-beta.1` has numbers 1, 2, 3 and the tag `beta.1`. */
  lemma ParseVersionWithTag()
    ensures ParseVersion("1.2.3-beta.1") == Some(ParsedVersion(1, 2, 3, Some("beta.1")))
  {
    var c := Captures("1", "2", "3", Some("beta.1"));
    assert IsTail("beta.1");
    assert WellFormed(c);
    assert DecimalValue("1") == 1 && DecimalValue("2") == 2 && DecimalValue("3") == 3;
    assert Render(c) == "1.2.3-beta.1";
    ParseVersionValues(c);
  }

  /** `007.01.3` parses as 7.1.3: leading zeros are accepted and dropped. */
  lemma ParseVersionLeadingZeros()
    ensures ParseVersion("007.01.3") == Some(ParsedVersion(7, 1, 3, None))
  {
    var c := Captures("007", "01", "3", None);
    assert WellFormed(c);
    assert DecimalValue("0") == 0 && DecimalValue("00") == 0 && DecimalValue("007") == 7;
    assert DecimalValue("01") == 1 && DecimalValue("3") == 3;
    assert Render(c) == "007.01.3";
    ParseVersionValues(c);
  }

  /** The three bumps of 1.2.3, and a patch bump that adds a digit. */
  lemma BumpExamples()
    ensures FormatTriple(Bumped(Triple(1, 2, 3), Patch)) == "1.2.4"
    ensures FormatTriple(Bumped(Triple(1, 2, 3), Minor)) == "1.3.0"
    ensures FormatTriple(Bumped(Triple(1, 2, 3), Major)) == "2.0.0"
    ensures FormatTriple(Bumped(Triple(1, 2, 9), Patch)) == "1.2.10"
  {
    assert NatToDecimal(10) == NatToDecimal(1) + [DigitChar(0)];
  }

  /** A later major wins over any minor and patch. */
  lemma CompareMajorExample()
    ensures CompareVersions("2.0.0", "1.9.9") > 0
  {
    FormatRoundTrip(Triple(2, 0, 0));
    assert FormatTriple(Triple(2, 0, 0)) == "2.0.0";
    FormatRoundTrip(Triple(1, 9, 9));
    assert FormatTriple(Triple(1, 9, 9)) == "1.9.9";
  }

  /** Equal major and minor: the patch decides. */
  lemma ComparePatchExample()
    ensures CompareVersions("1.2.3", "1.2.4") < 0
  {
    FormatRoundTrip(Triple(1, 2, 3));
    assert FormatTriple(Triple(1, 2, 3)) == "1.2.3";
    FormatRoundTrip(Triple(1, 2, 4));
    assert FormatTriple(Triple(1, 2, 4)) == "1.2.4";
  }

  /** An unparsable side compares as 0. */
  lemma CompareInvalidExample()
    ensures CompareVersions("invalid", "1.2.3") == 0
  {
    ParseVersionRejects();
  }

  /** `isValidVersion` on a plain version, a tagged one and a text with a `v` prefix. */
  lemma IsValidExamples()
    ensures IsValidVersion("1.2.3")
    ensures IsValidVersion("1.2.3-beta.1")
    ensures !IsValidVersion("v1.2.3")
  {
    FormatRoundTrip(Triple(1, 2, 3));
    assert FormatTriple(Triple(1, 2, 3)) == "1.2.3";
    ParseVersionWithTag();
    ParseVersionRejects();
  }
}
