/**
  The JavaScript string operations the core relies on, stated over `seq<char>`:
  decimal digit runs (`parseInt(s, 10)`), the decimal text of a natural number
  (template-literal interpolation), `String.prototype.split` with a one-character
  separator and `String.prototype.indexOf`.
*/
module Text {

  predicate IsDigit(c: char) {
    '0' <= c <= '9'
  }

  predicate AllDigits(s: string) {
    forall i | 0 <= i < |s| :: IsDigit(s[i])
  }

  function DigitValue(c: char): (d: nat)
    requires IsDigit(c)
    ensures d < 10
  {
    (c as int) - ('0' as int)
  }

  function DigitChar(d: nat): (c: char)
    requires d < 10
    ensures IsDigit(c) && DigitValue(c) == d
  {
    (('0' as int) + d) as char
  }

  /** The value `parseInt(s, 10)` gives a run of decimal digits; leading zeros add nothing. */
  function DecimalValue(s: string): nat
    requires AllDigits(s)
  {
    if s == [] then 0 else 10 * DecimalValue(s[..|s| - 1]) + DigitValue(s[|s| - 1])
  }

  /** The decimal text of a natural number, with no leading zeros. */
  function NatToDecimal(n: nat): (s: string)
    ensures |s| >= 1 && AllDigits(s)
    ensures DecimalValue(s) == n
    ensures |s| > 1 ==> s[0] != '0'
  {
    if n < 10 then [DigitChar(n)]
    else
      var init := NatToDecimal(n / 10);
      var s := init + [DigitChar(n % 10)];
      assert s[..|s| - 1] == init;
      s
  }

  /** Leading zeros do not change the value of a digit run. */
  lemma {:induction false} LeadingZero(s: string)
    requires AllDigits(s)
    ensures AllDigits("0" + s) && DecimalValue("0" + s) == DecimalValue(s)
  {
    if s != [] {
      var t := "0" + s;
      assert t[..|t| - 1] == "0" + s[..|s| - 1];
      LeadingZero(s[..|s| - 1]);
    }
  }

  /** Distinct naturals have distinct decimal texts. */
  lemma NatToDecimalInjective(m: nat, n: nat)
    ensures NatToDecimal(m) == NatToDecimal(n) <==> m == n
  {
  }

  /** A non-empty digit run without a superfluous leading zero. */
  predicate IsCanonical(s: string) {
    |s| >= 1 && AllDigits(s) && (|s| > 1 ==> s[0] != '0')
  }

  /** Every canonical digit run is the decimal text of its value. */
  lemma {:induction false} NatToDecimalCanonical(s: string)
    requires IsCanonical(s)
    ensures NatToDecimal(DecimalValue(s)) == s
  {
    var last := s[|s| - 1];
    assert DigitChar(DigitValue(last)) == last;
    if |s| > 1 {
      var init := s[..|s| - 1];
      assert init[0] == s[0];
      NatToDecimalCanonical(init);
      PositiveRun(init);
      NatToDecimalSnoc(DecimalValue(init), DigitValue(last));
      assert s == init + [last];
    } else {
      assert s == [last];
    }
  }

  /** Appending a digit to the decimal text of a positive number prints ten times it plus that digit. */
  lemma NatToDecimalSnoc(m: nat, d: nat)
    requires 1 <= m && d < 10
    ensures NatToDecimal(10 * m + d) == NatToDecimal(m) + [DigitChar(d)]
  {
    assert (10 * m + d) / 10 == m && (10 * m + d) % 10 == d;
  }

  /** A digit run that starts with a non-zero digit has a positive value. */
  lemma {:induction false} PositiveRun(s: string)
    requires |s| >= 1 && AllDigits(s) && s[0] != '0'
    ensures DecimalValue(s) >= 1
  {
    if |s| > 1 {
      PositiveRun(s[..|s| - 1]);
    }
  }

  /** Concatenation with a separator between consecutive parts: the inverse of Split. */
  function Join(parts: seq<string>, sep: char): string
  {
    if |parts| == 0 then ""
    else if |parts| == 1 then parts[0]
    else parts[0] + [sep] + Join(parts[1..], sep)
  }

  /**
    `s.split(sep)`: the maximal pieces of `s` free of `sep`, in order; an empty string
    gives one empty piece and a trailing separator a trailing empty piece.
  */
  function Split(s: string, sep: char): (parts: seq<string>)
    ensures |parts| >= 1
    ensures forall i | 0 <= i < |parts| :: sep !in parts[i]
    ensures Join(parts, sep) == s
    decreases |s|
  {
    if s == [] then [""]
    else
      var rest := Split(s[1..], sep);
      if s[0] == sep then
        assert Join([""] + rest, sep) == [sep] + Join(rest, sep) by {
          assert ([""] + rest)[1..] == rest;
        }
        [""] + rest
      else
        var parts := [[s[0]] + rest[0]] + rest[1..];
        assert parts[1..] == rest[1..];
        assert Join(parts, sep) == [s[0]] + Join(rest, sep);
        parts
  }

  lemma JoinHead(c: char, parts: seq<string>, sep: char)
    requires |parts| >= 1
    ensures Join([[c] + parts[0]] + parts[1..], sep) == [c] + Join(parts, sep)
  {
    var q := [[c] + parts[0]] + parts[1..];
    assert q[1..] == parts[1..];
  }

  /** Split is the only way to cut a string into separator-free pieces. */
  lemma {:induction false} SplitUnique(parts: seq<string>, sep: char)
    requires |parts| >= 1
    requires forall i | 0 <= i < |parts| :: sep !in parts[i]
    ensures Split(Join(parts, sep), sep) == parts
    decreases |Join(parts, sep)|
  {
    var s := Join(parts, sep);
    var p := parts[0];
    if p == "" {
      if |parts| > 1 {
        var tail := parts[1..];
        assert s == [sep] + Join(tail, sep);
        assert s[1..] == Join(tail, sep);
        assert forall i | 0 <= i < |tail| :: sep !in tail[i] by {
          forall i | 0 <= i < |tail| ensures sep !in tail[i] {
            assert tail[i] == parts[i + 1];
          }
        }
        SplitUnique(tail, sep);
        assert parts == [""] + tail;
      }
    } else {
      var rest := [p[1..]] + parts[1..];
      assert rest[0] == p[1..] && rest[1..] == parts[1..];
      assert forall i | 0 <= i < |rest| :: sep !in rest[i] by {
        forall i | 0 <= i < |rest| ensures sep !in rest[i] {
          if i == 0 {
            assert forall c | c in p[1..] :: c in p;
          } else {
            assert rest[i] == parts[i];
          }
        }
      }
      JoinHead(p[0], rest, sep);
      assert [p[0]] + rest[0] == p;
      assert [[p[0]] + rest[0]] + rest[1..] == parts;
      assert s == [p[0]] + Join(rest, sep);
      assert s[0] == p[0] && s[1..] == Join(rest, sep);
      assert p[0] != sep by { assert p[0] in parts[0]; }
      SplitUnique(rest, sep);
    }
  }

  /** `sub` occurs in `s` starting at position `i`. */
  predicate OccursAt(s: string, sub: string, i: int) {
    0 <= i && i + |sub| <= |s| && s[i..i + |sub|] == sub
  }

  function IndexFrom(s: string, sub: string, from: nat): (r: int)
    requires from <= |s| + 1
    ensures r == -1 || (from <= r && OccursAt(s, sub, r))
    ensures forall i | from <= i && (r == -1 || i < r) :: !OccursAt(s, sub, i)
    decreases |s| + 1 - from
  {
    if from + |sub| > |s| then -1
    else if s[from..from + |sub|] == sub then from
    else IndexFrom(s, sub, from + 1)
  }

  /** `s.indexOf(sub)`: the first position at which `sub` occurs in `s`, or -1 when it does not occur. */
  function IndexOf(s: string, sub: string): (r: int)
    ensures r == -1 || OccursAt(s, sub, r)
    ensures forall i | 0 <= i && (r == -1 || i < r) :: !OccursAt(s, sub, i)
  {
    IndexFrom(s, sub, 0)
  }

  /** An occurrence inside an occurrence is an occurrence in the outer string, at the summed offset. */
  lemma OccursInside(s: string, t: string, u: string, i: int, j: int)
    requires OccursAt(s, t, i) && OccursAt(t, u, j)
    ensures OccursAt(s, u, i + j)
  {
    forall k | 0 <= k < |u| ensures s[i + j..i + j + |u|][k] == u[k] {
      assert u[k] == t[j..j + |u|][k] == t[j + k];
      assert t[j + k] == s[i..i + |t|][j + k] == s[i + j + k];
    }
  }

  /** A digit run holds no character that is not a digit. */
  lemma DigitsExclude(s: string, c: char)
    requires AllDigits(s) && !IsDigit(c)
    ensures c !in s
  {
  }

  /** In `a sep b` with no separator in `a`, the first separator is at |a|. */
  lemma SeparatorAt(a: string, b: string, sep: char)
    requires sep !in a
    ensures (a + [sep] + b)[|a|] == sep
    ensures forall i | 0 <= i < |a| :: (a + [sep] + b)[i] != sep
  {
    forall i | 0 <= i < |a| ensures (a + [sep] + b)[i] != sep {
      assert (a + [sep] + b)[i] == a[i];
    }
  }

  /** Two texts built as `a sep b` with no separator in `a` come apart at the same place. */
  lemma CutAtFirst(a: string, b: string, a': string, b': string, sep: char)
    requires sep !in a && sep !in a'
    requires a + [sep] + b == a' + [sep] + b'
    ensures a == a' && b == b'
  {
    var s := a + [sep] + b;
    SeparatorAt(a, b, sep);
    SeparatorAt(a', b', sep);
    assert |a| == |a'|;
    assert a == s[..|a|] == a';
    assert b == s[|a| + 1..] == b';
  }
}
