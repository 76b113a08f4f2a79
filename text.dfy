/** The JavaScript string operations the engines rely on, over `seq<char>`:
    startsWith, includes, split on a character class, trim, and the decimal
    numerals used as array keys and by parseInt. */
module Text {
  import opened Wrappers

  predicate StartsWith(s: string, prefix: string) {
    |prefix| <= |s| && s[..|prefix|] == prefix
  }

  lemma StartsWithConcat(s: string, t: string)
    ensures StartsWith(s + t, s)
  {
    assert (s + t)[..|s|] == s;
  }

  /** String.prototype.includes: `needle` occurs in `s` as a contiguous run. */
  predicate Includes(s: string, needle: string)
    decreases |s|
  {
    StartsWith(s, needle) || (|s| > 0 && Includes(s[1..], needle))
  }

  /** `Includes` is exactly the substring test. */
  lemma {:induction false} IncludesIsSubstring(s: string, needle: string)
    ensures Includes(s, needle) <==> exists i :: 0 <= i <= |s| && StartsWith(s[i..], needle)
    decreases |s|
  {
    assert s[0..] == s;
    if |s| > 0 {
      IncludesIsSubstring(s[1..], needle);
      if Includes(s[1..], needle) {
        var i :| 0 <= i <= |s[1..]| && StartsWith(s[1..][i..], needle);
        assert s[1..][i..] == s[i + 1..];
      }
      if i :| 0 <= i <= |s| && StartsWith(s[i..], needle) {
        if i > 0 {
          assert s[1..][i - 1..] == s[i..];
        }
      }
    } else if exists i :: 0 <= i <= |s| && StartsWith(s[i..], needle) {
      var i :| 0 <= i <= |s| && StartsWith(s[i..], needle);
      assert i == 0;
    }
  }

  /** String.prototype.split with a regular expression that is one character
      class: `s` cut at every character of `seps`, separators dropped. */
  function SplitOn(s: string, seps: set<char>): (parts: seq<string>)
    ensures |parts| >= 1
  {
    if |s| == 0 then [""]
    else
      var rest := SplitOn(s[1..], seps);
      if s[0] in seps then [""] + rest
      else [[s[0]] + rest[0]] + rest[1..]
  }

  /** No character of any of `parts` is in `seps`. */
  predicate NoneOf(parts: seq<string>, seps: set<char>) {
    forall i, k :: 0 <= i < |parts| && 0 <= k < |parts[i]| ==> parts[i][k] !in seps
  }

  /** No part holds a separator. */
  lemma {:induction false} SplitOnPartsClean(s: string, seps: set<char>)
    ensures NoneOf(SplitOn(s, seps), seps)
  {
    if |s| > 0 {
      SplitOnPartsClean(s[1..], seps);
      var rest := SplitOn(s[1..], seps);
      var parts := SplitOn(s, seps);
      if s[0] in seps {
        assert parts == [""] + rest;
        forall i, k | 1 <= i < |parts| && 0 <= k < |parts[i]|
          ensures parts[i][k] !in seps
        {
          assert parts[i] == rest[i - 1];
          assert rest[i - 1][k] !in seps;
        }
      } else {
        assert parts == [[s[0]] + rest[0]] + rest[1..];
        forall k | 0 <= k < |parts[0]|
          ensures parts[0][k] !in seps
        {
          if k > 0 {
            assert parts[0][k] == rest[0][k - 1];
            assert rest[0][k - 1] !in seps;
          }
        }
        forall i, k | 1 <= i < |parts| && 0 <= k < |parts[i]|
          ensures parts[i][k] !in seps
        {
          assert parts[i] == rest[i];
          assert rest[i][k] !in seps;
        }
      }
    }
  }

  /** A character absent from `s` is absent from every part. */
  lemma {:induction false} SplitOnKeepsOut(s: string, seps: set<char>, c: char)
    requires c !in s
    ensures NoneOf(SplitOn(s, seps), {c})
  {
    if |s| > 0 {
      assert c !in s[1..] by {
        forall k | 0 <= k < |s[1..]| ensures s[1..][k] != c { assert s[1..][k] == s[k + 1]; }
      }
      SplitOnKeepsOut(s[1..], seps, c);
      var rest := SplitOn(s[1..], seps);
      var parts := SplitOn(s, seps);
      if s[0] in seps {
        assert parts == [""] + rest;
        forall i, k | 1 <= i < |parts| && 0 <= k < |parts[i]|
          ensures parts[i][k] !in {c}
        {
          assert parts[i] == rest[i - 1];
          assert rest[i - 1][k] !in {c};
        }
      } else {
        assert parts == [[s[0]] + rest[0]] + rest[1..];
        forall k | 0 <= k < |parts[0]|
          ensures parts[0][k] !in {c}
        {
          if k > 0 {
            assert parts[0][k] == rest[0][k - 1];
            assert rest[0][k - 1] !in {c};
          }
        }
        forall i, k | 1 <= i < |parts| && 0 <= k < |parts[i]|
          ensures parts[i][k] !in {c}
        {
          assert parts[i] == rest[i];
          assert rest[i][k] !in {c};
        }
      }
    }
  }

  /** The parts, joined with their separators, give back `s`: a single part is `s` itself. */
  lemma {:induction false} SplitOnSingle(s: string, seps: set<char>)
    requires |SplitOn(s, seps)| == 1
    ensures SplitOn(s, seps) == [s]
  {
    if |s| > 0 {
      SplitOnSingle(s[1..], seps);
      assert [s[0]] + s[1..] == s;
    }
  }

  /** A string free of separators is not cut at all. */
  lemma {:induction false} SplitOnNoSeparator(s: string, seps: set<char>)
    requires forall k :: 0 <= k < |s| ==> s[k] !in seps
    ensures SplitOn(s, seps) == [s]
  {
    if |s| > 0 {
      SplitOnNoSeparator(s[1..], seps);
      assert [s[0]] + s[1..] == s;
    }
  }

  /** A string with a separator is cut into at least two parts. */
  lemma {:induction false} SplitOnSeparator(s: string, seps: set<char>, k: nat)
    requires k < |s| && s[k] in seps
    ensures |SplitOn(s, seps)| >= 2
  {
    if s[0] !in seps {
      SplitOnSeparator(s[1..], seps, k - 1);
    }
  }

  /** Cutting `a + [c] + b` at a separator `c`, where `a` has none, yields `a` and the parts of `b`. */
  lemma {:induction false} SplitOnConcat(a: string, c: char, b: string, seps: set<char>)
    requires c in seps
    requires forall k :: 0 <= k < |a| ==> a[k] !in seps
    ensures SplitOn(a + [c] + b, seps) == [a] + SplitOn(b, seps)
  {
    var s := a + [c] + b;
    if |a| == 0 {
      assert s[1..] == b;
    } else {
      assert s[1..] == a[1..] + [c] + b;
      SplitOnConcat(a[1..], c, b, seps);
      assert [a[0]] + a[1..] == a;
    }
  }

  /** JavaScript's WhiteSpace and LineTerminator characters: what String.prototype.trim removes. */
  predicate IsJsSpace(c: char) {
    || c == '\t' || c == '\n' || c == '\U{B}' || c == '\U{C}' || c == '\r' || c == ' '
    || c == '\U{A0}' || c == '\U{1680}' || ('\U{2000}' <= c <= '\U{200A}')
    || c == '\U{2028}' || c == '\U{2029}' || c == '\U{202F}' || c == '\U{205F}'
    || c == '\U{3000}' || c == '\U{FEFF}'
  }

  function TrimStart(s: string): string {
    if |s| > 0 && IsJsSpace(s[0]) then TrimStart(s[1..]) else s
  }

  function TrimEnd(s: string): string {
    if |s| > 0 && IsJsSpace(s[|s| - 1]) then TrimEnd(s[..|s| - 1]) else s
  }

  /** String.prototype.trim: `s` without its leading and trailing white space. */
  function Trim(s: string): string {
    TrimEnd(TrimStart(s))
  }

  /** TrimStart keeps a suffix that does not start with white space, and
      what it drops is white space only. */
  lemma {:induction false} TrimStartSuffix(s: string)
    ensures |TrimStart(s)| <= |s| && TrimStart(s) == s[|s| - |TrimStart(s)|..]
    ensures TrimStart(s) == [] || !IsJsSpace(TrimStart(s)[0])
    ensures forall k :: 0 <= k < |s| - |TrimStart(s)| ==> IsJsSpace(s[k])
  {
    if |s| > 0 && IsJsSpace(s[0]) {
      TrimStartSuffix(s[1..]);
      assert s[1..][|s| - 1 - |TrimStart(s)|..] == s[|s| - |TrimStart(s)|..];
      forall k | 1 <= k < |s| - |TrimStart(s)| ensures IsJsSpace(s[k]) {
        assert s[k] == s[1..][k - 1];
      }
    }
  }

  /** TrimEnd keeps a prefix that does not end with white space, and what
      it drops is white space only. */
  lemma {:induction false} TrimEndPrefix(s: string)
    ensures |TrimEnd(s)| <= |s| && TrimEnd(s) == s[..|TrimEnd(s)|]
    ensures TrimEnd(s) == [] || !IsJsSpace(TrimEnd(s)[|TrimEnd(s)| - 1])
    ensures forall k :: |TrimEnd(s)| <= k < |s| ==> IsJsSpace(s[k])
  {
    if |s| > 0 && IsJsSpace(s[|s| - 1]) {
      TrimEndPrefix(s[..|s| - 1]);
      assert s[..|s| - 1][..|TrimEnd(s)|] == s[..|TrimEnd(s)|];
      forall k | |TrimEnd(s)| <= k < |s| - 1 ensures IsJsSpace(s[k]) {
        assert s[k] == s[..|s| - 1][k];
      }
    }
  }

  /** The trim of `s` is a run of `s` with no white space at either end,
      and only white space lies outside it. */
  lemma TrimInside(s: string)
    ensures var i := |s| - |TrimStart(s)|;
      && 0 <= i <= i + |Trim(s)| <= |s| && Trim(s) == s[i..i + |Trim(s)|]
      && (forall k :: 0 <= k < i ==> IsJsSpace(s[k]))
      && (forall k :: i + |Trim(s)| <= k < |s| ==> IsJsSpace(s[k]))
    ensures Trim(s) == [] || (!IsJsSpace(Trim(s)[0]) && !IsJsSpace(Trim(s)[|Trim(s)| - 1]))
  {
    var t := TrimStart(s);
    var r := TrimEnd(t);
    TrimStartSuffix(s);
    TrimEndPrefix(t);
    var i := |s| - |t|;
    assert r == s[i..i + |r|];
    forall k | i + |r| <= k < |s| ensures IsJsSpace(s[k]) {
      assert s[k] == t[k - i];
    }
    if r != [] {
      assert r[0] == t[0];
    }
  }

  /** Trimming adds no character: one absent from `s` is absent from its trim. */
  lemma TrimOmits(s: string, c: char)
    requires c !in s
    ensures c !in Trim(s)
  {
    var t := TrimStart(s);
    var r := TrimEnd(t);
    TrimStartSuffix(s);
    TrimEndPrefix(t);
    forall k | 0 <= k < |r| ensures r[k] != c {
      assert r[k] == t[k] == s[|s| - |t| + k];
    }
  }

  /** A string without white space at its ends is its own trim, however it is
      padded with a space. */
  lemma TrimPadded(s: string)
    requires s != "" && !IsJsSpace(s[0]) && !IsJsSpace(s[|s| - 1])
    ensures Trim(s) == s && Trim(" " + s) == s && Trim(s + " ") == s && Trim(" " + s + " ") == s
  {
    assert (" " + s)[1..] == s;
    assert (" " + s + " ")[1..] == s + " ";
    assert (s + " ")[..|s|] == s;
    assert TrimStart(s + " ") == s + " ";
  }

  predicate IsDigit(c: char) {
    '0' <= c <= '9'
  }

  predicate AllDigits(s: string) {
    forall k :: 0 <= k < |s| ==> IsDigit(s[k])
  }

  function DigitValue(c: char): (d: nat)
    requires IsDigit(c)
    ensures d <= 9
  {
    (c as int) - ('0' as int)
  }

  /** The value of a decimal numeral. */
  function DecimalValue(s: string): nat
    requires AllDigits(s)
  {
    if |s| == 0 then 0 else DecimalValue(s[..|s| - 1]) * 10 + DigitValue(s[|s| - 1])
  }

  /** A property key that names an array element: a decimal numeral without leading zeros. */
  predicate IsIndexKey(s: string) {
    |s| > 0 && AllDigits(s) && (s[0] == '0' ==> |s| == 1)
  }

  /** The longest run of decimal digits that starts `s`. */
  function LeadingDigits(s: string): (r: string)
    ensures AllDigits(r) && StartsWith(s, r)
    ensures |r| < |s| ==> !IsDigit(s[|r|])
  {
    if |s| > 0 && IsDigit(s[0]) then [s[0]] + LeadingDigits(s[1..]) else ""
  }

  /** parseInt(s) in base 10: leading white space, an optional sign, then the
      longest run of digits; None stands for NaN, when there are no digits. */
  function ParseInt(s: string): Option<int> {
    var t := TrimStart(s);
    var negative := |t| > 0 && t[0] == '-';
    var u := if |t| > 0 && (t[0] == '-' || t[0] == '+') then t[1..] else t;
    var d := LeadingDigits(u);
    if d == "" then None
    else
      var magnitude: int := DecimalValue(d);
      Some(if negative then -magnitude else magnitude)
  }

  /** A plain numeral parses to its value. */
  lemma ParseIntOfNumeral(s: string)
    requires AllDigits(s) && s != ""
    ensures ParseInt(s) == Some(DecimalValue(s))
  {
    assert TrimStart(s) == s;
    LeadingDigitsOfNumeral(s);
  }

  /** The digit run of a numeral followed by a non-digit is the numeral. */
  lemma {:induction false} LeadingDigitsStop(d: string, rest: string)
    requires AllDigits(d)
    requires rest == [] || !IsDigit(rest[0])
    ensures LeadingDigits(d + rest) == d
  {
    if |d| > 0 {
      assert (d + rest)[1..] == d[1..] + rest;
      LeadingDigitsStop(d[1..], rest);
      assert [d[0]] + d[1..] == d;
    } else {
      assert d + rest == rest;
    }
  }

  /** parseInt reads a numeral followed by other text as the numeral's value. */
  lemma ParseIntOfPrefix(d: string, rest: string)
    requires AllDigits(d) && d != ""
    requires rest == [] || !IsDigit(rest[0])
    ensures ParseInt(d + rest) == Some(DecimalValue(d))
  {
    var s := d + rest;
    assert s[0] == d[0];
    assert TrimStart(s) == s;
    LeadingDigitsStop(d, rest);
  }

  lemma {:induction false} LeadingDigitsOfNumeral(s: string)
    requires AllDigits(s)
    ensures LeadingDigits(s) == s
  {
    if |s| > 0 {
      LeadingDigitsOfNumeral(s[1..]);
      assert [s[0]] + s[1..] == s;
    }
  }
}
