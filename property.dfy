/** JavaScript property access on JSON values, `v[key]`: object members,
    array elements and string characters by their canonical index keys, and
    the `length` of arrays and strings. Inherited methods such as `toString`
    are not modelled. */
module JsProperty {
  import opened Wrappers
  import opened JsonModel
  import opened Text

  const LengthKey := "length"

  /** `v[key]`; None stands for undefined. */
  function Property(v: Json, key: string): (r: Option<Json>)
    ensures v.JObj? ==> r == (if key in v.fields then Some(v.fields[key]) else None)
    ensures r.Some? ==> v.JObj? || v.JArr? || v.JStr?
  {
    match v
    case JObj(fields) => if key in fields then Some(fields[key]) else None
    case JArr(items) =>
      if IsIndexKey(key) && DecimalValue(key) < |items| then Some(items[DecimalValue(key)])
      else if key == LengthKey then Some(JNum(|items|))
      else None
    case JStr(s) =>
      if IsIndexKey(key) && DecimalValue(key) < |s| then Some(JStr([s[DecimalValue(key)]]))
      else if key == LengthKey then Some(JNum(|s|))
      else None
    case _ => None
  }

  function DigitChar(d: nat): (c: char)
    requires d <= 9
    ensures IsDigit(c) && DigitValue(c) == d
  {
    ('0' as int + d) as char
  }

  /** The decimal numeral of a natural number, as Number.prototype.toString writes it. */
  function NaturalKey(n: nat): (s: string)
    ensures IsIndexKey(s) && DecimalValue(s) == n
  {
    if n < 10 then [DigitChar(n)]
    else
      var front := NaturalKey(n / 10);
      var s := front + [DigitChar(n % 10)];
      assert s[..|s| - 1] == front;
      assert forall k :: 0 <= k < |s| ==> IsDigit(s[k]) by {
        forall k | 0 <= k < |s| ensures IsDigit(s[k]) {
          if k < |front| { assert s[k] == front[k]; }
        }
      }
      assert s[0] == front[0];
      assert front[0] != '0' by {
        if |front| == 1 { assert front[..0] == ""; }
      }
      s
  }

  /** The property key a number converts to: `x[n]` reads `x[String(n)]`. */
  function NumberKey(n: int): (s: string)
    ensures n >= 0 ==> s == NaturalKey(n)
    ensures n < 0 ==> |s| > 0 && s[0] == '-'
  {
    if n < 0 then "-" + NaturalKey(-n) else NaturalKey(n)
  }

  /** Indexing an array by a number in range reads that element. */
  lemma ElementAt(items: seq<Json>, n: nat)
    requires n < |items|
    ensures Property(JArr(items), NumberKey(n)) == Some(items[n])
  {
  }

  /** Indexing an array or a string by a negative number reads nothing. */
  lemma NegativeIndexIsUndefined(v: Json, n: int)
    requires n < 0 && !v.JObj?
    ensures Property(v, NumberKey(n)) == None
  {
    assert NumberKey(n)[0] == '-';
    assert NumberKey(n) != LengthKey;
  }

  /** The index keys of a collection are exactly the numerals of its positions. */
  lemma IndexKeyRoundTrip(key: string)
    requires IsIndexKey(key)
    ensures NaturalKey(DecimalValue(key)) == key
  {
    NumeralsAgree(key, NaturalKey(DecimalValue(key)));
  }

  /** Two index keys with the same value are the same string. */
  lemma {:induction false} NumeralsAgree(a: string, b: string)
    requires IsIndexKey(a) && IsIndexKey(b) && DecimalValue(a) == DecimalValue(b)
    ensures a == b
    decreases |a|
  {
    var n := DecimalValue(a);
    ShortIffSmall(a);
    ShortIffSmall(b);
    assert DigitValue(a[|a| - 1]) == n % 10 && DigitValue(b[|b| - 1]) == n % 10;
    assert a[|a| - 1] == b[|b| - 1];
    if n >= 10 {
      var a', b' := a[..|a| - 1], b[..|b| - 1];
      assert a'[0] == a[0] && b'[0] == b[0];
      NumeralsAgree(a', b');
      assert a == a' + [a[|a| - 1]] && b == b' + [b[|b| - 1]];
    }
  }

  /** An index key is a single digit exactly when its value is below ten. */
  lemma ShortIffSmall(s: string)
    requires IsIndexKey(s)
    ensures |s| == 1 <==> DecimalValue(s) < 10
  {
    if |s| > 1 {
      var s' := s[..|s| - 1];
      assert s'[0] == s[0];
      LeadingNonZero(s');
    } else {
      assert s[..0] == "";
    }
  }

  /** A numeral of digits that starts with a non-zero digit has a positive value. */
  lemma {:induction false} LeadingNonZero(s: string)
    requires |s| > 0 && AllDigits(s) && s[0] != '0'
    ensures DecimalValue(s) > 0
  {
    if |s| > 1 {
      var s' := s[..|s| - 1];
      assert s'[0] == s[0];
      LeadingNonZero(s');
    }
  }
}
