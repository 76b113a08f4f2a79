/** The path walks of the legacy (compiled JavaScript) engine. Its resolver
    has no literal passthrough and no ternary: a path must start with `$.`,
    the rest is cut at `.`, and each segment reads one property, a
    `key[N]` segment reading `key` and then index N. A null or undefined
    value before a segment makes the whole path undefined. The output
    transform walks a tool result the same way, but without that guard:
    reading a property of null or undefined is a TypeError. */
module LegacyResolver {
  import opened Wrappers
  import opened JsonModel
  import opened Text
  import opened Types
  import opened JsProperty
  import PathResolver

  const ReferencePrefix := "$."

  /** The property key of a number: `NaN` for parseInt's failure. */
  function IndexKey(index: Option<int>): string {
    match index
    case None => "NaN"
    case Some(n) => NumberKey(n)
  }

  lemma SplitAtBracket(part: string)
    requires '[' in part
    ensures |SplitOn(part, {'['})| >= 2
  {
    var k :| 0 <= k < |part| && part[k] == '[';
    SplitOnSeparator(part, {'['}, k);
  }

  /** One segment read from `current`: `current[part]`, or for a segment with
      a `[`, `current[key]?.[parseInt(index)]` where `key` and `index` are the
      first two pieces of the segment cut at `[`. None stands for undefined. */
  function Segment(current: Json, part: string): (r: Option<Json>)
    ensures '[' !in part ==> r == Property(current, part)
  {
    if '[' in part then
      SplitAtBracket(part);
      var pieces := SplitOn(part, {'['});
      var base := Property(current, pieces[0]);
      if base.None? || base.value == JNull then None
      else Property(base.value, IndexKey(ParseInt(pieces[1])))
    else Property(current, part)
  }

  /** The resolver's walk: undefined as soon as the value before a segment
      is null or undefined. */
  function Walk(current: Option<Json>, parts: seq<string>): Option<Json>
    decreases |parts|
  {
    if |parts| == 0 then current
    else if current.None? || current.value == JNull then None
    else Walk(Segment(current.value, parts[0]), parts[1..])
  }

  /** resolveContextPath: undefined for an empty path and for one that does
      not start with `$.`, otherwise the walk of its `.` segments from the context. */
  function Resolve(path: string, ctx: Object): (r: Option<Json>)
    ensures path == "" || !StartsWith(path, ReferencePrefix) ==> r == None
  {
    if path == "" || !StartsWith(path, ReferencePrefix) then None
    else Walk(Some(JObj(ctx)), SplitOn(path[|ReferencePrefix|..], {'.'}))
  }

  /** resolveContextPath's loop over the segments. */
  method ResolveContextPath(path: string, ctx: Object) returns (r: Option<Json>)
    ensures r == Resolve(path, ctx)
  {
    if path == "" || !StartsWith(path, ReferencePrefix) {
      return None;
    }
    var parts := SplitOn(path[2..], {'.'});
    var current := Some(JObj(ctx));
    for i := 0 to |parts|
      invariant Walk(current, parts[i..]) == Resolve(path, ctx)
    {
      if current.None? || current.value == JNull {
        return None;
      }
      assert parts[i..][1..] == parts[i + 1..];
      current := Segment(current.value, parts[i]);
    }
    assert parts[|parts|..] == [];
    return current;
  }

  /** The output transform's walk: reading a segment of null or undefined
      is a TypeError. */
  function TransformWalk(current: Option<Json>, parts: seq<string>): (r: Result<Option<Json>, Error>)
    ensures r.Failure? ==> r.error == TypeError
    decreases |parts|
  {
    if |parts| == 0 then Success(current)
    else if current.None? || current.value == JNull then Failure(TypeError)
    else TransformWalk(Segment(current.value, parts[0]), parts[1..])
  }

  /** processOutput without a filter: the tool result, walked along the
      transform's `.` segments when there is a transform. */
  function ProcessOutput(result: Json, transform: string): (r: Result<Option<Json>, Error>)
    ensures transform == "" ==> r == Success(Some(result))
  {
    if transform == "" then Success(Some(result))
    else TransformWalk(Some(result), SplitOn(transform, {'.'}))
  }

  // ---------------------------------------------------------------------
  // Properties

  /** The transform walk is the resolver's walk made strict: where it
      succeeds it finds the same value, and it fails, with a TypeError,
      exactly where the resolver's walk gives up early. */
  lemma {:induction false} TransformIsStrictWalk(current: Option<Json>, parts: seq<string>)
    ensures TransformWalk(current, parts).Success? ==> TransformWalk(current, parts).value == Walk(current, parts)
    ensures TransformWalk(current, parts).Failure? ==>
      TransformWalk(current, parts).error == TypeError && Walk(current, parts) == None
    decreases |parts|
  {
    if |parts| > 0 && !(current.None? || current.value == JNull) {
      TransformIsStrictWalk(Segment(current.value, parts[0]), parts[1..]);
    }
  }

  /** The transform fails on a result whose walk meets null or undefined
      before its last segment, where the resolver would yield undefined. */
  lemma TransformFailsWhereWalkStops(result: Json, a: string, b: string)
    requires '.' !in a && '[' !in a && '.' !in b
    requires Property(result, a).None? || Property(result, a) == Some(JNull)
    ensures ProcessOutput(result, a + "." + b) == Failure(TypeError)
  {
    SplitOnConcat(a, '.', b, {'.'});
    assert a + "." + b == a + ['.'] + b;
    SplitOnNoSeparator(b, {'.'});
    assert SplitOn(a + "." + b, {'.'}) == [a, b];
    assert [a, b][1..] == [b];
    assert TransformWalk(Segment(result, a), [b]) == Failure(TypeError);
    assert TransformWalk(Some(result), [a, b]) == Failure(TypeError);
  }

  /** On a path without `[`, the legacy resolver walks the same keys as the
      lookup of the TypeScript engine when the remainder is not itself a key
      of the context; it differs in giving undefined where that engine gives null. */
  lemma AgreesWithLookup(path: string, ctx: Object)
    requires StartsWith(path, ReferencePrefix) && '[' !in path
    requires path[2..] !in ctx
    ensures Resolve(path, ctx) == PathResolver.Lookup(ctx, path[2..])
  {
    var rest := path[2..];
    assert '[' !in rest by {
      forall k | 0 <= k < |rest| ensures rest[k] != '[' { assert rest[k] == path[k + 2]; }
    }
    var parts := SplitOn(rest, {'.'});
    SplitOnKeepsOut(rest, {'.'}, '[');
    forall i | 0 <= i < |parts| ensures '[' !in parts[i] {
      assert forall k :: 0 <= k < |parts[i]| ==> parts[i][k] !in {'['};
    }
    PlainKeyPath(parts);
    WalkAgrees(JObj(ctx), parts);
  }

  /** Segments without `[` are their own keys. */
  lemma {:induction false} PlainKeyPath(parts: seq<string>)
    requires forall i :: 0 <= i < |parts| ==> '[' !in parts[i]
    ensures PathResolver.Flatten(PathResolver.SegmentsKeys(parts)) == parts
    decreases |parts|
  {
    if |parts| > 0 {
      PlainKeyPath(parts[1..]);
      assert PathResolver.SegmentKeys(parts[0]) == [parts[0]];
      assert PathResolver.SegmentsKeys(parts)[1..] == PathResolver.SegmentsKeys(parts[1..]);
      assert [parts[0]] + parts[1..] == parts;
    }
  }

  lemma {:induction false} WalkAgrees(v: Json, parts: seq<string>)
    requires forall i :: 0 <= i < |parts| ==> '[' !in parts[i]
    ensures Walk(Some(v), parts) == PathResolver.Walk(v, parts)
    decreases |parts|
  {
    if |parts| > 0 && v != JNull {
      var next := Property(v, parts[0]);
      if next.Some? {
        WalkAgrees(next.value, parts[1..]);
      } else if |parts[1..]| > 0 {
        assert Walk(None, parts[1..]) == None;
      }
    }
  }

  /** `$.key[N]` reads element N of the context's array `key`. */
  lemma IndexedMember(key: string, n: nat, items: seq<Json>, ctx: Object)
    requires '.' !in key && '[' !in key && key in ctx && ctx[key] == JArr(items) && n < |items|
    ensures Resolve("$." + key + "[" + NaturalKey(n) + "]", ctx) == Some(items[n])
  {
    var numeral := NaturalKey(n);
    var path := "$." + key + "[" + numeral + "]";
    var segment := key + "[" + numeral + "]";
    assert path[2..] == segment;
    assert StartsWith(path, ReferencePrefix) by { assert path[..2] == "$."; }
    IndexedSegmentSplits(key, numeral);
    assert SplitOn(path[2..], {'.'}) == [segment];
    IndexedSegmentReads(key, numeral, JObj(ctx));
    ElementAt(items, n);
    assert Segment(JObj(ctx), segment) == Some(items[n]);
    assert [segment][1..] == [];
    assert Walk(Some(JObj(ctx)), [segment]) == Some(items[n]);
    assert Resolve(path, ctx) == Walk(Some(JObj(ctx)), [segment]);
  }

  /** An indexed segment `key[N]` holds no `.`. */
  lemma IndexedSegmentSplits(key: string, numeral: string)
    requires '.' !in key && AllDigits(numeral)
    ensures SplitOn(key + "[" + numeral + "]", {'.'}) == [key + "[" + numeral + "]"]
  {
    var segment := key + "[" + numeral + "]";
    forall k | 0 <= k < |segment| ensures segment[k] !in {'.'} {
      if k < |key| { assert segment[k] == key[k]; }
      else if |key| < k < |key| + 1 + |numeral| { assert segment[k] == numeral[k - |key| - 1]; assert IsDigit(numeral[k - |key| - 1]); }
    }
    SplitOnNoSeparator(segment, {'.'});
  }

  /** `key[N]` reads `key` and then the property N of it. */
  lemma IndexedSegmentReads(key: string, numeral: string, current: Json)
    requires '[' !in key && AllDigits(numeral) && numeral != ""
    ensures var base := Property(current, key);
      Segment(current, key + "[" + numeral + "]") ==
        if base.None? || base.value == JNull then None
        else Property(base.value, NumberKey(DecimalValue(numeral)))
  {
    var segment := key + "[" + numeral + "]";
    var tail := numeral + "]";
    assert segment == key + ['['] + tail;
    SplitOnConcat(key, '[', tail, {'['});
    forall k | 0 <= k < |tail| ensures tail[k] !in {'['} {
      if k < |numeral| { assert tail[k] == numeral[k]; assert IsDigit(numeral[k]); }
    }
    SplitOnNoSeparator(tail, {'['});
    assert SplitOn(segment, {'['}) == [key, tail];
    assert '[' in segment by { assert segment[|key|] == '['; }
    ParseIntOfPrefix(numeral, "]");
  }

  /** A null member stops the walk: `$.a.b` is undefined when `a` is null. */
  lemma NullMemberIsUndefined(a: string, b: string, ctx: Object)
    requires '.' !in a && '[' !in a && '.' !in b && a in ctx && ctx[a] == JNull
    ensures Resolve("$." + a + "." + b, ctx) == None
  {
    var path := "$." + a + "." + b;
    assert path[2..] == a + ['.'] + b;
    assert StartsWith(path, ReferencePrefix) by { assert path[..2] == "$."; }
    SplitOnConcat(a, '.', b, {'.'});
    SplitOnNoSeparator(b, {'.'});
    assert SplitOn(path[2..], {'.'}) == [a, b];
    assert [a, b][1..] == [b];
    assert Segment(JObj(ctx), a) == Some(JNull);
    assert Walk(Some(JNull), [b]) == None;
    assert Walk(Some(JObj(ctx)), [a, b]) == None;
  }
}
