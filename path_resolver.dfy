/** The context path resolver of the TypeScript engine and step manager.

    A path that does not start with `$.` is a literal; a path with a `?` is a
    one-level ternary `cond ? truePath : falsePath`; any other path is looked
    up in the context. A lookup that misses, a non-boolean condition and any
    failure inside a reference resolve to null; only an empty path is an error.

    The lookup models `lodash.get`: the whole remainder is first tried as one
    key, then it is cut at `.` and every `key[N]` segment becomes the keys
    `key` and `N`; the walk reads properties (object members, array elements,
    string characters, lengths) and stops at null or a missing property. */
module PathResolver {
  import opened Wrappers
  import opened JsonModel
  import opened Text
  import opened Types
  import opened JsProperty

  /** The two copies of the resolver: the engine's and the step manager's.
      Only the step manager rejects `$.` with nothing after it. */
  datatype Variant = EngineVariant | ManagerVariant

  const ReferencePrefix := "$."
  const TernaryMarks := {'?', ':'}

  /** The keys of one `.`-separated segment: `key[N]` is `key` then `N`. */
  function SegmentKeys(segment: string): (keys: seq<string>)
    ensures '[' !in segment ==> keys == [segment]
  {
    var pieces := SplitOn(segment, {'['});
    assert '[' !in segment ==> pieces == [segment] by {
      if '[' !in segment { SplitOnNoSeparator(segment, {'['}); }
    }
    if |pieces| == 2 && |pieces[1]| >= 2 && pieces[1][|pieces[1]| - 1] == ']'
       && IsIndexKey(pieces[1][..|pieces[1]| - 1]) && ']' !in pieces[0]
    then
      (if pieces[0] == "" then [] else [pieces[0]]) + [pieces[1][..|pieces[1]| - 1]]
    else
      [segment]
  }

  function Flatten(xss: seq<seq<string>>): seq<string> {
    if |xss| == 0 then [] else xss[0] + Flatten(xss[1..])
  }

  function SegmentsKeys(segments: seq<string>): seq<seq<string>> {
    if |segments| == 0 then [] else [SegmentKeys(segments[0])] + SegmentsKeys(segments[1..])
  }

  /** The key path lodash reads from a path string. */
  function KeyPath(p: string): seq<string> {
    Flatten(SegmentsKeys(SplitOn(p, {'.'})))
  }

  /** Following `keys` from `v`; None when a member is missing or an
      intermediate value is null. */
  function Walk(v: Json, keys: seq<string>): (r: Option<Json>)
    decreases |keys|
  {
    if |keys| == 0 then Some(v)
    else if v == JNull then None
    else match Property(v, keys[0])
      case None => None
      case Some(w) => Walk(w, keys[1..])
  }

  /** `lodash.get(context, p)`; None stands for undefined. */
  function Lookup(ctx: Object, p: string): (r: Option<Json>)
    ensures p in ctx ==> r == Some(ctx[p])
  {
    if p in ctx then Some(ctx[p]) else Walk(JObj(ctx), KeyPath(p))
  }

  /** The value a resolution yields once its errors are caught: null. */
  function OrNull(r: Result<Json, Error>): Json {
    if r.Success? then r.value else JNull
  }

  /** The parts of a ternary path: the pieces between `?` and `:`, trimmed. */
  function TernaryParts(path: string): (parts: seq<string>)
    ensures |parts| >= 1
  {
    TrimAll(SplitOn(path, TernaryMarks))
  }

  function TrimAll(pieces: seq<string>): (parts: seq<string>)
    ensures |parts| == |pieces|
  {
    if |pieces| == 0 then [] else [Trim(pieces[0])] + TrimAll(pieces[1..])
  }

  /** Trimming adds no character to any piece. */
  lemma {:induction false} TrimAllOmits(pieces: seq<string>, c: char)
    requires forall i :: 0 <= i < |pieces| ==> c !in pieces[i]
    ensures forall i :: 0 <= i < |pieces| ==> c !in TrimAll(pieces)[i]
  {
    if |pieces| > 0 {
      var rest := TrimAll(pieces[1..]);
      assert TrimAll(pieces) == [Trim(pieces[0])] + rest;
      TrimOmits(pieces[0], c);
      TrimAllOmits(pieces[1..], c);
      forall i | 1 <= i < |pieces| ensures c !in TrimAll(pieces)[i] {
        assert TrimAll(pieces)[i] == rest[i - 1];
        assert c !in pieces[1..][i - 1];
      }
    }
  }

  /** No part of a ternary path holds a `?`. */
  lemma TernaryPartsUnmarked(path: string)
    ensures forall i :: 0 <= i < |TernaryParts(path)| ==> '?' !in TernaryParts(path)[i]
  {
    var pieces := SplitOn(path, TernaryMarks);
    SplitOnPartsClean(path, TernaryMarks);
    forall i | 0 <= i < |pieces| ensures '?' !in pieces[i] {
      assert forall k :: 0 <= k < |pieces[i]| ==> pieces[i][k] !in TernaryMarks;
    }
    TrimAllOmits(pieces, '?');
  }

  /** resolveContextPath on a path without a ternary marker: an empty path
      is an error, a path without the `$.` prefix is itself the value, and a
      reference yields what the lookup finds, null when it misses. */
  function ResolvePlain(variant: Variant, path: string, ctx: Object): (r: Result<Json, Error>)
    ensures r.Failure? <==> path == ""
    ensures r.Failure? ==> r.error == EmptyPath
    ensures path != "" && !StartsWith(path, ReferencePrefix) ==> r == Success(JStr(path))
  {
    if path == "" then Failure(EmptyPath)
    else if !StartsWith(path, ReferencePrefix) then Success(JStr(path))
    else
      var remainder := path[|ReferencePrefix|..];
      if variant == ManagerVariant && remainder == "" then Success(JNull)
      else
        match Lookup(ctx, remainder)
        case None => Success(JNull)
        case Some(v) => Success(v)
  }

  /** The ternary `cond ? truePath : falsePath` over its trimmed parts: the
      condition must resolve to a boolean, which selects the branch; an
      error anywhere, a missing branch or a non-boolean condition is null. */
  function ResolveTernary(variant: Variant, parts: seq<string>, ctx: Object): Json
    requires |parts| >= 1
  {
    var condition := ResolvePlain(variant, parts[0], ctx);
    if condition.Failure? || !condition.value.JBool? then JNull
    else
      var selected := if condition.value.b then 1 else 2;
      if selected < |parts| then OrNull(ResolvePlain(variant, parts[selected], ctx)) else JNull
  }

  /** resolveContextPath. The source resolves the parts of a ternary by
      calling itself; the parts hold no `?`, so those calls take the plain
      branch (see TernaryPartsArePlain) and are written here as ResolvePlain. */
  function Resolve(variant: Variant, path: string, ctx: Object): (r: Result<Json, Error>)
    ensures r.Failure? <==> path == ""
    ensures r.Failure? ==> r.error == EmptyPath
    ensures path != "" && !StartsWith(path, ReferencePrefix) ==> r == Success(JStr(path))
  {
    if path != "" && StartsWith(path, ReferencePrefix) && '?' in path then
      Success(ResolveTernary(variant, TernaryParts(path), ctx))
    else ResolvePlain(variant, path, ctx)
  }

  /** The parts of a ternary are resolved by the full resolver as plain paths:
      the resolver does not nest ternaries. */
  lemma TernaryPartsArePlain(variant: Variant, path: string, ctx: Object, i: nat)
    requires i < |TernaryParts(path)|
    ensures Resolve(variant, TernaryParts(path)[i], ctx) == ResolvePlain(variant, TernaryParts(path)[i], ctx)
  {
    TernaryPartsUnmarked(path);
  }

  // ---------------------------------------------------------------------
  // Properties of the resolver.

  /** A reference without a ternary marker yields what the lookup finds, or
      null when the lookup misses. */
  lemma ReferenceLookup(variant: Variant, path: string, ctx: Object)
    requires StartsWith(path, ReferencePrefix) && '?' !in path
    requires variant == EngineVariant || |path| > 2
    ensures Resolve(variant, path, ctx) == Success(
      match Lookup(ctx, path[2..]) case None => JNull case Some(v) => v)
  {
  }

  /** The missing-path tolerance: a reference with no match is null, never an error. */
  lemma MissingReferenceIsNull(variant: Variant, path: string, ctx: Object)
    requires StartsWith(path, ReferencePrefix) && '?' !in path
    requires Lookup(ctx, path[2..]) == None
    ensures Resolve(variant, path, ctx) == Success(JNull)
  {
  }

  /** `$.a.b` with plain keys `a` and `b` reads property `b` of the context's
      member `a`, and is null when either is missing or `a` is null. */
  lemma NestedReference(variant: Variant, a: string, b: string, ctx: Object)
    requires a != "" && '.' !in a && '[' !in a && '?' !in a
    requires '.' !in b && '[' !in b && '?' !in b
    requires a + "." + b !in ctx
    ensures Resolve(variant, "$." + a + "." + b, ctx) == Success(
      if a in ctx && ctx[a] != JNull && Property(ctx[a], b).Some? then Property(ctx[a], b).value else JNull)
  {
    var path := "$." + a + "." + b;
    assert path[2..] == a + "." + b;
    assert '?' !in path by {
      assert forall k :: 0 <= k < |path| ==> path[k] != '?' by {
        forall k | 0 <= k < |path| ensures path[k] != '?' {
          if k < 2 { } else if k < 2 + |a| { assert path[k] == a[k - 2]; }
          else if k == 2 + |a| { } else { assert path[k] == b[k - 3 - |a|]; }
        }
      }
    }
    SplitNoDot(a, b);
    assert KeyPath(a + "." + b) == [a, b];
    assert [a, b][1..] == [b];
    assert [b][1..] == [];
    assert ResolvePlain(variant, path, ctx) == (match Lookup(ctx, a + "." + b) case None => Success(JNull) case Some(v) => Success(v));
    assert Lookup(ctx, a + "." + b) == Walk(JObj(ctx), [a, b]);
    assert Resolve(variant, path, ctx) == ResolvePlain(variant, path, ctx);
    if a in ctx {
      assert Walk(JObj(ctx), [a, b]) == Walk(ctx[a], [b]);
      if ctx[a] != JNull && Property(ctx[a], b).Some? {
        assert Walk(ctx[a], [b]) == Walk(Property(ctx[a], b).value, []);
      }
    }
  }

  /** `$.a.b` against a context without `a` is null: the example of the missing-path policy. */
  lemma MissingNestedReferenceIsNull(variant: Variant, a: string, b: string, ctx: Object)
    requires a != "" && '.' !in a && '[' !in a && '?' !in a
    requires '.' !in b && '[' !in b && '?' !in b
    requires a !in ctx && a + "." + b !in ctx
    ensures Resolve(variant, "$." + a + "." + b, ctx) == Success(JNull)
  {
    NestedReference(variant, a, b, ctx);
  }

  /** `$.a` with a key `a` of the context reads that member. */
  lemma MemberReference(variant: Variant, a: string, ctx: Object)
    requires a != "" && '?' !in a && a in ctx
    ensures Resolve(variant, "$." + a, ctx) == Success(ctx[a])
  {
    var path := "$." + a;
    assert path[2..] == a;
    assert '?' !in path by {
      assert forall k :: 0 <= k < |path| ==> path[k] != '?' by {
        forall k | 0 <= k < |path| ensures path[k] != '?' {
          if k >= 2 { assert path[k] == a[k - 2]; }
        }
      }
    }
  }

  lemma SplitNoDot(a: string, b: string)
    requires '.' !in a && '.' !in b && '[' !in a && '[' !in b
    ensures KeyPath(a + "." + b) == [a, b]
  {
    SplitOnConcat(a, '.', b, {'.'});
    assert a + "." + b == a + ['.'] + b;
    SplitOnNoSeparator(b, {'.'});
    assert SplitOn(a + "." + b, {'.'}) == [a, b];
    assert [a, b][1..] == [b];
    assert SegmentsKeys([a, b]) == [[a], [b]];
    assert [[a], [b]][1..] == [[b]];
    assert [[b]][1..] == [];
    assert Flatten([[b]]) == [b];
    assert Flatten([[a], [b]]) == [a] + [b];
  }

  /** The ternary selector. For `a ? b : c` with `a` a reference, the path
      resolves to the trimmed `b` or `c` as the trimmed `a` resolves to true
      or false, with any failure of the branch caught as null, and to null
      when `a` is not a boolean. */
  lemma TernarySelects(variant: Variant, a: string, b: string, c: string, ctx: Object)
    requires StartsWith(a, ReferencePrefix)
    requires '?' !in a && ':' !in a && '?' !in b && ':' !in b && '?' !in c && ':' !in c
    ensures var condition := Resolve(variant, Trim(a), ctx);
      Resolve(variant, a + "?" + b + ":" + c, ctx) ==
        if condition == Success(JBool(true)) then Success(OrNull(Resolve(variant, Trim(b), ctx)))
        else if condition == Success(JBool(false)) then Success(OrNull(Resolve(variant, Trim(c), ctx)))
        else Success(JNull)
  {
    var path := a + "?" + b + ":" + c;
    TernaryPartsOf(a, b, c);
    TernaryPathIsTernary(a, b, c);
    TrimOmits(a, '?');
    TrimOmits(b, '?');
    TrimOmits(c, '?');
    TernaryOfPlainParts(variant, Trim(a), Trim(b), Trim(c), ctx);
  }

  /** The ternary as workflow definitions write it, `$.p ? $.q : $.r`, with
      one space around each marker: the condition `$.p` selects `$.q` or `$.r`. */
  lemma SpacedTernary(variant: Variant, p: string, q: string, r: string, ctx: Object)
    requires p != "" && q != "" && r != ""
    requires '?' !in p && ':' !in p && '?' !in q && ':' !in q && '?' !in r && ':' !in r
    requires !IsJsSpace(p[|p| - 1]) && !IsJsSpace(q[|q| - 1]) && !IsJsSpace(r[|r| - 1])
    ensures var condition := Resolve(variant, "$." + p, ctx);
      Resolve(variant, "$." + p + " ? $." + q + " : $." + r, ctx) ==
        if condition == Success(JBool(true)) then Resolve(variant, "$." + q, ctx)
        else if condition == Success(JBool(false)) then Resolve(variant, "$." + r, ctx)
        else Success(JNull)
  {
    var a, b, c := "$." + p + " ", " " + ("$." + q) + " ", " " + ("$." + r);
    SpacedParts(p, q, r);
    TrimmedSelects(variant, a, b, c, "$." + p, "$." + q, "$." + r, ctx);
  }

  /** TernarySelects with the trimmed parts named. */
  lemma TrimmedSelects(variant: Variant, a: string, b: string, c: string, x: string, y: string, z: string, ctx: Object)
    requires StartsWith(a, ReferencePrefix)
    requires '?' !in a && ':' !in a && '?' !in b && ':' !in b && '?' !in c && ':' !in c
    requires Trim(a) == x && Trim(b) == y && Trim(c) == z && y != "" && z != ""
    ensures var condition := Resolve(variant, x, ctx);
      Resolve(variant, a + "?" + b + ":" + c, ctx) ==
        if condition == Success(JBool(true)) then Resolve(variant, y, ctx)
        else if condition == Success(JBool(false)) then Resolve(variant, z, ctx)
        else Success(JNull)
  {
    TernarySelects(variant, a, b, c, ctx);
  }

  /** The pieces of `$.p ? $.q : $.r` between the markers, and their trims. */
  lemma SpacedParts(p: string, q: string, r: string)
    requires p != "" && q != "" && r != ""
    requires '?' !in p && ':' !in p && '?' !in q && ':' !in q && '?' !in r && ':' !in r
    requires !IsJsSpace(p[|p| - 1]) && !IsJsSpace(q[|q| - 1]) && !IsJsSpace(r[|r| - 1])
    ensures var a, b, c := "$." + p + " ", " " + ("$." + q) + " ", " " + ("$." + r);
      && "$." + p + " ? $." + q + " : $." + r == a + "?" + b + ":" + c
      && StartsWith(a, ReferencePrefix)
      && '?' !in a && ':' !in a && '?' !in b && ':' !in b && '?' !in c && ':' !in c
      && Trim(a) == "$." + p && Trim(b) == "$." + q && Trim(c) == "$." + r
  {
    SpacedPath(p, q, r);
    ReferencePadded(p);
    ReferencePadded(q);
    ReferencePadded(r);
  }

  /** `$.s` padded with spaces trims back to itself and holds no marker `s` lacks. */
  lemma ReferencePadded(s: string)
    requires s != "" && '?' !in s && ':' !in s && !IsJsSpace(s[|s| - 1])
    ensures var x := "$." + s;
      && Trim(x + " ") == x && Trim(" " + x + " ") == x && Trim(" " + x) == x
      && '?' !in " " + x + " " && ':' !in " " + x + " "
      && StartsWith(x + " ", ReferencePrefix)
  {
    var x := "$." + s;
    StartsWithConcat("$.", s);
    assert (x + " ")[..2] == x[..2];
    assert x[0] == '$' && x[|x| - 1] == s[|s| - 1];
    TrimPadded(x);
  }

  lemma SpacedPath(p: string, q: string, r: string)
    ensures "$." + p + " ? $." + q + " : $." + r
      == ("$." + p + " ") + "?" + (" " + ("$." + q) + " ") + ":" + (" " + ("$." + r))
  {
    var path := "$." + p + " ? $." + q + " : $." + r;
    var a, b, c := "$." + p + " ", " " + ("$." + q) + " ", " " + ("$." + r);
    assert path == ("$." + p) + " ? $." + q + " : $." + r;
    assert "$." + p + " ? $." == a + "?" + " $.";
    assert "$." + p + " ? $." + q + " : $." == a + "?" + b + ":" + " $.";
  }

  lemma TernaryPathIsTernary(a: string, b: string, c: string)
    requires StartsWith(a, ReferencePrefix)
    ensures var path := a + "?" + b + ":" + c;
      path != "" && StartsWith(path, ReferencePrefix) && '?' in path
  {
    var path := a + "?" + b + ":" + c;
    assert path[..2] == a[..2];
    assert path[|a|] == '?';
  }

  lemma TernaryOfPlainParts(variant: Variant, x: string, y: string, z: string, ctx: Object)
    requires '?' !in x && '?' !in y && '?' !in z
    ensures var condition := Resolve(variant, x, ctx);
      ResolveTernary(variant, [x, y, z], ctx) ==
        if condition == Success(JBool(true)) then OrNull(Resolve(variant, y, ctx))
        else if condition == Success(JBool(false)) then OrNull(Resolve(variant, z, ctx))
        else JNull
  {
    assert Resolve(variant, x, ctx) == ResolvePlain(variant, x, ctx);
    assert Resolve(variant, y, ctx) == ResolvePlain(variant, y, ctx);
    assert Resolve(variant, z, ctx) == ResolvePlain(variant, z, ctx);
  }

  lemma TernaryPartsOf(a: string, b: string, c: string)
    requires '?' !in a && ':' !in a && '?' !in b && ':' !in b && '?' !in c && ':' !in c
    ensures TernaryParts(a + "?" + b + ":" + c) == [Trim(a), Trim(b), Trim(c)]
  {
    TernaryPieces(a, b, c);
    TrimThree(a, b, c);
  }

  lemma TernaryPieces(a: string, b: string, c: string)
    requires '?' !in a && ':' !in a && '?' !in b && ':' !in b && '?' !in c && ':' !in c
    ensures SplitOn(a + "?" + b + ":" + c, TernaryMarks) == [a, b, c]
  {
    var path := a + "?" + b + ":" + c;
    assert path == a + ['?'] + (b + [':'] + c);
    SplitOnConcat(a, '?', b + [':'] + c, TernaryMarks);
    SplitOnConcat(b, ':', c, TernaryMarks);
    SplitOnNoSeparator(c, TernaryMarks);
  }

  lemma TrimThree(a: string, b: string, c: string)
    ensures TrimAll([a, b, c]) == [Trim(a), Trim(b), Trim(c)]
  {
    TrimAllCons(c, []);
    TrimAllCons(b, [c]);
    TrimAllCons(a, [b, c]);
    assert [a] + [b, c] == [a, b, c] && [b] + [c] == [b, c] && [c] + [] == [c];
  }

  lemma TrimAllCons(x: string, rest: seq<string>)
    ensures TrimAll([x] + rest) == [Trim(x)] + TrimAll(rest)
  {
    assert ([x] + rest)[1..] == rest;
  }

  /** The two resolvers agree except on `$.` itself, which the engine reads as
      the context key "" and the step manager as null: when the context has
      no key "", they agree on every path. */
  lemma VariantsAgree(path: string, ctx: Object)
    requires "" !in ctx
    ensures Resolve(EngineVariant, path, ctx) == Resolve(ManagerVariant, path, ctx)
  {
    if path != "" && StartsWith(path, ReferencePrefix) && '?' in path {
      TernaryVariantsAgree(TernaryParts(path), ctx);
    } else {
      PlainVariantsAgree(path, ctx);
    }
  }

  lemma TernaryVariantsAgree(parts: seq<string>, ctx: Object)
    requires |parts| >= 1 && "" !in ctx
    ensures ResolveTernary(EngineVariant, parts, ctx) == ResolveTernary(ManagerVariant, parts, ctx)
  {
    PlainVariantsAgree(parts[0], ctx);
    if |parts| > 1 { PlainVariantsAgree(parts[1], ctx); }
    if |parts| > 2 { PlainVariantsAgree(parts[2], ctx); }
  }

  lemma PlainVariantsAgree(path: string, ctx: Object)
    requires "" !in ctx
    ensures ResolvePlain(EngineVariant, path, ctx) == ResolvePlain(ManagerVariant, path, ctx)
  {
    if path != "" && StartsWith(path, ReferencePrefix) && path[2..] == "" {
      assert KeyPath("") == [""] by {
        assert SplitOn("", {'.'}) == [""];
        assert SegmentsKeys([""]) == [[""]];
      }
    }
  }

  /** `$.` alone: the step manager yields null, the engine the context key "". */
  lemma EmptyRemainder(ctx: Object)
    ensures Resolve(ManagerVariant, "$.", ctx) == Success(JNull)
    ensures Resolve(EngineVariant, "$.", ctx) == Success(if "" in ctx then ctx[""] else JNull)
  {
    assert "$."[2..] == "";
    assert KeyPath("") == [""] by {
      assert SplitOn("", {'.'}) == [""];
      assert SegmentsKeys([""]) == [[""]];
    }
  }
}
