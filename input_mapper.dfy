/** The parameter binding loop of prepareInput, shared by the TypeScript
    engine and the step manager: each binding names a tool parameter and a
    path; the path is resolved, a required parameter may not resolve to null,
    and a null value falls back to the parameter's default. */
module InputMapper {
  import opened Wrappers
  import opened JsonModel
  import opened Types
  import opened PathResolver

  /** `parameters.find(p => p.name === name)`. */
  function FindParameter(params: seq<ToolParameter>, name: string): (r: Option<ToolParameter>)
    ensures r.Some? ==> r.value in params && r.value.name == name
    ensures r.None? <==> forall i :: 0 <= i < |params| ==> params[i].name != name
  {
    if |params| == 0 then None
    else if params[0].name == name then Some(params[0])
    else FindParameter(params[1..], name)
  }

  /** What one binding contributes to the input object: Some(v) is written
      under the parameter's name, None is undefined, which leaves the key out. */
  function BindOne(variant: Variant, params: seq<ToolParameter>, binding: (string, string), ctx: Object): Result<Option<Json>, Error>
  {
    var (name, path) := binding;
    match FindParameter(params, name)
    case None => Failure(UnknownParameter(name))
    case Some(param) =>
      match Resolve(variant, path, ctx)
      case Failure(e) => Failure(e)
      case Success(value) =>
        if param.required && value == JNull then Failure(RequiredParameterNotFound(name))
        else if value != JNull then Success(Some(value))
        else Success(param.default)
  }

  /** The outcomes of one binding: an unknown name, then an empty path, then a
      required parameter resolving to null fail, in that order of precedence;
      otherwise the resolved value is written, or the default when it is null. */
  lemma BindOneCases(variant: Variant, params: seq<ToolParameter>, binding: (string, string), ctx: Object)
    ensures FindParameter(params, binding.0).None? ==>
      BindOne(variant, params, binding, ctx) == Failure(UnknownParameter(binding.0))
    ensures FindParameter(params, binding.0).Some? && binding.1 == "" ==>
      BindOne(variant, params, binding, ctx) == Failure(EmptyPath)
    ensures BindOne(variant, params, binding, ctx).Success? <==>
      && FindParameter(params, binding.0).Some?
      && binding.1 != ""
      && !(FindParameter(params, binding.0).value.required && OrNull(Resolve(variant, binding.1, ctx)) == JNull)
    ensures BindOne(variant, params, binding, ctx).Failure? && FindParameter(params, binding.0).Some? && binding.1 != "" ==>
      BindOne(variant, params, binding, ctx) == Failure(RequiredParameterNotFound(binding.0))
    ensures BindOne(variant, params, binding, ctx).Success? ==>
      var value := OrNull(Resolve(variant, binding.1, ctx));
      BindOne(variant, params, binding, ctx).value ==
        if value != JNull then Some(value) else FindParameter(params, binding.0).value.default
  {
  }

  /** A bound name with what its binding contributes. */
  type Contribution = (string, Result<Option<Json>, Error>)

  /** The contributions of the bindings, in order. */
  function Contributions(variant: Variant, params: seq<ToolParameter>, bindings: seq<(string, string)>, ctx: Object): (cs: seq<Contribution>)
    ensures |cs| == |bindings|
    ensures forall i :: 0 <= i < |bindings| ==> cs[i] == (bindings[i].0, BindOne(variant, params, bindings[i], ctx))
  {
    seq(|bindings|, i requires 0 <= i < |bindings| => (bindings[i].0, BindOne(variant, params, bindings[i], ctx)))
  }

  /** The object the contributions build in order, writing each defined
      value and removing each undefined one; the first failure aborts. */
  function Assemble(cs: seq<Contribution>): Result<Object, Error>
    decreases |cs|
  {
    if |cs| == 0 then Success(map[])
    else
      var front := Assemble(cs[..|cs| - 1]);
      var last := cs[|cs| - 1];
      if front.Failure? then front
      else
        match last.1
        case Failure(e) => Failure(e)
        case Success(Some(value)) => Success(front.value[last.0 := value])
        case Success(None) => Success(front.value - {last.0})
  }

  /** The input object prepareInput builds from `bindings`. */
  function Bind(variant: Variant, params: seq<ToolParameter>, bindings: seq<(string, string)>, ctx: Object): Result<Object, Error> {
    Assemble(Contributions(variant, params, bindings, ctx))
  }

  predicate NamesDistinct(cs: seq<Contribution>) {
    forall i, j :: 0 <= i < j < |cs| ==> cs[i].0 != cs[j].0
  }

  /** Assembling succeeds exactly when every contribution does. */
  lemma {:induction false} AssembleSucceedsIff(cs: seq<Contribution>)
    ensures Assemble(cs).Success? <==> forall i :: 0 <= i < |cs| ==> cs[i].1.Success?
    decreases |cs|
  {
    if |cs| > 0 {
      var front := cs[..|cs| - 1];
      AssembleSucceedsIff(front);
      assert forall i :: 0 <= i < |front| ==> front[i] == cs[i];
    }
  }

  /** A failure is the failure of the first contribution that fails. */
  lemma {:induction false} AssembleFailsAtFirst(cs: seq<Contribution>)
    requires Assemble(cs).Failure?
    ensures exists i :: (0 <= i < |cs| && cs[i].1 == Failure(Assemble(cs).error)
      && forall j :: 0 <= j < i ==> cs[j].1.Success?)
    decreases |cs|
  {
    var front := cs[..|cs| - 1];
    assert forall i :: 0 <= i < |front| ==> front[i] == cs[i];
    if Assemble(front).Failure? {
      AssembleFailsAtFirst(front);
    } else {
      AssembleSucceedsIff(front);
    }
  }

  /** With distinct names, the object holds exactly the names whose value is
      defined, each with its value. */
  lemma {:induction false} AssembleResult(cs: seq<Contribution>)
    requires NamesDistinct(cs) && Assemble(cs).Success?
    ensures forall i :: 0 <= i < |cs| ==> cs[i].1.Success?
    ensures forall i :: 0 <= i < |cs| && cs[i].1.value.Some? ==>
      cs[i].0 in Assemble(cs).value && Assemble(cs).value[cs[i].0] == cs[i].1.value.value
    ensures forall i :: 0 <= i < |cs| && cs[i].1.value.None? ==> cs[i].0 !in Assemble(cs).value
    ensures forall name :: name in Assemble(cs).value ==> exists i :: 0 <= i < |cs| && cs[i].0 == name
    decreases |cs|
  {
    AssembleSucceedsIff(cs);
    if |cs| > 0 {
      var n := |cs|;
      var front, last := cs[..n - 1], cs[n - 1];
      assert forall i :: 0 <= i < |front| ==> front[i] == cs[i];
      AssembleResult(front);
      var before := Assemble(front).value;
      var input := Assemble(cs).value;
      forall name | name in input
        ensures exists i :: 0 <= i < n && cs[i].0 == name
      {
        if name != last.0 {
          assert name in before;
          var i :| 0 <= i < |front| && front[i].0 == name;
          assert cs[i].0 == name;
        } else {
          assert cs[n - 1].0 == name;
        }
      }
    }
  }

  /** A failing prefix makes the whole assembly fail the same way. */
  lemma {:induction false} AssemblePrefixFailure(cs: seq<Contribution>, i: nat)
    requires i <= |cs| && Assemble(cs[..i]).Failure?
    ensures Assemble(cs) == Assemble(cs[..i])
    decreases |cs| - i
  {
    if i < |cs| {
      assert cs[..i + 1][..i] == cs[..i];
      AssemblePrefixFailure(cs, i + 1);
    } else {
      assert cs[..i] == cs;
    }
  }

  /** Binding succeeds exactly when every binding does; parameters that are
      not bound are not checked, however required. */
  lemma BindSucceedsIff(variant: Variant, params: seq<ToolParameter>, bindings: seq<(string, string)>, ctx: Object)
    ensures Bind(variant, params, bindings, ctx).Success? <==>
      forall i :: 0 <= i < |bindings| ==> BindOne(variant, params, bindings[i], ctx).Success?
  {
    var cs := Contributions(variant, params, bindings, ctx);
    AssembleSucceedsIff(cs);
    assert forall i :: 0 <= i < |bindings| ==> cs[i].1 == BindOne(variant, params, bindings[i], ctx);
  }

  /** A binding failure is the failure of the first binding that fails. */
  lemma BindFailsAtFirst(variant: Variant, params: seq<ToolParameter>, bindings: seq<(string, string)>, ctx: Object)
    requires Bind(variant, params, bindings, ctx).Failure?
    ensures exists i :: (0 <= i < |bindings|
      && BindOne(variant, params, bindings[i], ctx) == Failure(Bind(variant, params, bindings, ctx).error)
      && forall j :: 0 <= j < i ==> BindOne(variant, params, bindings[j], ctx).Success?)
  {
    var cs := Contributions(variant, params, bindings, ctx);
    AssembleFailsAtFirst(cs);
    var i :| 0 <= i < |cs| && cs[i].1 == Failure(Assemble(cs).error) && forall j :: 0 <= j < i ==> cs[j].1.Success?;
    assert forall j :: 0 <= j < i ==> cs[j].1 == BindOne(variant, params, bindings[j], ctx);
  }

  /** Binding fails only for an unknown name, an empty path or a required
      parameter resolving to null. */
  lemma BindErrors(variant: Variant, params: seq<ToolParameter>, bindings: seq<(string, string)>, ctx: Object)
    requires Bind(variant, params, bindings, ctx).Failure?
    ensures var e := Bind(variant, params, bindings, ctx).error;
      e.UnknownParameter? || e.EmptyPath? || e.RequiredParameterNotFound?
  {
    BindFailsAtFirst(variant, params, bindings, ctx);
    var i :| 0 <= i < |bindings|
      && BindOne(variant, params, bindings[i], ctx) == Failure(Bind(variant, params, bindings, ctx).error);
    BindOneCases(variant, params, bindings[i], ctx);
  }

  /** With distinct names (they are the keys of an object), the input object
      holds exactly the bound names whose value is defined, each with the
      value its binding contributes. */
  lemma BindResult(variant: Variant, params: seq<ToolParameter>, bindings: seq<(string, string)>, ctx: Object)
    requires forall i, j :: 0 <= i < j < |bindings| ==> bindings[i].0 != bindings[j].0
    requires Bind(variant, params, bindings, ctx).Success?
    ensures forall i :: 0 <= i < |bindings| ==> BindOne(variant, params, bindings[i], ctx).Success?
    ensures forall i :: 0 <= i < |bindings| && BindOne(variant, params, bindings[i], ctx).value.Some? ==>
      bindings[i].0 in Bind(variant, params, bindings, ctx).value
      && Bind(variant, params, bindings, ctx).value[bindings[i].0] == BindOne(variant, params, bindings[i], ctx).value.value
    ensures forall i :: 0 <= i < |bindings| && BindOne(variant, params, bindings[i], ctx).value.None? ==>
      bindings[i].0 !in Bind(variant, params, bindings, ctx).value
    ensures forall name :: name in Bind(variant, params, bindings, ctx).value ==>
      exists i :: 0 <= i < |bindings| && bindings[i].0 == name
  {
    var cs := Contributions(variant, params, bindings, ctx);
    AssembleResult(cs);
  }

  /** The loop of prepareInput over the bindings, filling the input object. */
  method BindParameters(variant: Variant, params: seq<ToolParameter>, bindings: seq<(string, string)>, ctx: Context)
    returns (r: Result<Object, Error>)
    ensures r == Bind(variant, params, bindings, ctx.entries)
  {
    ghost var cs := Contributions(variant, params, bindings, ctx.entries);
    var input: Object := map[];
    var i := 0;
    while i < |bindings|
      invariant 0 <= i <= |bindings|
      invariant Assemble(cs[..i]) == Success(input)
    {
      var (name, path) := bindings[i];
      assert cs[..i + 1][..i] == cs[..i];
      var param := FindParameter(params, name);
      if param.None? {
        AssemblePrefixFailure(cs, i + 1);
        return Failure(UnknownParameter(name));
      }
      var value := Resolve(variant, path, ctx.entries);
      if value.Failure? {
        AssemblePrefixFailure(cs, i + 1);
        return Failure(value.error);
      }
      if param.value.required && value.value == JNull {
        AssemblePrefixFailure(cs, i + 1);
        return Failure(RequiredParameterNotFound(name));
      }
      if value.value != JNull {
        input := input[name := value.value];
      } else if param.value.default.Some? {
        input := input[name := param.value.default.value];
      } else {
        input := input - {name};
      }
      i := i + 1;
    }
    assert cs[..i] == cs;
    return Success(input);
  }
}
