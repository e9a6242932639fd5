/** Request validation: the two declarative models and the decorator that
    runs a route handler only when the submitted data passes its model. */
module Schema {
  import opened Base
  import Config

  /** Submitted key/value pairs: a JSON object's or a query string's. */
  type Data = map<string, string>

  /** A declared string field of a validation model. */
  datatype FieldSpec = StringField(name: string, required: bool, choices: Option<seq<string>>)

  /** Why one field failed. */
  datatype FieldError = Required | NotAChoice(choices: seq<string>)

  /** Failed field names with their reasons (the 400 response's `errors`). */
  type Errors = map<string, FieldError>

  /** `LeetMommyValidator`: a required cohort among the configured ones. */
  const LeetMommyValidator: seq<FieldSpec> := [StringField("cohort", true, Some(Config.Cohorts))]

  /** `QueryValidator`: the fields it inherits plus a required query. */
  const QueryValidator: seq<FieldSpec> := LeetMommyValidator + [StringField("query", true, None)]

  /** The check of one declared field against the data. */
  function CheckField(f: FieldSpec, d: Data): Option<FieldError>
  {
    if f.name !in d then (if f.required then Some(Required) else None)
    else if f.choices.Some? && d[f.name] !in f.choices.value then Some(NotAChoice(f.choices.value))
    else None
  }

  /** The field names a model declares. */
  function Names(model: seq<FieldSpec>): set<string>
  {
    set k | 0 <= k < |model| :: model[k].name
  }

  /** `validate()`: the errors of every failing field of the model. The data
      pass exactly when no declared field fails, and only declared fields
      are reported. */
  function Validate(model: seq<FieldSpec>, d: Data): (errors: Errors)
    ensures errors == map[] <==> forall k :: 0 <= k < |model| ==> CheckField(model[k], d).None?
    ensures forall k :: 0 <= k < |model| && CheckField(model[k], d).Some? ==> model[k].name in errors
    ensures errors.Keys <= Names(model)
  {
    if |model| == 0 then map[]
    else
      var rest := Validate(model[1..], d);
      match CheckField(model[0], d)
      case None => rest
      case Some(e) =>
        assert model[0].name in rest[model[0].name := e];
        rest[model[0].name := e]
  }

  /** No two fields of the model share a name (true of both models here). */
  predicate DistinctNames(model: seq<FieldSpec>)
  {
    forall i, j :: 0 <= i < j < |model| ==> model[i].name != model[j].name
  }

  /** For a model whose field names are distinct, the errors are exactly
      those of the failing fields, each with its own field's reason: a
      passing field is never reported. */
  lemma {:induction false} ValidateReports(model: seq<FieldSpec>, d: Data)
    requires DistinctNames(model)
    ensures forall k :: 0 <= k < |model| ==>
      (model[k].name in Validate(model, d) <==> CheckField(model[k], d).Some?)
    ensures forall k :: 0 <= k < |model| && CheckField(model[k], d).Some? ==>
      Validate(model, d)[model[k].name] == CheckField(model[k], d).value
    decreases |model|
  {
    if |model| > 0 {
      var tail := model[1..];
      assert DistinctNames(tail) by {
        forall i, j | 0 <= i < j < |tail| ensures tail[i].name != tail[j].name {
          assert tail[i] == model[i + 1] && tail[j] == model[j + 1];
        }
      }
      ValidateReports(tail, d);
      var rest := Validate(tail, d);
      assert model[0].name !in rest by {
        forall k | 0 <= k < |tail| ensures tail[k].name != model[0].name {
          assert tail[k] == model[k + 1];
        }
        assert model[0].name !in Names(tail);
      }
      forall k | 1 <= k < |model|
        ensures model[k].name in Validate(model, d) <==> model[k].name in rest
        ensures model[k].name in rest ==> Validate(model, d)[model[k].name] == rest[model[k].name]
      {
        assert model[k] == tail[k - 1];
        assert model[k].name != model[0].name;
      }
      forall k | 1 <= k < |model|
        ensures model[k].name in Validate(model, d) <==> CheckField(model[k], d).Some?
        ensures CheckField(model[k], d).Some? ==> Validate(model, d)[model[k].name] == CheckField(model[k], d).value
      {
        assert model[k] == tail[k - 1];
      }
    }
  }

  /** Both validation models declare distinct field names. */
  lemma ModelsHaveDistinctNames()
    ensures DistinctNames(LeetMommyValidator)
    ensures DistinctNames(QueryValidator)
  {
  }

  /** The cohort model rejects a missing cohort as required and an unknown
      one as not a choice, and accepts exactly the configured cohorts. */
  lemma LeetMommyErrors(d: Data)
    ensures Validate(LeetMommyValidator, d) ==
      if "cohort" !in d then map["cohort" := Required]
      else if d["cohort"] !in Config.Cohorts then map["cohort" := NotAChoice(Config.Cohorts)]
      else map[]
    ensures Validate(LeetMommyValidator, d) == map[] <==> "cohort" in d && d["cohort"] in Config.Cohorts
  {
    assert LeetMommyValidator[1..] == [];
  }

  /** One step of `Validate`: the first field's error, if any, is added to
      the errors of the remaining fields. */
  lemma ValidateStep(model: seq<FieldSpec>, d: Data)
    requires |model| > 0
    ensures CheckField(model[0], d).None? ==> Validate(model, d) == Validate(model[1..], d)
    ensures CheckField(model[0], d).Some? ==>
      Validate(model, d) == Validate(model[1..], d)[model[0].name := CheckField(model[0], d).value]
  {
  }

  /** Validating a model extended with more fields reports the extension's
      errors together with the base model's. It is used only for extensions
      that declare new names, as `QueryValidator` adds `query` to its
      parent's `cohort`; a redeclared name is not modelled. */
  lemma {:induction false} ValidateExtended(base: seq<FieldSpec>, extra: seq<FieldSpec>, d: Data)
    ensures Validate(base + extra, d) == Validate(extra, d) + Validate(base, d)
    decreases |base|
  {
    if |base| == 0 {
      assert base + extra == extra;
    } else {
      var whole := base + extra;
      assert whole[0] == base[0];
      assert whole[1..] == base[1..] + extra;
      ValidateExtended(base[1..], extra, d);
      ValidateStep(whole, d);
      ValidateStep(base, d);
      var e := CheckField(base[0], d);
      if e.Some? {
        UpdateUnion(Validate(extra, d), Validate(base[1..], d), base[0].name, e.value);
      }
    }
  }

  /** Updating a union updates its right-hand part. */
  lemma UpdateUnion(a: Errors, b: Errors, k: string, v: FieldError)
    ensures (a + b)[k := v] == a + b[k := v]
  {
  }

  /** The query model reports the cohort model's errors plus a missing
      query. */
  lemma QueryErrors(d: Data)
    ensures Validate(QueryValidator, d) ==
      Validate(LeetMommyValidator, d) + (if "query" in d then map[] else map["query" := Required])
  {
    var extra := [StringField("query", true, None)];
    var queryErrors := if "query" in d then map[] else map["query" := Required];
    var cohortErrors := Validate(LeetMommyValidator, d);
    assert Validate(extra, d) == queryErrors by {
      assert extra[1..] == [];
    }
    assert Validate(QueryValidator, d) == queryErrors + cohortErrors by {
      ValidateExtended(LeetMommyValidator, extra, d);
    }
    assert queryErrors + cohortErrors == cohortErrors + queryErrors by {
      LeetMommyErrors(d);
    }
  }

  /** The query model accepts iff the cohort model accepts and a query is
      present; so its acceptance implies the cohort model's. */
  lemma QueryAcceptance(d: Data)
    ensures Validate(QueryValidator, d) == map[] <==>
      Validate(LeetMommyValidator, d) == map[] && "query" in d
  {
    QueryErrors(d);
    var all := Validate(QueryValidator, d);
    var cohortErrors := Validate(LeetMommyValidator, d);
    assert "query" !in d ==> "query" in all;
    assert cohortErrors.Keys <= all.Keys;
  }

  /** The request a handler sees: method, JSON body (absent when the body is
      not JSON) and query arguments. */
  datatype Request = Request(httpMethod: string, json: Option<Data>, args: Data)

  /** The JSON body of a request, an absent body counting as empty. */
  function JsonBody(req: Request): Data
  {
    if req.json.Some? then req.json.value else map[]
  }

  /** The data a request is validated against: the JSON body for POST, the
      query arguments for GET, none for any other method (HEAD included). */
  function Submitted(req: Request): Option<Data>
  {
    if req.httpMethod == "POST" then Some(JsonBody(req))
    else if req.httpMethod == "GET" then Some(req.args)
    else None
  }

  /** `HTTP_400_BAD_REQUEST`. */
  const BadRequestStatus: nat := 400

  /** What the decorated route yields: the handler's own result, a 400 with
      the field errors, or a raised exception. */
  datatype Wrapped<R> = Returned(value: R) | Rejected(errors: Errors, status: nat) | Raised(message: string)

  /** `validator(model)` around `handler`: the handler runs only when the
      submitted data pass, and then its result is returned unchanged;
      otherwise the errors come back with status 400 and the handler does not
      run. A method other than GET or POST raises instead. */
  function Wrap<R>(model: seq<FieldSpec>, req: Request, handler: Request -> R): (w: Wrapped<R>)
    ensures w.Raised? <==> req.httpMethod != "POST" && req.httpMethod != "GET"
    ensures w.Returned? <==> Submitted(req).Some? && Validate(model, Submitted(req).value) == map[]
    ensures w.Returned? ==> w.value == handler(req)
    ensures w.Rejected? ==>
      && Submitted(req).Some?
      && w.errors == Validate(model, Submitted(req).value)
      && w.errors != map[]
      && w.status == 400
  {
    match Submitted(req)
    case None => Raised(req.httpMethod + " is not yet implemented")
    case Some(d) =>
      var errors := Validate(model, d);
      if errors == map[] then Returned(handler(req)) else Rejected(errors, BadRequestStatus)
  }

  /** A GET request is judged by its query arguments alone and a POST
      request by its body alone; a POST without a JSON body fails like an
      empty one. */
  lemma ValidationSource<R>(model: seq<FieldSpec>, j1: Option<Data>, j2: Option<Data>, a1: Data, a2: Data,
                            h: Request -> R)
    ensures Wrap(model, Request("GET", j1, a1), h).Returned? == Wrap(model, Request("GET", j2, a1), h).Returned?
    ensures Wrap(model, Request("POST", j1, a1), h).Returned? == Wrap(model, Request("POST", j1, a2), h).Returned?
    ensures Wrap(model, Request("POST", None, a1), h).Returned? == Wrap(model, Request("POST", Some(map[]), a2), h).Returned?
  {
  }
}
