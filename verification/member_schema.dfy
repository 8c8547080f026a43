/** The body schema declared for `POST /members`: which bodies it accepts, the defaults it
    fills in, and the parameters the handler binds from the result. */
module MemberSchema {

  import opened Json

  const Genders: seq<string> := ["Male", "Female", "Other"]

  /** The constraint the schema puts on the value of each declared property; an undeclared
      property is not constrained. */
  predicate PropertyOk(key: string, v: Value)
  {
    if key == "firstname" || key == "lastname" || key == "email" then v.Str?
    else if key == "age" then v.Num? && v.n >= 14.0
    else if key == "isActive" || key == "overDueSubscription" then v.Bool?
    else if key == "fideRating" then v.Null? || (v.Num? && v.n >= 1.0)
    else if key == "profilePhotoUrl" || key == "lichessProfile" || key == "chessComProfile"
         || key == "fideProfile" then v.Null? || v.Str?
    else if key == "gender" then v.Str? && v.s in Genders
    else true
  }

  /** The required properties are present */
  predicate HasRequired(fields: map<string, Value>)
  {
    "firstname" in fields && "lastname" in fields && "age" in fields
    && "email" in fields && "gender" in fields
  }

  /** The body is an object with every required property and every property within its
      declared constraint */
  predicate ValidCreateBody(body: Value): (ok: bool)
    ensures ok ==>
      body.Obj? && HasRequired(body.fields)
      && body.fields["age"].Num? && body.fields["age"].n >= 14.0
      && body.fields["gender"].Str? && body.fields["gender"].s in Genders
      && ("fideRating" in body.fields ==>
            body.fields["fideRating"].Null?
            || (body.fields["fideRating"].Num? && body.fields["fideRating"].n >= 1.0))
  {
    body.Obj? && HasRequired(body.fields)
    && forall k :: k in body.fields ==> PropertyOk(k, body.fields[k])
  }

  /** The declared defaults */
  const Defaults: map<string, Value> := map[
    "isActive" := Bool(true),
    "fideRating" := Null,
    "profilePhotoUrl" := Null,
    "lichessProfile" := Null,
    "chessComProfile" := Null,
    "fideProfile" := Null,
    "overDueSubscription" := Bool(false)]

  /** The body with every omitted defaulted property set to its default; properties that are
      present keep their values. */
  function WithDefaults(fields: map<string, Value>): (r: map<string, Value>)
    ensures r.Keys == fields.Keys + Defaults.Keys
    ensures forall k :: k in fields ==> r[k] == fields[k]
    ensures forall k :: k in Defaults && k !in fields ==> r[k] == Defaults[k]
  {
    Defaults + fields
  }

  /** Every declared default meets its own property's constraint. */
  lemma DefaultsSatisfySchema()
    ensures forall k :: k in Defaults ==> PropertyOk(k, Defaults[k])
  {
    assert Defaults.Keys == {"isActive", "fideRating", "profilePhotoUrl", "lichessProfile",
      "chessComProfile", "fideProfile", "overDueSubscription"};
  }

  /** Constraints that hold of every property of the body hold of every property once the
      defaults are in. */
  lemma DefaultedMeetsConstraints(fields: map<string, Value>)
    requires forall k :: k in fields ==> PropertyOk(k, fields[k])
    ensures forall k :: k in WithDefaults(fields) ==> PropertyOk(k, WithDefaults(fields)[k])
  {
    var r := WithDefaults(fields);
    DefaultsSatisfySchema();
    forall k | k in r ensures PropertyOk(k, r[k]) {
      if k in fields {
        assert r[k] == fields[k];
      } else {
        assert k in Defaults;
        assert r[k] == Defaults[k];
      }
    }
  }

  /** No required property has a default, so defaults never supply one. */
  lemma DefaultsSupplyNoRequired(fields: map<string, Value>)
    ensures HasRequired(WithDefaults(fields)) <==> HasRequired(fields)
  {
    assert "firstname" !in Defaults && "lastname" !in Defaults && "age" !in Defaults;
    assert "email" !in Defaults && "gender" !in Defaults;
  }

  /** Filling in defaults neither makes an invalid body valid nor a valid one invalid. */
  lemma DefaultsKeepValidity(fields: map<string, Value>)
    ensures ValidCreateBody(Obj(WithDefaults(fields))) <==> ValidCreateBody(Obj(fields))
  {
    var r := WithDefaults(fields);
    DefaultsSupplyNoRequired(fields);
    if ValidCreateBody(Obj(fields)) {
      DefaultedMeetsConstraints(fields);
    }
    if ValidCreateBody(Obj(r)) {
      forall k | k in fields ensures PropertyOk(k, fields[k]) {
        assert r[k] == fields[k];
      }
    }
  }

  /** The properties the INSERT binds, as `$1` to `$11`, in this order. They go to the columns
      firstname, lastname, age, email, is_active, fide_rating, profile_photo_url, lichess_profile,
      chesscom_profile, overdue_subscription and gender. */
  const InsertProperties: seq<string> := ["firstname", "lastname", "age", "email", "isActive",
    "fideRating", "profilePhotoUrl", "lichessProfile", "chessComProfile", "overDueSubscription",
    "gender"]

  /** The INSERT's bound values: each bound property's value from the body, or its default
      when the body omits it */
  function InsertParams(fields: map<string, Value>): (r: seq<Value>)
    requires HasRequired(fields)
    ensures |r| == |InsertProperties|
    ensures forall i :: 0 <= i < |r| ==>
      r[i] == if InsertProperties[i] in fields then fields[InsertProperties[i]]
              else Defaults[InsertProperties[i]]
  {
    var d := WithDefaults(fields);
    seq(|InsertProperties|, i requires 0 <= i < |InsertProperties| => d[InsertProperties[i]])
  }

  /** Omitted optional properties are bound as their defaults: is_active true, overdue_subscription
      false, and the nullable ones null. */
  lemma OmittedAreDefaulted(fields: map<string, Value>)
    requires HasRequired(fields)
    ensures "isActive" !in fields ==> InsertParams(fields)[4] == Bool(true)
    ensures "fideRating" !in fields ==> InsertParams(fields)[5] == Null
    ensures "profilePhotoUrl" !in fields ==> InsertParams(fields)[6] == Null
    ensures "lichessProfile" !in fields ==> InsertParams(fields)[7] == Null
    ensures "chessComProfile" !in fields ==> InsertParams(fields)[8] == Null
    ensures "overDueSubscription" !in fields ==> InsertParams(fields)[9] == Bool(false)
  {
    var p := InsertParams(fields);
    forall i | 4 <= i <= 9 && InsertProperties[i] !in fields
      ensures p[i] == Defaults[InsertProperties[i]]
    {
    }
    assert Defaults["isActive"] == Bool(true) && Defaults["overDueSubscription"] == Bool(false);
    assert Defaults["fideRating"] == Null && Defaults["profilePhotoUrl"] == Null;
    assert Defaults["lichessProfile"] == Null && Defaults["chessComProfile"] == Null;
  }

  /** Every bound value of a valid body meets its property's constraint. */
  lemma InsertParamsValid(fields: map<string, Value>)
    requires ValidCreateBody(Obj(fields))
    ensures forall i :: 0 <= i < |InsertProperties| ==>
      PropertyOk(InsertProperties[i], InsertParams(fields)[i])
  {
    DefaultsSatisfySchema();
  }

  /** `fideProfile` is declared (with a default) but not bound: two bodies that differ only in it
      give the same INSERT. */
  lemma {:induction false} CreateIgnoresFideProfile(fields: map<string, Value>, v: Value)
    requires HasRequired(fields)
    ensures InsertParams(fields["fideProfile" := v]) == InsertParams(fields)
  {
    var a, b := InsertParams(fields["fideProfile" := v]), InsertParams(fields);
    forall i | 0 <= i < |InsertProperties| ensures a[i] == b[i] {
      assert InsertProperties[i] != "fideProfile";
    }
  }
}
