/** The partial update of `PATCH /members/:id`: empty strings in the body become null, in place,
    and the body's keys and values become a parameterised UPDATE statement. */
module MemberUpdate {

  import opened Wrappers
  import opened Json
  import opened SqlText
  import opened Store

  /** The value stored for a patch value: the empty string means "clear", so it becomes null;
      anything else, including other strings, is kept. */
  function Blank(v: Value): Value
  {
    if v == Str("") then Null else v
  }

  /** The body after normalisation: same keys in the same order, no empty string left, and
      every other value as it was */
  function Normalised(body: seq<Entry>): (r: seq<Entry>)
    ensures |r| == |body| && Keys(r) == Keys(body)
    ensures forall i :: 0 <= i < |r| ==> r[i].value != Str("")
    ensures forall i :: 0 <= i < |r| && body[i].value != Str("") ==> r[i].value == body[i].value
  {
    seq(|body|, i requires 0 <= i < |body| => Entry(body[i].key, Blank(body[i].value)))
  }

  /** Normalisation keeps the keys and their order. */
  lemma NormalisedKeepsKeys(body: seq<Entry>)
    ensures Keys(Normalised(body)) == Keys(body)
  {
  }

  /** After normalisation a value is null exactly where it was null or the empty string, and
      every other value is unchanged. */
  lemma NormalisedValues(body: seq<Entry>)
    ensures |Normalised(body)| == |body|
    ensures forall i :: 0 <= i < |body| ==>
      (Normalised(body)[i].value == Null <==> body[i].value in {Null, Str("")})
    ensures forall i :: 0 <= i < |body| && body[i].value != Str("") ==>
      Normalised(body)[i].value == body[i].value
  {
  }

  /** No empty string survives normalisation, and normalising twice is normalising once. */
  lemma NormalisedIdempotent(body: seq<Entry>)
    ensures forall i :: 0 <= i < |body| ==> Normalised(body)[i].value != Str("")
    ensures Normalised(Normalised(body)) == Normalised(body)
  {
  }

  /** The `forEach` over the body's keys that overwrites every `''` with `null` */
  method NormaliseBody(body: array<Entry>)
    modifies body
    ensures body[..] == Normalised(old(body[..]))
  {
    var i := 0;
    while i < body.Length
      invariant 0 <= i <= body.Length
      invariant forall j :: 0 <= j < i ==> body[j] == Entry(old(body[j]).key, Blank(old(body[j]).value))
      invariant forall j :: i <= j < body.Length ==> body[j] == old(body[j])
    {
      if body[i].value == Str("") {
        body[i] := Entry(body[i].key, Null);
      }
      i := i + 1;
    }
  }

  /** One entry of the SET clause: `column = $placeholder` */
  function Assignment(column: string, placeholder: nat): string
  {
    column + " = $" + Decimal(placeholder)
  }

  /** `keys.map((key, index) => `${toSnakeCase(key)} = $${index + 1}`)`, with `snake` standing
      for `toSnakeCase`: one assignment per key, the i-th (from 0) naming placeholder i + 1 */
  function Assignments(keys: seq<string>, snake: string -> string): (r: seq<string>)
    ensures |r| == |keys|
    ensures forall i :: 0 <= i < |r| ==> TrailingPlaceholder(r[i]) == Some(i + 1)
  {
    var r := seq(|keys|, i requires 0 <= i < |keys| => Assignment(snake(keys[i]), i + 1));
    assert forall i :: 0 <= i < |r| ==> TrailingPlaceholder(r[i]) == Some(i + 1) by {
      forall i | 0 <= i < |r| ensures TrailingPlaceholder(r[i]) == Some(i + 1) {
        EndsWithPlaceholder(snake(keys[i]) + " = ", i + 1);
        assert snake(keys[i]) + " = " + "$" + Decimal(i + 1) == r[i];
      }
    }
    r
  }

  /** The SET clause: empty only for no keys, and otherwise ending with the last key's
      placeholder, n for n keys */
  function SetClause(keys: seq<string>, snake: string -> string): (r: string)
    ensures r == "" <==> |keys| == 0
    ensures |keys| > 0 ==> TrailingPlaceholder(r) == Some(|keys|)
  {
    JoinedAssignmentsEnd(keys, snake);
    Join(Assignments(keys, snake))
  }

  /** Joined, the assignments end with the last one's placeholder. */
  lemma JoinedAssignmentsEnd(keys: seq<string>, snake: string -> string)
    ensures Join(Assignments(keys, snake)) == "" <==> |keys| == 0
    ensures |keys| > 0 ==> TrailingPlaceholder(Join(Assignments(keys, snake))) == Some(|keys|)
  {
    var parts := Assignments(keys, snake);
    if |keys| > 0 {
      var n := |keys|;
      assert |Join(parts)| >= |parts[n - 1]| >= 4;
      assert parts[n - 1] == snake(keys[n - 1]) + " = " + "$" + Decimal(n);
      JoinEndsWithPlaceholder(parts, snake(keys[n - 1]) + " = ", n);
    }
  }

  /** The UPDATE statement for a body with these keys: the SET clause, then a WHERE clause whose
      placeholder, n + 1 for n keys, follows the last assignment's */
  function UpdateSql(keys: seq<string>, snake: string -> string): (r: string)
    ensures "UPDATE members SET " + SetClause(keys, snake) <= r
    ensures TrailingPlaceholder(r) == Some(|keys| + 1)
  {
    var before := "UPDATE members SET " + SetClause(keys, snake) + " WHERE id = ";
    EndsWithPlaceholder(before, |keys| + 1);
    before + "$" + Decimal(|keys| + 1)
  }

  /** `[...Object.values(body), id]`: the body's values in key order, then the id */
  function UpdateValues(body: seq<Entry>, id: string): (r: seq<Value>)
    ensures |r| == |body| + 1 && r[|body|] == Str(id)
    ensures forall i :: 0 <= i < |body| ==> r[i] == body[i].value
  {
    ValuesOf(body) + [Str(id)]
  }

  /** The UPDATE the handler issues for an already normalised body */
  function UpdateQuery(body: seq<Entry>, id: string, snake: string -> string): Query
  {
    UpdateMember(UpdateSql(Keys(body), snake), UpdateValues(body, id))
  }

  /** The i-th assignment (from 0) sets the i-th key's column and names placeholder i + 1. */
  lemma AssignmentsNumberedInOrder(keys: seq<string>, snake: string -> string)
    ensures |Assignments(keys, snake)| == |keys|
    ensures forall i :: 0 <= i < |keys| ==>
      Assignments(keys, snake)[i] == snake(keys[i]) + " = $" + Decimal(i + 1)
      && TrailingPlaceholder(Assignments(keys, snake)[i]) == Some(i + 1)
  {
    var r := Assignments(keys, snake);
    forall i | 0 <= i < |keys| ensures r[i] == snake(keys[i]) + " = $" + Decimal(i + 1) {
    }
  }

  /** No two assignments name the same placeholder, and none names the WHERE clause's. */
  lemma PlaceholdersDistinct(keys: seq<string>, snake: string -> string, i: nat, j: nat)
    requires i < |keys| && j <= |keys| && i != j
    ensures TrailingPlaceholder(Assignments(keys, snake)[i])
         != TrailingPlaceholder(if j == |keys| then UpdateSql(keys, snake)
                                else Assignments(keys, snake)[j])
  {
    AssignmentsNumberedInOrder(keys, snake);
    WherePlaceholder(keys, snake);
  }

  /** The SET clause grows by one `, `-separated assignment per key, in key order. */
  lemma {:induction false} SetClauseAppends(keys: seq<string>, key: string, snake: string -> string)
    ensures SetClause([key], snake) == Assignment(snake(key), 1)
    ensures |keys| > 0 ==>
      SetClause(keys + [key], snake) == SetClause(keys, snake) + ", " + Assignment(snake(key), |keys| + 1)
  {
    assert Assignments([key], snake) == [Assignment(snake(key), 1)];
    if |keys| > 0 {
      assert Assignments(keys + [key], snake) == Assignments(keys, snake) + [Assignment(snake(key), |keys| + 1)];
      JoinSnoc(Assignments(keys, snake), Assignment(snake(key), |keys| + 1));
    }
  }

  /** The WHERE clause names placeholder n + 1 for a body of n keys. */
  lemma WherePlaceholder(keys: seq<string>, snake: string -> string)
    ensures TrailingPlaceholder(UpdateSql(keys, snake)) == Some(|keys| + 1)
  {
    var before := "UPDATE members SET " + SetClause(keys, snake) + " WHERE id = ";
    EndsWithPlaceholder(before, |keys| + 1);
    assert before + "$" + Decimal(|keys| + 1) == UpdateSql(keys, snake);
  }

  /** Every placeholder `$k`, k from 1 to n + 1, is bound to exactly one value: for k <= n the
      k-th assignment names it and it is bound to the k-th body value; the WHERE clause names
      n + 1 and it is bound to the id. */
  lemma EveryPlaceholderBound(body: seq<Entry>, id: string, snake: string -> string)
    ensures |UpdateValues(body, id)| == |body| + 1
    ensures forall k :: 1 <= k <= |body| ==>
      TrailingPlaceholder(Assignments(Keys(body), snake)[k - 1]) == Some(k)
      && UpdateValues(body, id)[k - 1] == body[k - 1].value
    ensures TrailingPlaceholder(UpdateSql(Keys(body), snake)) == Some(|body| + 1)
      && UpdateValues(body, id)[|body|] == Str(id)
  {
    var keys, vals := Keys(body), UpdateValues(body, id);
    assert |keys| == |body|;
    forall k | 1 <= k <= |body|
      ensures TrailingPlaceholder(Assignments(keys, snake)[k - 1]) == Some(k)
      ensures vals[k - 1] == body[k - 1].value
    {
    }
  }

  /** The UPDATE of a normalised body binds `$k` to the k-th key's blanked value and `$(n + 1)` to
      the id. */
  lemma UpdateBindsNormalised(body: seq<Entry>, id: string, snake: string -> string)
    ensures var q := UpdateQuery(Normalised(body), id, snake);
      |q.params| == |body| + 1
      && (forall k :: 1 <= k <= |body| ==>
            TrailingPlaceholder(Assignments(Keys(body), snake)[k - 1]) == Some(k)
            && q.params[k - 1] == Blank(body[k - 1].value))
      && TrailingPlaceholder(q.sql) == Some(|body| + 1)
      && q.params[|body|] == Str(id)
  {
    var n := Normalised(body);
    assert Keys(n) == Keys(body);
    forall i | 0 <= i < |body| ensures UpdateValues(n, id)[i] == Blank(body[i].value) {
      assert UpdateValues(n, id)[i] == n[i].value;
    }
  }
}
