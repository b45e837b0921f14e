/** The pieces that the two fixed-rule patient-form mappers share: the three
    required fields and the test that a field is missing, the
    "Missing required field" messages, and the display rules for a value in
    the generated report (Yes/No for booleans, truncation with "..."). */
module PatientForms {
  import opened Python

  /** The fields both mappers require, in the order they are checked. */
  const RequiredPatientFields: seq<string> := ["patient_name", "patient_id", "date_of_birth"]

  function MissingFieldMessage(field: string): string {
    "Missing required field: " + field
  }

  /** A field is missing when it is absent or holds a blank string; `str()`
      of an int, a bool or None is never blank, so only strings can be blank
      (`IsMissingIffStrippedEmpty`). */
  predicate IsMissing(data: Record, field: string) {
    match Lookup(data, field)
    case None => true
    case Some(v) => v.Str? && IsBlank(v.s)
  }

  /** The mappers' own test, `field not in data or not str(data[field]).strip()`. */
  lemma IsMissingIffStrippedEmpty(data: Record, field: string)
    ensures IsMissing(data, field) <==> !HasKey(data, field) || IsBlank(ToStr(Lookup(data, field).value))
  {
    if HasKey(data, field) && !Lookup(data, field).value.Str? {
      NonStringNeverBlank(Lookup(data, field).value);
    }
  }

  /** The messages of the required-field loop over `fields`, in loop order. */
  function MissingMessages(data: Record, fields: seq<string>): seq<string> {
    if fields == [] then []
    else
      var last := fields[|fields| - 1];
      MissingMessages(data, fields[..|fields| - 1]) + (if IsMissing(data, last) then [MissingFieldMessage(last)] else [])
  }

  /** Different fields give different messages. */
  lemma MissingFieldMessageInjective(a: string, b: string)
    ensures MissingFieldMessage(a) == MissingFieldMessage(b) ==> a == b
  {
    var prefix := "Missing required field: ";
    if MissingFieldMessage(a) == MissingFieldMessage(b) {
      assert a == MissingFieldMessage(a)[|prefix|..];
      assert b == MissingFieldMessage(b)[|prefix|..];
    }
  }

  /** The loop records at most one message per field checked: a field's
      message occurs as many times as the field is listed when it is
      missing, and not at all otherwise. */
  lemma {:induction false} MissingMessagesCount(data: Record, fields: seq<string>, f: string)
    ensures |MissingMessages(data, fields)| <= |fields|
    ensures multiset(MissingMessages(data, fields))[MissingFieldMessage(f)]
            == if IsMissing(data, f) then multiset(fields)[f] else 0
  {
    if fields != [] {
      var init := fields[..|fields| - 1];
      var last := fields[|fields| - 1];
      assert fields == init + [last];
      MissingMessagesCount(data, init, f);
      MissingFieldMessageInjective(f, last);
      var tail := if IsMissing(data, last) then [MissingFieldMessage(last)] else [];
      assert multiset(MissingMessages(data, fields)) == multiset(MissingMessages(data, init)) + multiset(tail);
      assert multiset(fields) == multiset(init) + multiset([last]);
    }
  }

  /** One more field checked at the end of the loop. */
  lemma MissingMessagesSnoc(data: Record, fields: seq<string>, f: string)
    ensures MissingMessages(data, fields + [f])
            == MissingMessages(data, fields) + (if IsMissing(data, f) then [MissingFieldMessage(f)] else [])
  {
    assert (fields + [f])[..|fields|] == fields;
  }

  /** The loop records a field's message exactly when the field is one of
      those checked and it is missing. */
  lemma {:induction false} MissingMessagesIff(data: Record, fields: seq<string>, f: string)
    ensures MissingFieldMessage(f) in MissingMessages(data, fields) <==> f in fields && IsMissing(data, f)
  {
    if fields != [] {
      var init := fields[..|fields| - 1];
      var last := fields[|fields| - 1];
      assert fields == init + [last];
      MissingMessagesIff(data, init, f);
      MissingFieldMessageInjective(f, last);
      MissingMessagesSnoc(data, init, last);
      var tail := if IsMissing(data, last) then [MissingFieldMessage(last)] else [];
      assert MissingFieldMessage(f) in tail <==> f == last && IsMissing(data, last);
      assert f in fields <==> f in init || f == last;
    }
  }

  /** Over the three required fields: name, number and birth date, each one
      message when missing, in that order. */
  lemma MissingRequiredInOrder(data: Record)
    ensures MissingMessages(data, RequiredPatientFields)
            == (if IsMissing(data, "patient_name") then [MissingFieldMessage("patient_name")] else [])
               + (if IsMissing(data, "patient_id") then [MissingFieldMessage("patient_id")] else [])
               + (if IsMissing(data, "date_of_birth") then [MissingFieldMessage("date_of_birth")] else [])
  {
    MissingMessagesOfThree(data, "patient_name", "patient_id", "date_of_birth");
  }

  lemma MissingMessagesOfThree(data: Record, a: string, b: string, c: string)
    ensures MissingMessages(data, [a, b, c])
            == (if IsMissing(data, a) then [MissingFieldMessage(a)] else [])
               + (if IsMissing(data, b) then [MissingFieldMessage(b)] else [])
               + (if IsMissing(data, c) then [MissingFieldMessage(c)] else [])
  {
    var first := if IsMissing(data, a) then [MissingFieldMessage(a)] else [];
    var second := if IsMissing(data, b) then [MissingFieldMessage(b)] else [];
    var third := if IsMissing(data, c) then [MissingFieldMessage(c)] else [];
    assert MissingMessages(data, [a]) == first by {
      assert [a][..0] == [];
    }
    assert MissingMessages(data, [a, b]) == first + second by {
      assert [a, b][..1] == [a];
    }
    assert [a, b, c][..2] == [a, b];
  }

  /** No message at all exactly when none of the checked fields is missing. */
  lemma MissingMessagesEmptyIff(data: Record, fields: seq<string>)
    ensures MissingMessages(data, fields) == [] <==> forall f :: f in fields ==> !IsMissing(data, f)
  {
    if MissingMessages(data, fields) == [] {
      forall f | f in fields ensures !IsMissing(data, f) {
        MissingMessagesIff(data, fields, f);
      }
    } else {
      var m := MissingMessages(data, fields)[0];
      MissingMessagesMember(data, fields, m);
    }
  }

  /** Every recorded message names a checked field that is missing. */
  lemma {:induction false} MissingMessagesMember(data: Record, fields: seq<string>, m: string)
    requires m in MissingMessages(data, fields)
    ensures exists f :: f in fields && IsMissing(data, f) && m == MissingFieldMessage(f)
  {
    var init := fields[..|fields| - 1];
    var last := fields[|fields| - 1];
    if m in MissingMessages(data, init) {
      MissingMessagesMember(data, init, m);
      var f :| f in init && IsMissing(data, f) && m == MissingFieldMessage(f);
      assert f in fields;
    } else {
      assert last in fields;
    }
  }

  /** No key other than the checked fields is looked at. */
  lemma {:induction false} MissingMessagesOnlyReadFields(d1: Record, d2: Record, fields: seq<string>)
    requires forall f :: f in fields ==> Lookup(d1, f) == Lookup(d2, f)
    ensures MissingMessages(d1, fields) == MissingMessages(d2, fields)
  {
    if fields != [] {
      var init := fields[..|fields| - 1];
      assert forall f :: f in init ==> f in fields;
      MissingMessagesOnlyReadFields(d1, d2, init);
      assert fields[|fields| - 1] in fields;
    }
  }

  // ---------------------------------------------------------------------------
  // The first entries of the built-in samples

  /** The first five entries of every built-in sample of both mappers: name,
      number, birth date, gender and whether there is an emergency contact. */
  function IdentityEntries(name: string, id: string, dob: string, gender: string, emergency: bool): Record {
    [("patient_name", Str(name)), ("patient_id", Str(id)), ("date_of_birth", Str(dob)), ("gender", Str(gender)),
     ("emergency_contact", Bool(emergency))]
  }

  lemma IdentityLookups(name: string, id: string, dob: string, gender: string, emergency: bool)
    ensures var h := IdentityEntries(name, id, dob, gender, emergency);
            && Lookup(h, "patient_name") == Some(Str(name))
            && Lookup(h, "patient_id") == Some(Str(id))
            && Lookup(h, "date_of_birth") == Some(Str(dob))
  {
    var h := IdentityEntries(name, id, dob, gender, emergency);
    assert |"patient_name"| == 12 && |"patient_id"| == 10 && |"date_of_birth"| == 13;
    LookupAt(h, 0, "patient_name");
    LookupAt(h, 1, "patient_id");
    LookupAt(h, 2, "date_of_birth");
  }

  /** Whatever follows the identity entries, non-blank name, number and
      birth date pass the required check, and the number is found as given. */
  lemma IdentityPresent(name: string, id: string, dob: string, gender: string, emergency: bool, rest: Record)
    requires !IsBlank(name) && !IsBlank(id) && !IsBlank(dob)
    ensures MissingMessages(IdentityEntries(name, id, dob, gender, emergency) + rest, RequiredPatientFields) == []
    ensures Lookup(IdentityEntries(name, id, dob, gender, emergency) + rest, "patient_id") == Some(Str(id))
  {
    var h := IdentityEntries(name, id, dob, gender, emergency);
    IdentityLookups(name, id, dob, gender, emergency);
    LookupConcat(h, rest, "patient_name");
    LookupConcat(h, rest, "patient_id");
    LookupConcat(h, rest, "date_of_birth");
    MissingRequiredInOrder(h + rest);
  }

  // ---------------------------------------------------------------------------
  // Display rules

  /** `"Yes" if value else "No"` for a bool, `str(value)` otherwise. */
  function DisplayText(v: Value): string {
    if v.Bool? then (if v.b then "Yes" else "No") else ToStr(v)
  }

  /** The display differs from `str(value)` exactly for booleans. */
  lemma DisplayTextIsStrUnlessBool(v: Value)
    ensures DisplayText(v) == ToStr(v) <==> !v.Bool?
  {
  }

  /** `s[:limit - 3] + "..."` when s is longer than the limit: the result
      never exceeds the limit, keeps the start of s and ends in an ellipsis;
      a string within the limit is unchanged. */
  function Truncate(s: string, limit: nat): (r: string)
    requires limit >= 3
    ensures |r| <= limit
    ensures |s| <= limit ==> r == s
    ensures |s| > limit ==> |r| == limit && r[..limit - 3] == s[..limit - 3] && r[limit - 3..] == "..."
  {
    if |s| > limit then s[..limit - 3] + "..." else s
  }
}
