/** The console demo's patient-form mapper: a validator that checks only the
    three required fields, the rows of its PDF report (eight labelled keys,
    Yes/No for booleans, 50-character truncation), its built-in sample, and
    the conversion of the answers typed in the interactive test into a
    record. */
module SimpleDemo {
  import opened Python
  import opened PatientForms

  // ---------------------------------------------------------------------------
  // Validation: the required-field loop and nothing else

  class SimpleMapper {
    var validationErrors: seq<string>

    constructor()
      ensures validationErrors == []
    {
      validationErrors := [];
    }

    /** `validate_data(data)`: clears the list, records one message per
        missing required field in field order and accepts exactly when there
        is none. */
    method ValidateData(data: Record) returns (ok: bool)
      modifies this
      ensures validationErrors == MissingMessages(data, RequiredPatientFields)
      ensures ok <==> validationErrors == []
    {
      validationErrors := [];
      for i := 0 to |RequiredPatientFields|
        invariant validationErrors == MissingMessages(data, RequiredPatientFields[..i])
      {
        var field := RequiredPatientFields[i];
        assert RequiredPatientFields[..i + 1] == RequiredPatientFields[..i] + [field];
        MissingMessagesSnoc(data, RequiredPatientFields[..i], field);
        var value := Lookup(data, field);
        IsMissingIffStrippedEmpty(data, field);
        if value.None? || IsBlank(ToStr(value.value)) {
          validationErrors := validationErrors + [MissingFieldMessage(field)];
        }
      }
      assert RequiredPatientFields[..|RequiredPatientFields|] == RequiredPatientFields;
      ok := |validationErrors| == 0;
    }
  }

  /** Only the presence of the three required fields decides the verdict:
      two records whose required fields are missing alike get the same
      messages, whatever their values, formats and other keys. */
  lemma VerdictOnlyPresence(d1: Record, d2: Record)
    requires forall f :: f in RequiredPatientFields ==> IsMissing(d1, f) == IsMissing(d2, f)
    ensures MissingMessages(d1, RequiredPatientFields) == MissingMessages(d2, RequiredPatientFields)
  {
    assert "patient_name" in RequiredPatientFields && "patient_id" in RequiredPatientFields;
    assert "date_of_birth" in RequiredPatientFields;
    MissingRequiredInOrder(d1);
    MissingRequiredInOrder(d2);
  }

  // ---------------------------------------------------------------------------
  // The rows of the PDF report (`generate_simple_pdf`)

  /** The label of a key in the report; keys without one get no row. */
  function SimpleLabel(key: string): Option<string> {
    match key
    case "patient_name" => Some("Patient Name")
    case "patient_id" => Some("Patient ID")
    case "date_of_birth" => Some("Date of Birth")
    case "gender" => Some("Gender")
    case "emergency_contact" => Some("Emergency Contact")
    case "phone" => Some("Phone Number")
    case "address" => Some("Address")
    case "insurance_number" => Some("Insurance Number")
    case _ => None
  }

  /** The keys the report has a label for. */
  const SimpleLabelledKeys: seq<string> :=
    ["patient_name", "patient_id", "date_of_birth", "gender", "emergency_contact", "phone", "address", "insurance_number"]

  /** A row: the label followed by ':', and the value text. */
  datatype SimpleRow = SimpleRow(caption: string, text: string)

  /** The row drawn for an entry with a label. Unlike the web report, a
      None value gets a row too (showing "None"). */
  function SimpleRowOf(entry: (string, Value)): SimpleRow
    requires SimpleLabel(entry.0).Some?
  {
    SimpleRow(SimpleLabel(entry.0).value + ":", Truncate(DisplayText(entry.1), 50))
  }

  /** The rows, one per labelled entry, in the order of `data.items()`. */
  function SimpleRows(data: Record): seq<SimpleRow> {
    if data == [] then []
    else (if SimpleLabel(data[0].0).Some? then [SimpleRowOf(data[0])] else []) + SimpleRows(data[1..])
  }

  /** Exactly the eight listed keys have a label. */
  lemma SimpleLabelIff(key: string)
    ensures SimpleLabel(key).Some? <==> key in SimpleLabelledKeys
  {
  }

  /** The facts of one row: the caption is the label and a colon; the text
      holds at most 50 characters, is Yes/No for a bool, is the display text
      itself when that fits, or else its first 47 characters and "...". */
  lemma SimpleRowFacts(entry: (string, Value))
    requires SimpleLabel(entry.0).Some?
    ensures var row, text := SimpleRowOf(entry), DisplayText(entry.1);
            && row.caption == SimpleLabel(entry.0).value + ":"
            && |row.text| <= 50
            && (|text| <= 50 ==> row.text == text)
            && (|text| > 50 ==> |row.text| == 50 && row.text == text[..47] + "...")
            && (entry.1.Bool? ==> row.text == if entry.1.b then "Yes" else "No")
            && (!entry.1.Bool? ==> text == ToStr(entry.1))
  {
    var text := DisplayText(entry.1);
    if |text| > 50 {
      assert text[..47] + "..." == Truncate(text, 50);
    }
  }

  /** The rows of two records one after the other are the rows of the
      first followed by those of the second: rows come in data order. */
  lemma {:induction false} SimpleRowsConcat(a: Record, b: Record)
    ensures SimpleRows(a + b) == SimpleRows(a) + SimpleRows(b)
  {
    if a != [] {
      var head := if SimpleLabel(a[0].0).Some? then [SimpleRowOf(a[0])] else [];
      assert (a + b)[0] == a[0] && (a + b)[1..] == a[1..] + b;
      assert SimpleRows(a + b) == head + SimpleRows(a[1..] + b);
      SimpleRowsConcat(a[1..], b);
      AppendAssociative(head, SimpleRows(a[1..]), SimpleRows(b));
    } else {
      assert a + b == b;
    }
  }

  /** A row is in the report exactly when some labelled entry draws it, and
      there are never more rows than entries. */
  lemma {:induction false} SimpleRowsMembers(data: Record, row: SimpleRow)
    ensures |SimpleRows(data)| <= |data|
    ensures row in SimpleRows(data) <==> exists i :: 0 <= i < |data| && SimpleLabel(data[i].0).Some? && row == SimpleRowOf(data[i])
  {
    if data != [] {
      SimpleRowsMembers(data[1..], row);
      if row in SimpleRows(data[1..]) {
        var i :| 0 <= i < |data[1..]| && SimpleLabel(data[1..][i].0).Some? && row == SimpleRowOf(data[1..][i]);
        assert data[i + 1] == data[1..][i];
      }
      if exists i :: 0 <= i < |data| && SimpleLabel(data[i].0).Some? && row == SimpleRowOf(data[i]) {
        var i :| 0 <= i < |data| && SimpleLabel(data[i].0).Some? && row == SimpleRowOf(data[i]);
        if i > 0 {
          assert data[1..][i - 1] == data[i];
        }
      }
    }
  }

  // ---------------------------------------------------------------------------
  // The built-in sample (`create_sample_data`)

  const SimpleSample: Record :=
    IdentityEntries("John Smith", "P67890", "1985-03-22", "Male", true)
    + [("phone", Str("+1-555-987-6543")), ("address", Str("123 Main Street, Anytown, NY 12345")),
       ("insurance_number", Str("INS123456789"))]

  /** The sample passes `validate_data`. */
  lemma SimpleSamplePasses()
    ensures MissingMessages(SimpleSample, RequiredPatientFields) == []
  {
    SimpleSampleValues();
    IdentityPresent("John Smith", "P67890", "1985-03-22", "Male", true,
      [("phone", Str("+1-555-987-6543")), ("address", Str("123 Main Street, Anytown, NY 12345")),
       ("insurance_number", Str("INS123456789"))]);
  }

  lemma SimpleSampleValues()
    ensures !IsBlank("John Smith") && !IsBlank("P67890") && !IsBlank("1985-03-22")
  {
    NotBlankWhenLeadingText("John Smith");
    NotBlankWhenLeadingText("P67890");
    NotBlankWhenLeadingText("1985-03-22");
  }

  // ---------------------------------------------------------------------------
  // The interactive test: typed answers become a record

  const TrueWords: seq<string> := ["true", "yes", "1"]
  const FalseWords: seq<string> := ["false", "no", "0"]

  /** One answer: stripped; nothing when that leaves it empty; True or False
      for the boolean words in any case; the stripped text otherwise. */
  function ConvertInput(raw: string): Option<Value> {
    ConvertStripped(Strip(raw))
  }

  /** What happens to the answer once it is stripped. */
  function ConvertStripped(value: string): Option<Value> {
    if value == "" then None
    else if Lower(value) in TrueWords then Some(Bool(true))
    else if Lower(value) in FalseWords then Some(Bool(false))
    else Some(Str(value))
  }

  /** An answer is left out exactly when it is blank, and a stored value is
      never blank: a typed "0" or "no" is stored as False, which the
      required check counts as present. */
  lemma ConvertInputPresence(raw: string)
    ensures ConvertInput(raw).None? <==> IsBlank(raw)
    ensures ConvertInput(raw).Some? ==> !IsBlank(ToStr(ConvertInput(raw).value))
  {
    var value := Strip(raw);
    StripIdempotent(raw);
    match ConvertInput(raw)
    case None =>
    case Some(v) =>
      if v.Str? {
        assert v.s == value;
      } else {
        NonStringNeverBlank(v);
      }
  }

  /** The kinds of stored value: a bool exactly for the boolean words, and
      otherwise the stripped text. */
  lemma ConvertInputKinds(raw: string)
    ensures ConvertInput(raw) == Some(Bool(true)) <==> Lower(Strip(raw)) in TrueWords
    ensures ConvertInput(raw) == Some(Bool(false)) <==> Lower(Strip(raw)) in FalseWords
    ensures ConvertInput(raw).Some? && ConvertInput(raw).value.Str? ==>
              ConvertInput(raw).value.s == Strip(raw) && Lower(Strip(raw)) !in TrueWords + FalseWords
  {
    StrippedKinds(Strip(raw));
  }

  lemma StrippedKinds(value: string)
    ensures ConvertStripped(value) == Some(Bool(true)) <==> Lower(value) in TrueWords
    ensures ConvertStripped(value) == Some(Bool(false)) <==> Lower(value) in FalseWords
    ensures ConvertStripped(value).Some? && ConvertStripped(value).value.Str? ==>
              ConvertStripped(value).value.s == value && Lower(value) !in TrueWords + FalseWords
  {
    assert Lower("") == "";
  }

  /** Typing back what a stored value prints as stores the same value:
      `str(True)` is "True", `str(False)` is "False", and stored text is
      already stripped and not a boolean word. */
  lemma ConvertInputRoundTrip(raw: string)
    requires ConvertInput(raw).Some?
    ensures ConvertInput(ToStr(ConvertInput(raw).value)) == ConvertInput(raw)
  {
    var v := ConvertInput(raw).value;
    ConvertInputKinds(raw);
    if v.Str? {
      StoredTextRoundTrip(raw);
    } else {
      assert v == Bool(true) || v == Bool(false);
      BoolWordsRoundTrip();
    }
  }

  lemma StoredTextRoundTrip(raw: string)
    requires ConvertInput(raw).Some? && ConvertInput(raw).value.Str?
    ensures ConvertInput(ConvertInput(raw).value.s) == ConvertInput(raw)
  {
    StripIdempotent(raw);
  }

  lemma BoolWordsRoundTrip()
    ensures ConvertInput("True") == Some(Bool(true))
    ensures ConvertInput("False") == Some(Bool(false))
  {
    TrueRoundTrip();
    FalseRoundTrip();
  }

  lemma TrueRoundTrip()
    ensures ConvertInput("True") == Some(Bool(true))
  {
    StripUntrimmed("True");
    TrueClassified();
  }

  lemma FalseRoundTrip()
    ensures ConvertInput("False") == Some(Bool(false))
  {
    StripUntrimmed("False");
    FalseClassified();
  }

  lemma TrueClassified()
    ensures ConvertStripped("True") == Some(Bool(true))
  {
    LowerTo("True", TrueWords[0]);
  }

  lemma FalseClassified()
    ensures ConvertStripped("False") == Some(Bool(false))
  {
    LowerTo("False", FalseWords[0]);
  }

  /** The questions asked, in order. */
  const CustomFields: seq<string> := ["patient_name", "patient_id", "date_of_birth", "gender", "phone", "address"]

  /** The converted answers, one per question. */
  function Converted(answers: seq<string>): (r: seq<Option<Value>>)
    ensures |r| == |answers|
  {
    if answers == [] then [] else Converted(answers[..|answers| - 1]) + [ConvertInput(answers[|answers| - 1])]
  }

  lemma {:induction false} ConvertedAt(answers: seq<string>, i: int)
    requires 0 <= i < |answers|
    ensures Converted(answers)[i] == ConvertInput(answers[i])
  {
    var n := |answers| - 1;
    assert Converted(answers) == Converted(answers[..n]) + [ConvertInput(answers[n])];
    if i < n {
      ConvertedAt(answers[..n], i);
      assert answers[..n][i] == answers[i];
    }
  }

  /** The record the loop builds from the converted answers to `fields`, in
      order: each value that is there is stored under its field. */
  function Stored(fields: seq<string>, values: seq<Option<Value>>): Record
    requires |fields| == |values|
  {
    if fields == [] then []
    else
      var n := |fields| - 1;
      var prior := Stored(fields[..n], values[..n]);
      match values[n]
      case None => prior
      case Some(v) => Assign(prior, fields[n], v)
  }

  /** The record built from the answers to the six questions. */
  function CustomData(answers: seq<string>): Record
    requires |answers| == |CustomFields|
  {
    Stored(CustomFields, Converted(answers))
  }

  /** The loop of the interactive test; `answers[i]` is what `input()`
      returned for the i-th question. */
  method BuildCustomData(answers: seq<string>) returns (customData: Record)
    requires |answers| == |CustomFields|
    ensures customData == CustomData(answers)
  {
    customData := [];
    for i := 0 to |CustomFields|
      invariant customData == Stored(CustomFields[..i], Converted(answers[..i]))
    {
      var field := CustomFields[i];
      var value := ConvertInput(answers[i]);
      StoredStep(CustomFields, answers, i);
      if value.Some? {
        customData := Assign(customData, field, value.value);
      }
    }
    assert CustomFields[..|CustomFields|] == CustomFields;
    assert answers[..|answers|] == answers;
  }

  /** One more question answered at the end of the loop. */
  lemma StoredStep(fields: seq<string>, answers: seq<string>, i: int)
    requires |fields| == |answers| && 0 <= i < |fields|
    ensures Stored(fields[..i + 1], Converted(answers[..i + 1]))
            == match ConvertInput(answers[i])
               case None => Stored(fields[..i], Converted(answers[..i]))
               case Some(v) => Assign(Stored(fields[..i], Converted(answers[..i])), fields[i], v)
  {
    assert fields[..i + 1][..i] == fields[..i];
    assert answers[..i + 1][..i] == answers[..i];
    assert answers[..i + 1][i] == answers[i];
  }

  /** With distinct fields, each field holds its own value (or is absent
      when there is none), and no other key is stored. */
  lemma {:induction false} StoredLookup(fields: seq<string>, values: seq<Option<Value>>, key: string)
    requires |fields| == |values|
    requires forall i, j :: 0 <= i < j < |fields| ==> fields[i] != fields[j]
    ensures forall i :: 0 <= i < |fields| && fields[i] == key ==> Lookup(Stored(fields, values), key) == values[i]
    ensures key !in fields ==> Lookup(Stored(fields, values), key) == None
  {
    if fields != [] {
      var n := |fields| - 1;
      var prior := Stored(fields[..n], values[..n]);
      StoredLookup(fields[..n], values[..n], key);
      if values[n].Some? {
        AssignLookup(prior, fields[n], values[n].value, key);
      }
      forall i | 0 <= i < |fields| && fields[i] == key
        ensures Lookup(Stored(fields, values), key) == values[i]
      {
        if i < n {
          assert fields[..n][i] == key && values[..n][i] == values[i];
        } else {
          assert key !in fields[..n];
        }
      }
      assert key !in fields ==> key !in fields[..n] && key != fields[n];
    }
  }

  /** Each question's field holds its converted answer, and the record has
      no key that was not asked. */
  lemma CustomDataLookup(answers: seq<string>, i: int, key: string)
    requires |answers| == |CustomFields| && 0 <= i < |CustomFields|
    ensures Lookup(CustomData(answers), CustomFields[i]) == ConvertInput(answers[i])
    ensures key !in CustomFields ==> !HasKey(CustomData(answers), key)
  {
    assert forall i, j :: 0 <= i < j < |CustomFields| ==> CustomFields[i] != CustomFields[j];
    StoredLookup(CustomFields, Converted(answers), CustomFields[i]);
    StoredLookup(CustomFields, Converted(answers), key);
    ConvertedAt(answers, i);
  }

  /** The typed record passes `validate_data` exactly when none of the first
      three answers (name, number, birth date) is blank. */
  lemma CustomDataAcceptedIff(answers: seq<string>)
    requires |answers| == |CustomFields|
    ensures MissingMessages(CustomData(answers), RequiredPatientFields) == []
            <==> !IsBlank(answers[0]) && !IsBlank(answers[1]) && !IsBlank(answers[2])
  {
    RequiredAnswer(answers, 0);
    RequiredAnswer(answers, 1);
    RequiredAnswer(answers, 2);
    MissingMessagesEmptyIff(CustomData(answers), RequiredPatientFields);
  }

  /** A required field of the typed record is missing exactly when its
      answer was blank. */
  lemma RequiredAnswer(answers: seq<string>, k: int)
    requires |answers| == |CustomFields| && 0 <= k < 3
    ensures IsMissing(CustomData(answers), RequiredPatientFields[k]) <==> IsBlank(answers[k])
  {
    assert CustomFields[k] == RequiredPatientFields[k];
    CustomDataLookup(answers, k, RequiredPatientFields[k]);
    ConvertInputPresence(answers[k]);
    IsMissingIffStrippedEmpty(CustomData(answers), RequiredPatientFields[k]);
  }

  /** Typing "0" as the patient number stores False, and the number still
      counts as present. */
  lemma ZeroPatientIdPresent(answers: seq<string>)
    requires |answers| == |CustomFields| && answers[1] == "0"
    ensures Lookup(CustomData(answers), "patient_id") == Some(Bool(false))
    ensures !IsMissing(CustomData(answers), "patient_id")
  {
    CustomDataLookup(answers, 1, "patient_id");
    ZeroIsFalse();
  }

  lemma ZeroIsFalse()
    ensures ConvertInput("0") == Some(Bool(false))
  {
    StripUntrimmed("0");
    ZeroClassified();
  }

  lemma ZeroClassified()
    ensures ConvertStripped("0") == Some(Bool(false))
  {
    LowerTo("0", FalseWords[2]);
    assert TrueWords[2][0] != '0';
  }
}
