/** The English patient-form mapper of the web demo: a validator with fixed
    rules (the three required fields, the patient-number format, and the
    phone, e-mail and insurance-number checks that apply only to a value
    that is given), the rows its PDF report shows, and its four built-in
    sample records. */
module StreamlitApp {
  import opened Python
  import opened Patterns
  import opened PatientForms

  const IdFormatMessage := "Patient ID must start with 'P' followed by numbers (e.g., P12345)"
  const PhoneMessage := "Phone number contains invalid characters"
  const EmailMessage := "Invalid email format"
  const InsuranceMessage := "Insurance number too short"

  /** `data.get(key)` is truthy, for the value found under the key. */
  predicate Given(found: Option<Value>) {
    found.Some? && Truthy(found.value)
  }

  /** The number check, on the value under "patient_id": it applies whenever
      the key is there, even to a blank value. */
  function IdMessages(id: Option<Value>): seq<string> {
    if id.Some? && !Match(PatientNumber, ToStr(id.value)) then [IdFormatMessage] else []
  }

  /** The phone check, on the value under "phone". */
  function PhoneMessages(phone: Option<Value>): seq<string> {
    if Given(phone) && !Match(PhoneChars, ToStr(phone.value)) then [PhoneMessage] else []
  }

  /** The e-mail check, on the value under "email". */
  function EmailMessages(email: Option<Value>): seq<string> {
    if Given(email) && !Match(EmailAddress, ToStr(email.value)) then [EmailMessage] else []
  }

  /** The insurance check, on the value under "insurance_number". */
  function InsuranceMessages(insurance: Option<Value>): seq<string> {
    if Given(insurance) && |ToStr(insurance.value)| < 5 then [InsuranceMessage] else []
  }

  /** The messages of the format checks, in the order they are made. */
  function FormatMessages(data: Record): seq<string> {
    IdMessages(Lookup(data, "patient_id")) + PhoneMessages(Lookup(data, "phone")) + EmailMessages(Lookup(data, "email"))
    + InsuranceMessages(Lookup(data, "insurance_number"))
  }

  /** The messages `validate_data` leaves, in the order it records them. */
  function EnglishMessages(data: Record): seq<string> {
    MissingMessages(data, RequiredPatientFields) + FormatMessages(data)
  }

  // ---------------------------------------------------------------------------
  // What the messages say

  /** A message is recorded exactly when one of the five checks records it. */
  lemma EnglishMessagesMembers(data: Record, m: string)
    ensures m in EnglishMessages(data)
            <==> || m in MissingMessages(data, RequiredPatientFields)
                 || m in IdMessages(Lookup(data, "patient_id")) || m in PhoneMessages(Lookup(data, "phone"))
                 || m in EmailMessages(Lookup(data, "email")) || m in InsuranceMessages(Lookup(data, "insurance_number"))
  {
  }

  /** The four format messages differ from each other and from every
      "Missing required field" message of the three required fields (their
      lengths already differ). */
  lemma FixedMessagesDistinct(data: Record)
    ensures IdFormatMessage !in MissingMessages(data, RequiredPatientFields)
    ensures PhoneMessage !in MissingMessages(data, RequiredPatientFields)
    ensures EmailMessage !in MissingMessages(data, RequiredPatientFields)
    ensures InsuranceMessage !in MissingMessages(data, RequiredPatientFields)
    ensures IdFormatMessage != PhoneMessage && IdFormatMessage != EmailMessage && IdFormatMessage != InsuranceMessage
    ensures PhoneMessage != EmailMessage && PhoneMessage != InsuranceMessage && EmailMessage != InsuranceMessage
  {
    assert |IdFormatMessage| == 65 && |PhoneMessage| == 40 && |EmailMessage| == 20 && |InsuranceMessage| == 26;
    assert forall f :: f in RequiredPatientFields ==> 34 <= |MissingFieldMessage(f)| <= 37;
    NotAMissingMessage(data, RequiredPatientFields, IdFormatMessage);
    NotAMissingMessage(data, RequiredPatientFields, PhoneMessage);
    NotAMissingMessage(data, RequiredPatientFields, EmailMessage);
    NotAMissingMessage(data, RequiredPatientFields, InsuranceMessage);
  }

  /** A text that names none of the fields is not among their messages. */
  lemma NotAMissingMessage(data: Record, fields: seq<string>, m: string)
    requires forall f :: f in fields ==> MissingFieldMessage(f) != m
    ensures m !in MissingMessages(data, fields)
  {
    if m in MissingMessages(data, fields) {
      MissingMessagesMember(data, fields, m);
    }
  }

  /** A required field gets its message exactly when it is absent or blank. */
  lemma EnglishMissingIff(data: Record, f: string)
    requires f in RequiredPatientFields
    ensures MissingFieldMessage(f) in EnglishMessages(data) <==> IsMissing(data, f)
  {
    EnglishMessagesMembers(data, MissingFieldMessage(f));
    MissingMessagesIff(data, RequiredPatientFields, f);
    assert MissingFieldMessage(f)[0] == 'M';
  }

  /** The number message is recorded exactly when the key is there and its
      text is not 'P' followed by digits. */
  lemma IdFormatIff(data: Record)
    ensures IdFormatMessage in EnglishMessages(data)
            <==> HasKey(data, "patient_id") && !Match(PatientNumber, ToStr(Lookup(data, "patient_id").value))
  {
    EnglishMessagesMembers(data, IdFormatMessage);
    FixedMessagesDistinct(data);
  }

  /** A blank patient_id is both missing and badly formatted: two messages. */
  lemma BlankIdTwoMessages(data: Record)
    requires HasKey(data, "patient_id") && IsBlank(ToStr(Lookup(data, "patient_id").value))
    ensures MissingFieldMessage("patient_id") in EnglishMessages(data)
    ensures IdFormatMessage in EnglishMessages(data)
  {
    var t := ToStr(Lookup(data, "patient_id").value);
    IsMissingIffStrippedEmpty(data, "patient_id");
    EnglishMissingIff(data, "patient_id");
    BlankNotPatientNumber(t);
    IdFormatIff(data);
  }

  /** No blank string is 'P' followed by digits. */
  lemma BlankNotPatientNumber(t: string)
    requires IsBlank(t)
    ensures !Match(PatientNumber, t)
  {
    BlankIffAllSpace(t);
    if |t| > 0 {
      assert IsSpace(t[0]);
    }
  }

  /** `str()` of a truthy value is never empty. */
  lemma TruthyTextNonEmpty(v: Value)
    requires Truthy(v)
    ensures |ToStr(v)| > 0
  {
  }

  /** The phone message is recorded exactly when a phone number is given and
      one of its characters is not a digit, '+', '-', '(', ')' or
      whitespace; there is no minimum length. */
  lemma PhoneIff(data: Record)
    ensures PhoneMessage in EnglishMessages(data)
            <==> Given(Lookup(data, "phone"))
                 && exists i :: 0 <= i < |ToStr(Lookup(data, "phone").value)|
                                && !IsPhoneChar(ToStr(Lookup(data, "phone").value)[i])
  {
    EnglishMessagesMembers(data, PhoneMessage);
    FixedMessagesDistinct(data);
    if Given(Lookup(data, "phone")) {
      var t := ToStr(Lookup(data, "phone").value);
      TruthyTextNonEmpty(Lookup(data, "phone").value);
      NewlineAbsorbed(PhoneChars, t);
      assert AllOf(t, IsPhoneChar) <==> forall i :: 0 <= i < |t| ==> IsPhoneChar(t[i]);
    }
  }

  /** The e-mail message is recorded exactly when an address is given and it
      is not of the e-mail shape. */
  lemma EmailIff(data: Record)
    ensures EmailMessage in EnglishMessages(data)
            <==> Given(Lookup(data, "email")) && !Match(EmailAddress, ToStr(Lookup(data, "email").value))
  {
    EnglishMessagesMembers(data, EmailMessage);
    FixedMessagesDistinct(data);
  }

  /** The insurance message is recorded exactly when a number is given and
      its text is shorter than five characters. */
  lemma InsuranceIff(data: Record)
    ensures InsuranceMessage in EnglishMessages(data)
            <==> Given(Lookup(data, "insurance_number")) && |ToStr(Lookup(data, "insurance_number").value)| < 5
  {
    EnglishMessagesMembers(data, InsuranceMessage);
    FixedMessagesDistinct(data);
  }

  /** Empty or absent optional values add nothing: with no phone, e-mail or
      insurance number given, only the required and number checks speak. */
  lemma OptionalsNotGiven(data: Record)
    requires !Given(Lookup(data, "phone")) && !Given(Lookup(data, "email")) && !Given(Lookup(data, "insurance_number"))
    ensures EnglishMessages(data) == MissingMessages(data, RequiredPatientFields) + IdMessages(Lookup(data, "patient_id"))
  {
    assert FormatMessages(data) == IdMessages(Lookup(data, "patient_id")) + [] + [] + [];
  }

  /** The record is accepted exactly when every check passes. */
  lemma EnglishAcceptsIff(data: Record)
    ensures EnglishMessages(data) == []
            <==> && (forall f :: f in RequiredPatientFields ==> !IsMissing(data, f))
                 && (HasKey(data, "patient_id") ==> Match(PatientNumber, ToStr(Lookup(data, "patient_id").value)))
                 && (Given(Lookup(data, "phone")) ==> Match(PhoneChars, ToStr(Lookup(data, "phone").value)))
                 && (Given(Lookup(data, "email")) ==> Match(EmailAddress, ToStr(Lookup(data, "email").value)))
                 && (Given(Lookup(data, "insurance_number")) ==> |ToStr(Lookup(data, "insurance_number").value)| >= 5)
  {
    MissingMessagesEmptyIff(data, RequiredPatientFields);
  }

  /** The keys read are the three required ones, phone, email and
      insurance_number; of date_of_birth only its presence counts, its format
      is never checked, and any other key is ignored. */
  lemma EnglishReadsOnlyItsKeys(d1: Record, d2: Record)
    requires forall k :: k in ["patient_name", "patient_id", "phone", "email", "insurance_number"] ==> Lookup(d1, k) == Lookup(d2, k)
    requires IsMissing(d1, "date_of_birth") == IsMissing(d2, "date_of_birth")
    ensures EnglishMessages(d1) == EnglishMessages(d2)
  {
    assert "patient_name" in ["patient_name", "patient_id", "phone", "email", "insurance_number"];
    assert Lookup(d1, "patient_id") == Lookup(d2, "patient_id");
    assert Lookup(d1, "phone") == Lookup(d2, "phone");
    assert Lookup(d1, "email") == Lookup(d2, "email");
    assert Lookup(d1, "insurance_number") == Lookup(d2, "insurance_number");
    assert FormatMessages(d1) == FormatMessages(d2);
    assert IsMissing(d1, "patient_name") == IsMissing(d2, "patient_name");
    assert IsMissing(d1, "patient_id") == IsMissing(d2, "patient_id");
    MissingRequiredInOrder(d1);
    MissingRequiredInOrder(d2);
  }

  class EnglishMapper {
    var validationErrors: seq<string>

    constructor()
      ensures validationErrors == []
    {
      validationErrors := [];
    }

    /** `validate_data(data)`: clears the list, records the messages of
        `EnglishMessages` and accepts exactly when there are none. */
    method ValidateData(data: Record) returns (ok: bool)
      modifies this
      ensures validationErrors == EnglishMessages(data)
      ensures ok <==> validationErrors == []
    {
      validationErrors := [];
      CheckRequired(data);
      CheckFormats(data);
      assert [] + MissingMessages(data, RequiredPatientFields) == MissingMessages(data, RequiredPatientFields);
      ok := |validationErrors| == 0;
    }

    /** The loop over the required fields. */
    method CheckRequired(data: Record)
      modifies this
      ensures validationErrors == old(validationErrors) + MissingMessages(data, RequiredPatientFields)
    {
      for i := 0 to |RequiredPatientFields|
        invariant validationErrors == old(validationErrors) + MissingMessages(data, RequiredPatientFields[..i])
      {
        var field := RequiredPatientFields[i];
        assert RequiredPatientFields[..i + 1] == RequiredPatientFields[..i] + [field];
        MissingMessagesSnoc(data, RequiredPatientFields[..i], field);
        var value := Lookup(data, field);
        if value.None? || IsBlank(ToStr(value.value)) {
          IsMissingIffStrippedEmpty(data, field);
          validationErrors := validationErrors + [MissingFieldMessage(field)];
        } else {
          IsMissingIffStrippedEmpty(data, field);
        }
      }
      assert RequiredPatientFields[..|RequiredPatientFields|] == RequiredPatientFields;
    }

    /** The patient-number, phone, e-mail and insurance-number checks, in
        that order. */
    method CheckFormats(data: Record)
      modifies this
      ensures validationErrors == old(validationErrors) + FormatMessages(data)
    {
      ghost var start := validationErrors;
      CheckPatientId(data);
      ghost var afterId := validationErrors;
      CheckPhone(data);
      ghost var afterPhone := validationErrors;
      CheckEmail(data);
      ghost var afterEmail := validationErrors;
      CheckInsurance(data);
      var i, p, e := IdMessages(Lookup(data, "patient_id")), PhoneMessages(Lookup(data, "phone")), EmailMessages(Lookup(data, "email"));
      AppendAssociative(start, i, p);
      AppendAssociative(start, i + p, e);
      AppendAssociative(start, i + p + e, InsuranceMessages(Lookup(data, "insurance_number")));
    }

    /** `re.match(r'^P\d+$', str(data["patient_id"]))` whenever the key is there. */
    method CheckPatientId(data: Record)
      modifies this
      ensures validationErrors == old(validationErrors) + IdMessages(Lookup(data, "patient_id"))
    {
      var id := Lookup(data, "patient_id");
      if id.Some? && !Match(PatientNumber, ToStr(id.value)) {
        validationErrors := validationErrors + [IdFormatMessage];
      }
    }

    method CheckPhone(data: Record)
      modifies this
      ensures validationErrors == old(validationErrors) + PhoneMessages(Lookup(data, "phone"))
    {
      var phone := Lookup(data, "phone");
      if phone.Some? && Truthy(phone.value) && !Match(PhoneChars, ToStr(phone.value)) {
        validationErrors := validationErrors + [PhoneMessage];
      }
    }

    method CheckEmail(data: Record)
      modifies this
      ensures validationErrors == old(validationErrors) + EmailMessages(Lookup(data, "email"))
    {
      var email := Lookup(data, "email");
      if email.Some? && Truthy(email.value) && !Match(EmailAddress, ToStr(email.value)) {
        validationErrors := validationErrors + [EmailMessage];
      }
    }

    method CheckInsurance(data: Record)
      modifies this
      ensures validationErrors == old(validationErrors) + InsuranceMessages(Lookup(data, "insurance_number"))
    {
      var insurance := Lookup(data, "insurance_number");
      if insurance.Some? && Truthy(insurance.value) && |ToStr(insurance.value)| < 5 {
        validationErrors := validationErrors + [InsuranceMessage];
      }
    }
  }

  // ---------------------------------------------------------------------------
  // The table of the PDF report (the rows of `generate_pdf_bytes`)

  /** The label of the table row for a key; keys without one get no row. */
  function PdfLabel(key: string): Option<string> {
    match key
    case "patient_name" => Some("Patient Full Name")
    case "patient_id" => Some("Patient Identification Number")
    case "date_of_birth" => Some("Date of Birth")
    case "gender" => Some("Gender")
    case "emergency_contact" => Some("Emergency Contact Available")
    case "phone" => Some("Phone Number")
    case "email" => Some("Email Address")
    case "address" => Some("Home Address")
    case "insurance_number" => Some("Insurance Policy Number")
    case "medical_conditions" => Some("Known Medical Conditions")
    case "allergies" => Some("Known Allergies")
    case _ => None
  }

  /** The keys the report has a label for. */
  const LabelledKeys: seq<string> :=
    ["patient_name", "patient_id", "date_of_birth", "gender", "emergency_contact", "phone", "email",
     "address", "insurance_number", "medical_conditions", "allergies"]

  datatype TableRow = TableRow(caption: string, text: string, status: string)

  /** The status column. */
  function StatusOf(key: string): string {
    if key in RequiredPatientFields then "Required" else "Optional"
  }

  /** A data entry gets a row when its key has a label and its value is not None. */
  predicate Shown(entry: (string, Value)) {
    PdfLabel(entry.0).Some? && !entry.1.Null?
  }

  /** The value column before truncation: Yes/No for a bool; for the birth
      date, `longDate` of the date strptime parses from the text when it
      accepts it (`longDate` stands for `strftime('%B %d, %Y')`);
      `str(value)` otherwise. */
  function DisplayValue(key: string, v: Value, longDate: Date -> string): string {
    if !v.Bool? && key == "date_of_birth" && ValidDate(ToStr(v)) then longDate(ParseDate(ToStr(v)).value) else DisplayText(v)
  }

  /** The row drawn for a shown entry. */
  function PdfRow(entry: (string, Value), longDate: Date -> string): TableRow
    requires Shown(entry)
  {
    TableRow(PdfLabel(entry.0).value, Truncate(DisplayValue(entry.0, entry.1, longDate), 35), StatusOf(entry.0))
  }

  /** The rows of the table, one per shown entry, in the order of `data.items()`. */
  function PdfRows(data: Record, longDate: Date -> string): seq<TableRow> {
    if data == [] then []
    else (if Shown(data[0]) then [PdfRow(data[0], longDate)] else []) + PdfRows(data[1..], longDate)
  }

  /** Exactly the eleven listed keys have a label. */
  lemma PdfLabelIff(key: string)
    ensures PdfLabel(key).Some? <==> key in LabelledKeys
  {
  }

  /** The facts of one row: the value column holds at most 35 characters, is
      Yes/No for a bool and is the display text itself when that fits, or
      else its first 32 characters and "..."; the status is "Required"
      exactly for the three required keys. */
  lemma PdfRowFacts(entry: (string, Value), longDate: Date -> string)
    requires Shown(entry)
    ensures var row, text := PdfRow(entry, longDate), DisplayValue(entry.0, entry.1, longDate);
            && row.caption == PdfLabel(entry.0).value
            && |row.text| <= 35
            && (|text| <= 35 ==> row.text == text)
            && (|text| > 35 ==> row.text == text[..32] + "...")
            && (entry.1.Bool? ==> row.text == if entry.1.b then "Yes" else "No")
            && (row.status == "Required" <==> entry.0 in RequiredPatientFields)
            && (row.status == "Optional" <==> entry.0 !in RequiredPatientFields)
  {
    var text := DisplayValue(entry.0, entry.1, longDate);
    if |text| > 35 {
      assert text[..32] + "..." == Truncate(text, 35);
    }
  }

  /** The birth date is re-formatted only when strptime accepts it; every
      other key shows its display text. */
  lemma DisplayValueCases(key: string, v: Value, longDate: Date -> string)
    ensures key != "date_of_birth" || v.Bool? ==> DisplayValue(key, v, longDate) == DisplayText(v)
    ensures key == "date_of_birth" && !v.Bool? ==>
              DisplayValue(key, v, longDate) == if ValidDate(ToStr(v)) then longDate(ParseDate(ToStr(v)).value) else ToStr(v)
  {
  }

  /** Two birth-date spellings that strptime parses to the same date, such as
      "1985-6-15" and "1985-06-15", are shown alike. */
  lemma SameDateShownAlike(v: Value, w: Value, longDate: Date -> string)
    requires !v.Bool? && !w.Bool? && ValidDate(ToStr(v)) && ValidDate(ToStr(w))
    requires ParseDate(ToStr(v)) == ParseDate(ToStr(w))
    ensures DisplayValue("date_of_birth", v, longDate) == DisplayValue("date_of_birth", w, longDate)
  {
  }

  /** The table of two records one after the other is the first table
      followed by the second: rows come in data order. */
  lemma {:induction false} PdfRowsConcat(a: Record, b: Record, longDate: Date -> string)
    ensures PdfRows(a + b, longDate) == PdfRows(a, longDate) + PdfRows(b, longDate)
  {
    if a != [] {
      var head := if Shown(a[0]) then [PdfRow(a[0], longDate)] else [];
      assert (a + b)[0] == a[0] && (a + b)[1..] == a[1..] + b;
      assert PdfRows(a + b, longDate) == head + PdfRows(a[1..] + b, longDate);
      PdfRowsConcat(a[1..], b, longDate);
      AppendAssociative(head, PdfRows(a[1..], longDate), PdfRows(b, longDate));
    } else {
      assert a + b == b;
    }
  }

  /** A row is in the table exactly when some shown entry draws it, and
      there are never more rows than entries. */
  lemma {:induction false} PdfRowsMembers(data: Record, longDate: Date -> string, row: TableRow)
    ensures |PdfRows(data, longDate)| <= |data|
    ensures row in PdfRows(data, longDate) <==> exists i :: 0 <= i < |data| && Shown(data[i]) && row == PdfRow(data[i], longDate)
  {
    if data != [] {
      PdfRowsMembers(data[1..], longDate, row);
      if row in PdfRows(data[1..], longDate) {
        var i :| 0 <= i < |data[1..]| && Shown(data[1..][i]) && row == PdfRow(data[1..][i], longDate);
        assert data[i + 1] == data[1..][i];
      }
      if exists i :: 0 <= i < |data| && Shown(data[i]) && row == PdfRow(data[i], longDate) {
        var i :| 0 <= i < |data| && Shown(data[i]) && row == PdfRow(data[i], longDate);
        if i > 0 {
          assert data[1..][i - 1] == data[i];
        }
      }
    }
  }

  // ---------------------------------------------------------------------------
  // The sample records of `get_sample_data`

  /** The remaining six entries of a full sample. */
  function ContactEntries(phone: string, email: string, address: string, insurance: string, conditions: string, allergies: string): Record {
    [("phone", Str(phone)), ("email", Str(email)), ("address", Str(address)), ("insurance_number", Str(insurance)),
     ("medical_conditions", Str(conditions)), ("allergies", Str(allergies))]
  }

  const StandardSample: Record :=
    IdentityEntries("John Michael Smith", "P123456", "1985-06-15", "Male", true)
    + ContactEntries("+1-555-123-4567", "john.smith@email.com", "123 Main Street, Springfield, IL 62701, USA", "INS789012345", "None reported", "Penicillin")

  const FemaleSample: Record :=
    IdentityEntries("Sarah Elizabeth Johnson", "P654321", "1992-03-22", "Female", true)
    + ContactEntries("+1-555-987-6543", "s.johnson@email.com", "456 Oak Avenue, Boston, MA 02101, USA", "INS543210987", "Diabetes Type 2", "Shellfish, Latex")

  const MinimalSample: Record := IdentityEntries("Robert Chen", "P999888", "1978-12-01", "Male", false)

  const InternationalSample: Record :=
    IdentityEntries("Maria Elena Rodriguez", "P111222", "1988-09-10", "Female", true)
    + ContactEntries("+34-91-123-4567", "maria.rodriguez@email.es", "Calle Gran Via 123, 28013 Madrid, Spain", "EUR987654321", "Hypertension", "None known")

  /** `get_sample_data(case_type)`: the named sample, the standard one for
      any other name. */
  function SampleData(caseType: string): Record {
    match caseType
    case "female" => FemaleSample
    case "minimal" => MinimalSample
    case "international" => InternationalSample
    case _ => StandardSample
  }

  lemma SampleDataDefault(caseType: string)
    ensures caseType !in ["standard", "female", "minimal", "international"] ==> SampleData(caseType) == StandardSample
    ensures SampleData("standard") == StandardSample
  {
  }

  lemma ContactLookups(phone: string, email: string, address: string, insurance: string, conditions: string, allergies: string)
    ensures var c := ContactEntries(phone, email, address, insurance, conditions, allergies);
            && Lookup(c, "phone") == Some(Str(phone))
            && Lookup(c, "email") == Some(Str(email))
            && Lookup(c, "insurance_number") == Some(Str(insurance))
  {
    var c := ContactEntries(phone, email, address, insurance, conditions, allergies);
    LookupAt(c, 0, "phone");
    LookupAt(c, 1, "email");
    LookupAt(c, 3, "insurance_number");
  }

  /** The identity entries hold no phone, e-mail or insurance number. */
  lemma IdentityLacksContacts(name: string, id: string, dob: string, gender: string, emergency: bool)
    ensures var h := IdentityEntries(name, id, dob, gender, emergency);
            !HasKey(h, "phone") && !HasKey(h, "email") && !HasKey(h, "insurance_number")
  {
    var h := IdentityEntries(name, id, dob, gender, emergency);
    assert |"patient_name"| == 12 && |"patient_id"| == 10 && |"date_of_birth"| == 13;
    assert |"gender"| == 6 && |"emergency_contact"| == 17;
    assert |"phone"| == 5 && |"email"| == 5 && |"insurance_number"| == 16;
    assert forall i :: 0 <= i < |h| ==> 6 <= |h[i].0|;
  }

  // Each fact about a literal value is its own small lemma, and the lemmas
  // about a whole sample only combine them, so that the checks are never
  // evaluated on a whole literal record.

  /** A sample is accepted when its name, number and birth date are
      non-blank, its number is "P" and digits, and whatever follows the
      identity entries adds no phone, e-mail or insurance message. */
  lemma IdentityPasses(name: string, id: string, dob: string, gender: string, emergency: bool, rest: Record)
    requires !IsBlank(name) && !IsBlank(id) && !IsBlank(dob) && IdMessages(Some(Str(id))) == []
    requires PhoneMessages(Lookup(rest, "phone")) == [] && EmailMessages(Lookup(rest, "email")) == []
    requires InsuranceMessages(Lookup(rest, "insurance_number")) == []
    ensures EnglishMessages(IdentityEntries(name, id, dob, gender, emergency) + rest) == []
  {
    var h := IdentityEntries(name, id, dob, gender, emergency);
    IdentityPresent(name, id, dob, gender, emergency, rest);
    IdentityLacksContacts(name, id, dob, gender, emergency);
    LookupConcat(h, rest, "phone");
    LookupConcat(h, rest, "email");
    LookupConcat(h, rest, "insurance_number");
  }


  /** A full sample is accepted when, besides the identity checks, its phone
      is phone characters, its e-mail splits as an address and its insurance
      number has at least five characters. */
  lemma FullSamplePasses(name: string, id: string, dob: string, gender: string, emergency: bool,
                         phone: string, email: string, address: string, insurance: string, conditions: string, allergies: string)
    requires !IsBlank(name) && !IsBlank(id) && !IsBlank(dob) && IdMessages(Some(Str(id))) == []
    requires PhoneMessages(Some(Str(phone))) == [] && EmailMessages(Some(Str(email))) == [] && InsuranceMessages(Some(Str(insurance))) == []
    ensures EnglishMessages(IdentityEntries(name, id, dob, gender, emergency)
                            + ContactEntries(phone, email, address, insurance, conditions, allergies)) == []
  {
    ContactLookups(phone, email, address, insurance, conditions, allergies);
    IdentityPasses(name, id, dob, gender, emergency, ContactEntries(phone, email, address, insurance, conditions, allergies));
  }

  lemma StandardSamplePasses()
    ensures EnglishMessages(StandardSample) == []
  {
    StandardIdentity();
    StandardEmail();
    SamplePhones();
    SampleInsuranceNumbers();
    FullSamplePasses("John Michael Smith", "P123456", "1985-06-15", "Male", true,
                     "+1-555-123-4567", "john.smith@email.com", "123 Main Street, Springfield, IL 62701, USA", "INS789012345", "None reported", "Penicillin");
  }

  lemma StandardIdentity()
    ensures !IsBlank("John Michael Smith") && !IsBlank("P123456") && !IsBlank("1985-06-15") && IdMessages(Some(Str("P123456"))) == []
  {
    IdentityValues("John Michael Smith", "P123456", "1985-06-15");
  }

  lemma StandardEmail()
    ensures EmailMessages(Some(Str("john.smith@email.com"))) == []
  {
    EmailValue("john.smith@email.com", 10, 16);
  }

  lemma FemaleSamplePasses()
    ensures EnglishMessages(FemaleSample) == []
  {
    FemaleIdentity();
    FemaleEmail();
    SamplePhones();
    SampleInsuranceNumbers();
    FullSamplePasses("Sarah Elizabeth Johnson", "P654321", "1992-03-22", "Female", true,
                     "+1-555-987-6543", "s.johnson@email.com", "456 Oak Avenue, Boston, MA 02101, USA", "INS543210987", "Diabetes Type 2", "Shellfish, Latex");
  }

  lemma FemaleIdentity()
    ensures !IsBlank("Sarah Elizabeth Johnson") && !IsBlank("P654321") && !IsBlank("1992-03-22") && IdMessages(Some(Str("P654321"))) == []
  {
    IdentityValues("Sarah Elizabeth Johnson", "P654321", "1992-03-22");
  }

  lemma FemaleEmail()
    ensures EmailMessages(Some(Str("s.johnson@email.com"))) == []
  {
    EmailValue("s.johnson@email.com", 9, 15);
  }

  lemma MinimalSamplePasses()
    ensures EnglishMessages(MinimalSample) == []
  {
    MinimalEntriesPass();
    assert IdentityEntries("Robert Chen", "P999888", "1978-12-01", "Male", false) + [] == MinimalSample;
  }

  lemma MinimalEntriesPass()
    ensures EnglishMessages(IdentityEntries("Robert Chen", "P999888", "1978-12-01", "Male", false) + []) == []
  {
    IdentityValues("Robert Chen", "P999888", "1978-12-01");
    IdentityPasses("Robert Chen", "P999888", "1978-12-01", "Male", false, []);
  }

  lemma InternationalSamplePasses()
    ensures EnglishMessages(InternationalSample) == []
  {
    InternationalIdentity();
    InternationalEmail();
    SamplePhones();
    SampleInsuranceNumbers();
    FullSamplePasses("Maria Elena Rodriguez", "P111222", "1988-09-10", "Female", true,
                     "+34-91-123-4567", "maria.rodriguez@email.es", "Calle Gran Via 123, 28013 Madrid, Spain", "EUR987654321", "Hypertension", "None known");
  }

  lemma InternationalIdentity()
    ensures !IsBlank("Maria Elena Rodriguez") && !IsBlank("P111222") && !IsBlank("1988-09-10") && IdMessages(Some(Str("P111222"))) == []
  {
    IdentityValues("Maria Elena Rodriguez", "P111222", "1988-09-10");
  }

  lemma InternationalEmail()
    ensures EmailMessages(Some(Str("maria.rodriguez@email.es"))) == []
  {
    EmailValue("maria.rodriguez@email.es", 15, 21);
  }

  lemma SamplePhones()
    ensures PhoneMessages(Some(Str("+1-555-123-4567"))) == []
    ensures PhoneMessages(Some(Str("+1-555-987-6543"))) == []
    ensures PhoneMessages(Some(Str("+34-91-123-4567"))) == []
  {
    PhoneValue("+1-555-123-4567");
    PhoneValue("+1-555-987-6543");
    PhoneValue("+34-91-123-4567");
  }

  lemma SampleInsuranceNumbers()
    ensures InsuranceMessages(Some(Str("INS789012345"))) == []
    ensures InsuranceMessages(Some(Str("INS543210987"))) == []
    ensures InsuranceMessages(Some(Str("EUR987654321"))) == []
  {
  }

  /** The identity values of a sample pass the required and number
      checks: each starts with a non-space character, and the number is "P"
      and digits. */
  lemma IdentityValues(name: string, id: string, dob: string)
    requires |name| > 0 && !IsSpace(name[0]) && |dob| > 0 && !IsSpace(dob[0])
    requires |id| >= 2 && id[0] == 'P' && AllDigits(id[1..])
    ensures !IsBlank(name) && !IsBlank(id) && !IsBlank(dob) && IdMessages(Some(Str(id))) == []
  {
    NotBlankWhenLeadingText(name);
    NotBlankWhenLeadingText(id);
    NotBlankWhenLeadingText(dob);
  }

  /** Phone characters only: no phone message. */
  lemma PhoneValue(phone: string)
    requires |phone| > 0 && AllOf(phone, IsPhoneChar)
    ensures PhoneMessages(Some(Str(phone))) == []
  {
  }

  /** An address the pattern can split: no e-mail message. */
  lemma EmailValue(email: string, at: int, dot: int)
    requires EmailSplit(email, at, dot)
    ensures EmailMessages(Some(Str(email))) == []
  {
    EmailSplitIsBody(email, at, dot);
  }

  /** Whatever case is asked for, the sample passes `validate_data`. */
  lemma SamplesPass(caseType: string)
    ensures EnglishMessages(SampleData(caseType)) == []
  {
    if caseType == "female" {
      FemaleSamplePasses();
    } else if caseType == "minimal" {
      MinimalSamplePasses();
    } else if caseType == "international" {
      InternationalSamplePasses();
    } else {
      StandardSamplePasses();
    }
  }
}
