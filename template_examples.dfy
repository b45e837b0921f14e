/** The built-in default rules applied to concrete records. Each fact about
    one field or one entry is its own small lemma; the lemmas about whole
    records take the record as a parameter equal to the constant, so that
    they combine those facts instead of re-evaluating the table. */
module TemplateExamples {
  import opened Python
  import opened Patterns
  import opened Templates
  import opened TemplateValidation

  // ---------------------------------------------------------------------------
  // A record with an absent name, a lower-case patient number and an
  // impossible birth date

  const ScenarioRecord: Record := [("patient_id", Str("p123")), ("date_of_birth", Str("1990-13-40"))]

  /** The name, number and birth-date fields of the medical template, the
      first three fields of its table. */
  const NameIdBirthFields := [MedicalForm.fields[0], MedicalForm.fields[1], MedicalForm.fields[2]]

  lemma MedicalTemplateFound()
    ensures Lookup(DefaultRules.templates, "medical_form") == Some(MedicalForm)
  {
  }

  lemma EmployeeTemplateFound()
    ensures Lookup(DefaultRules.templates, "employee_form") == Some(EmployeeForm)
  {
  }

  lemma ScenarioNameMissing()
    ensures RequiredCheck(ScenarioRecord, MedicalForm.fields[0]) == [MissingRequired("患者姓名")]
  {
  }

  lemma ScenarioIdPresent()
    ensures RequiredCheck(ScenarioRecord, MedicalForm.fields[1]) == []
  {
    NotBlankWhenLeadingText("p123");
  }

  lemma ScenarioBirthDatePresent()
    ensures RequiredCheck(ScenarioRecord, MedicalForm.fields[2]) == []
  {
    NotBlankWhenLeadingText("1990-13-40");
  }

  lemma ScenarioGenderMissing()
    ensures RequiredCheck(ScenarioRecord, MedicalForm.fields[3]) == [MissingRequired("性別")]
  {
  }

  /** The fields after gender in the medical template are optional. */
  lemma MedicalOptionalFields(fields: seq<(string, FieldSpec)>, data: Record)
    requires fields == MedicalForm.fields
    ensures RequiredViolations(fields[4..], data) == []
  {
    forall i | 0 <= i < |fields[4..]| ensures !fields[4..][i].1.required {
      assert fields[4..][i] == fields[i + 4];
    }
    OptionalFieldsSilent(fields[4..], data);
  }

  lemma ScenarioFromGender(fields: seq<(string, FieldSpec)>, data: Record)
    requires fields == MedicalForm.fields && data == ScenarioRecord
    ensures RequiredViolations(fields[3..], data) == [MissingRequired("性別")]
  {
    ScenarioGenderMissing();
    MedicalOptionalFields(fields, data);
    RequiredViolationsFrom(fields, 3, data);
  }

  lemma ScenarioFromNumber(fields: seq<(string, FieldSpec)>, data: Record)
    requires fields == MedicalForm.fields && data == ScenarioRecord
    ensures RequiredViolations(fields[1..], data) == RequiredViolations(fields[3..], data)
  {
    ScenarioIdPresent();
    ScenarioBirthDatePresent();
    RequiredViolationsFrom(fields, 2, data);
    RequiredViolationsFrom(fields, 1, data);
  }

  lemma ScenarioFirstPass(fields: seq<(string, FieldSpec)>, data: Record)
    requires fields == MedicalForm.fields && data == ScenarioRecord
    ensures RequiredViolations(fields, data) == [MissingRequired("患者姓名"), MissingRequired("性別")]
  {
    ScenarioNameMissing();
    ScenarioFromGender(fields, data);
    ScenarioFromNumber(fields, data);
    RequiredViolationsFrom(fields, 0, data);
    assert fields[0..] == fields;
  }

  /** The first pass over the name, number and birth-date fields alone. */
  lemma ScenarioFirstPassOfThree(three: seq<(string, FieldSpec)>, data: Record)
    requires three == NameIdBirthFields && data == ScenarioRecord
    ensures RequiredViolations(three, data) == [MissingRequired("患者姓名")]
  {
    ScenarioNameMissing();
    ScenarioThreeTail(three, data);
    RequiredViolationsFrom(three, 0, data);
    assert three[0..] == three;
    assert three[0] == MedicalForm.fields[0];
  }

  lemma ScenarioThreeTail(three: seq<(string, FieldSpec)>, data: Record)
    requires three == NameIdBirthFields && data == ScenarioRecord
    ensures RequiredViolations(three[1..], data) == []
  {
    ScenarioIdPresent();
    ScenarioBirthDatePresent();
    assert three[1] == MedicalForm.fields[1] && three[2] == MedicalForm.fields[2];
    RequiredViolationsFrom(three, 2, data);
    RequiredViolationsFrom(three, 1, data);
    assert three[3..] == [];
  }

  lemma LowerCaseNumberRejected()
    ensures !Match(UpperAlnum, "p123")
  {
    assert "p123"[0] == 'p';
  }

  lemma MonthThirteenRejected()
    ensures !ValidDate("1990-13-40")
  {
    assert !IsMonthToken("13");
  }

  /** Both the full medical template and its first three fields find the
      two scenario keys at the same specifications. */
  predicate ScenarioKeysFound(fields: seq<(string, FieldSpec)>) {
    && Lookup(fields, "patient_id") == Some(MedicalForm.fields[1].1)
    && Lookup(fields, "date_of_birth") == Some(MedicalForm.fields[2].1)
  }

  lemma ScenarioKeysFoundInTemplates()
    ensures ScenarioKeysFound(MedicalForm.fields)
    ensures ScenarioKeysFound(NameIdBirthFields)
  {
    ScenarioKeysFoundInMedicalForm();
    ScenarioKeysFoundInThree();
  }

  lemma ScenarioKeysFoundInMedicalForm()
    ensures ScenarioKeysFound(MedicalForm.fields)
  {
  }

  lemma ScenarioKeysFoundInThree()
    ensures ScenarioKeysFound(NameIdBirthFields)
  {
  }

  lemma ScenarioIdEntry(fields: seq<(string, FieldSpec)>, parse: string -> Option<real>)
    requires ScenarioKeysFound(fields)
    ensures EntryReport(fields, ScenarioRecord[0], parse) == Report([BadPattern("patient_id")], false)
  {
    ScenarioIdCheck(parse);
  }

  lemma ScenarioIdCheck(parse: string -> Option<real>)
    ensures CheckField("patient_id", MedicalForm.fields[1].1, Str("p123"), parse) == Returned([BadPattern("patient_id")])
  {
    LowerCaseNumberRejected();
    var spec := MedicalForm.fields[1].1;
    assert TypeOf(spec) == "text";
    assert TypeViolations("patient_id", spec, Str("p123"), parse) == Returned([]);
    assert GeneralViolations("patient_id", spec, Str("p123")) == [BadPattern("patient_id")];
    assert [] + [BadPattern("patient_id")] == [BadPattern("patient_id")];
  }

  lemma ScenarioBirthDateCheck(parse: string -> Option<real>)
    ensures CheckField("date_of_birth", MedicalForm.fields[2].1, Str("1990-13-40"), parse) == Returned([InvalidDate("date_of_birth")])
  {
    MonthThirteenRejected();
    var spec := MedicalForm.fields[2].1;
    assert TypeOf(spec) == "date";
    assert TextViolations("date_of_birth", "date", "1990-13-40") == [InvalidDate("date_of_birth")];
    assert TypeViolations("date_of_birth", spec, Str("1990-13-40"), parse) == Returned([InvalidDate("date_of_birth")]);
    assert GeneralViolations("date_of_birth", spec, Str("1990-13-40")) == [];
    assert [InvalidDate("date_of_birth")] + [] == [InvalidDate("date_of_birth")];
  }

  lemma ScenarioBirthDateEntry(fields: seq<(string, FieldSpec)>, parse: string -> Option<real>)
    requires ScenarioKeysFound(fields)
    ensures EntryReport(fields, ScenarioRecord[1], parse) == Report([InvalidDate("date_of_birth")], false)
  {
    ScenarioBirthDateCheck(parse);
  }

  lemma ScenarioSecondPass(fields: seq<(string, FieldSpec)>, data: Record, parse: string -> Option<real>)
    requires ScenarioKeysFound(fields)
    requires data == ScenarioRecord
    ensures ContentPass(fields, data, parse) == Report([BadPattern("patient_id"), InvalidDate("date_of_birth")], false)
  {
    ScenarioIdEntry(fields, parse);
    ScenarioBirthDateEntry(fields, parse);
    var e0 := EntryReport(fields, data[0], parse);
    var e1 := EntryReport(fields, data[1], parse);
    assert data[1..][1..] == [] && data[1..][0] == data[1];
    assert ContentPass(fields, data[1..], parse) == Then(e1, Report([], false));
    ThenClean(e1, Report([], false));
  }

  lemma ScenarioSecondPassMedical(data: Record, parse: string -> Option<real>)
    requires data == ScenarioRecord
    ensures ContentPass(MedicalForm.fields, data, parse) == Report([BadPattern("patient_id"), InvalidDate("date_of_birth")], false)
  {
    ScenarioKeysFoundInTemplates();
    ScenarioSecondPass(MedicalForm.fields, data, parse);
  }

  lemma ScenarioSecondPassOfThree(data: Record, parse: string -> Option<real>)
    requires data == ScenarioRecord
    ensures ContentPass(NameIdBirthFields, data, parse) == Report([BadPattern("patient_id"), InvalidDate("date_of_birth")], false)
  {
    ScenarioKeysFoundInTemplates();
    ScenarioSecondPass(NameIdBirthFields, data, parse);
  }

  /** Against the full medical template the record gets four messages: the
      absent required fields name and gender first, by description, then
      the two bad entries in record order, by key. */
  lemma MedicalScenario(data: Record, parse: string -> Option<real>)
    requires data == ScenarioRecord
    ensures Validate(DefaultRules, "medical_form", data, parse)
            == Report([MissingRequired("患者姓名"), MissingRequired("性別"), BadPattern("patient_id"), InvalidDate("date_of_birth")], false)
  {
    MedicalTemplateFound();
    MedicalScenarioUnder(DefaultRules, MedicalForm, data, parse);
  }

  lemma MedicalScenarioUnder(rules: Rules, t: Template, data: Record, parse: string -> Option<real>)
    requires Lookup(rules.templates, "medical_form") == Some(t) && t == MedicalForm
    requires data == ScenarioRecord
    ensures Validate(rules, "medical_form", data, parse)
            == Report([MissingRequired("患者姓名"), MissingRequired("性別"), BadPattern("patient_id"), InvalidDate("date_of_birth")], false)
  {
    ScenarioFirstPass(t.fields, data);
    ScenarioSecondPassMedical(data, parse);
    ValidateFound(rules, "medical_form", t, data, parse,
      [MissingRequired("患者姓名"), MissingRequired("性別")],
      Report([BadPattern("patient_id"), InvalidDate("date_of_birth")], false));
    MedicalScenarioConcat();
  }

  lemma MedicalScenarioConcat()
    ensures [MissingRequired("患者姓名"), MissingRequired("性別")] + [BadPattern("patient_id"), InvalidDate("date_of_birth")]
            == [MissingRequired("患者姓名"), MissingRequired("性別"), BadPattern("patient_id"), InvalidDate("date_of_birth")]
  {
  }

  /** Against a template holding only the name, number and birth-date fields
      the same record gets exactly three messages. */
  lemma NameIdBirthScenario(data: Record, parse: string -> Option<real>)
    requires data == ScenarioRecord
    ensures Validate(Rules([("medical_form", Template("", "", [], NameIdBirthFields))]), "medical_form", data, parse)
            == Report([MissingRequired("患者姓名"), BadPattern("patient_id"), InvalidDate("date_of_birth")], false)
  {
    var t := Template("", "", [], NameIdBirthFields);
    assert Lookup([("medical_form", t)], "medical_form") == Some(t);
    NameIdBirthScenarioUnder(Rules([("medical_form", t)]), t, data, parse);
  }

  lemma NameIdBirthScenarioUnder(rules: Rules, t: Template, data: Record, parse: string -> Option<real>)
    requires Lookup(rules.templates, "medical_form") == Some(t) && t.fields == NameIdBirthFields
    requires data == ScenarioRecord
    ensures Validate(rules, "medical_form", data, parse)
            == Report([MissingRequired("患者姓名"), BadPattern("patient_id"), InvalidDate("date_of_birth")], false)
  {
    ScenarioFirstPassOfThree(t.fields, data);
    ScenarioSecondPassOfThree(data, parse);
    ValidateFound(rules, "medical_form", t, data, parse,
      [MissingRequired("患者姓名")],
      Report([BadPattern("patient_id"), InvalidDate("date_of_birth")], false));
    assert [MissingRequired("患者姓名")] + [BadPattern("patient_id"), InvalidDate("date_of_birth")]
           == [MissingRequired("患者姓名"), BadPattern("patient_id"), InvalidDate("date_of_birth")];
  }

  // ---------------------------------------------------------------------------
  // Single fields

  /** The salary field of the employee template: a number from 0 to
      10000000 with no other attribute checked. */
  lemma SalaryField()
    ensures EmployeeForm.fields[5].0 == "salary"
    ensures var salary := EmployeeForm.fields[5].1;
            && TypeOf(salary) == "number" && salary.minValue == Some(0) && salary.maxValue == Some(10000000)
            && salary.maxLength.None? && salary.options.None? && salary.pattern.None?
  {
  }

  /** A number field with no length, option or pattern attribute gets only
      its bound messages. */
  lemma NumberOnlyBounds(key: string, spec: FieldSpec, n: int, parse: string -> Option<real>)
    requires TypeOf(spec) == "number" && spec.maxLength.None? && spec.options.None? && spec.pattern.None?
    ensures CheckField(key, spec, Int(n), parse) == Returned(BoundViolations(key, spec, n as real))
  {
    NumberTypeViolations(key, spec, n, parse);
    NoGeneralAttributes(key, spec, Int(n));
    assert BoundViolations(key, spec, n as real) + [] == BoundViolations(key, spec, n as real);
  }

  lemma NumberTypeViolations(key: string, spec: FieldSpec, n: int, parse: string -> Option<real>)
    requires TypeOf(spec) == "number"
    ensures TypeViolations(key, spec, Int(n), parse) == Returned(BoundViolations(key, spec, n as real))
  {
  }

  lemma NoGeneralAttributes(key: string, spec: FieldSpec, v: Value)
    requires spec.maxLength.None? && spec.options.None? && spec.pattern.None?
    ensures GeneralViolations(key, spec, v) == []
  {
  }

  /** The salary bounds of the employee template are inclusive: 0 and
      10000000 pass, -1 and 10000001 do not. */
  lemma SalaryBounds(salary: FieldSpec, parse: string -> Option<real>)
    requires salary == EmployeeForm.fields[5].1
    ensures CheckField("salary", salary, Int(0), parse) == Returned([])
    ensures CheckField("salary", salary, Int(10000000), parse) == Returned([])
    ensures CheckField("salary", salary, Int(-1), parse) == Returned([BelowMin("salary", 0)])
    ensures CheckField("salary", salary, Int(10000001), parse) == Returned([AboveMax("salary", 10000000)])
  {
    SalaryField();
    NumberOnlyBounds("salary", salary, 0, parse);
    NumberOnlyBounds("salary", salary, 10000000, parse);
    NumberOnlyBounds("salary", salary, -1, parse);
    NumberOnlyBounds("salary", salary, 10000001, parse);
    assert BoundViolations("salary", salary, -1 as real) == [BelowMin("salary", 0)] + [];
    assert [BelowMin("salary", 0)] + [] == [BelowMin("salary", 0)];
    assert BoundViolations("salary", salary, 10000001 as real) == [] + [AboveMax("salary", 10000000)];
    assert [] + [AboveMax("salary", 10000000)] == [AboveMax("salary", 10000000)];
  }

  /** The medical patient number must be upper-case letters and digits only. */
  lemma PatientNumberPattern()
    ensures !Match(UpperAlnum, "AB-12")
    ensures Match(UpperAlnum, "AB12")
  {
    assert "AB-12"[2] == '-' && !IsUpperAlnum('-');
  }
}
