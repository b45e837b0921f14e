/** The template table: field specifications, templates, the mapping rules
    that hold them, the built-in default rules, and the lookups and the
    sample-record builder over them. */
module Templates {
  import opened Python
  import opened Patterns

  /** One field of a template. An attribute the configuration leaves out is
      None; a missing type means "text", a missing required flag means not
      required. Display-only attributes (the date "format") are not kept. */
  datatype FieldSpec = FieldSpec(
    fieldType: Option<string>,
    required: bool,
    maxLength: Option<int>,
    minValue: Option<int>,
    maxValue: Option<int>,
    options: Option<seq<string>>,
    pattern: Option<Regex>,
    description: Option<string>,
    example: Option<Value>)

  /** `field_config.get("type", "text")`. */
  function TypeOf(spec: FieldSpec): string {
    spec.fieldType.GetOr("text")
  }

  /** A named template: descriptive metadata and its fields in order. */
  datatype Template = Template(
    description: string,
    category: string,
    compliance: seq<string>,
    fields: seq<(string, FieldSpec)>)

  /** The "templates" part of the mapping rules, in configuration order. */
  datatype Rules = Rules(templates: seq<(string, Template)>)

  /** Dictionaries have distinct keys: template names, and field names within
      each template. */
  predicate WellFormed(rules: Rules) {
    && DistinctKeys(rules.templates)
    && forall i :: 0 <= i < |rules.templates| ==> DistinctKeys(rules.templates[i].1.fields)
  }

  // ---------------------------------------------------------------------------
  // The built-in default rules

  // Each field below lists: type, required, max_length, min_value, max_value,
  // options, validation_pattern, description, example.

  const MedicalForm := Template(
    "醫療表單模板", "healthcare", ["hipaa_compliant"],
    [ ("patient_name", FieldSpec(Some("text"), true, Some(50), None, None, None,
         Some(NameChars), Some("患者姓名"), Some(Str("張大明")))),
      ("patient_id", FieldSpec(Some("text"), true, Some(20), None, None, None,
         Some(UpperAlnum), Some("患者ID"), Some(Str("P12345")))),
      ("date_of_birth", FieldSpec(Some("date"), true, None, None, None, None,
         None, Some("出生日期"), Some(Str("1990-01-15")))),
      ("gender", FieldSpec(Some("select"), true, None, None, None, Some(["Male", "Female", "Other", "Prefer not to say"]),
         None, Some("性別"), Some(Str("Male")))),
      ("emergency_contact", FieldSpec(Some("boolean"), false, None, None, None, None,
         None, Some("是否有緊急聯絡人"), Some(Bool(true)))),
      ("phone", FieldSpec(Some("phone"), false, Some(20), None, None, None,
         Some(PhoneChars), Some("電話號碼"), Some(Str("+886-2-1234-5678")))),
      ("address", FieldSpec(Some("textarea"), false, Some(200), None, None, None,
         None, Some("居住地址"), Some(Str("台北市信義區信義路五段7號")))),
      ("insurance_id", FieldSpec(Some("text"), false, Some(30), None, None, None,
         None, Some("保險編號"), Some(Str("INS987654321"))))
    ])

  const EmployeeForm := Template(
    "員工資料表單", "hr", ["gdpr_compliant"],
    [ ("employee_name", FieldSpec(Some("text"), true, Some(60), None, None, None,
         None, Some("員工姓名"), Some(Str("李小華")))),
      ("employee_id", FieldSpec(Some("text"), true, Some(15), None, None, None,
         Some(EmployeeNumber), Some("員工編號"), Some(Str("EMP12345")))),
      ("department", FieldSpec(Some("select"), true, None, None, None, Some(["IT", "HR", "Finance", "Marketing", "Sales", "Operations"]),
         None, Some("部門"), Some(Str("IT")))),
      ("position", FieldSpec(Some("text"), true, Some(50), None, None, None,
         None, Some("職位"), Some(Str("Senior Developer")))),
      ("hire_date", FieldSpec(Some("date"), true, None, None, None, None,
         None, Some("入職日期"), Some(Str("2024-01-15")))),
      ("salary", FieldSpec(Some("number"), false, None, Some(0), Some(10000000), None,
         None, Some("薪資"), Some(Int(80000)))),
      ("remote_work", FieldSpec(Some("boolean"), false, None, None, None, None,
         None, Some("是否可遠程工作"), Some(Bool(true))))
    ])

  /** The rules that are used when no configuration file is present. */
  const DefaultRules := Rules([("medical_form", MedicalForm), ("employee_form", EmployeeForm)])

  // ---------------------------------------------------------------------------
  // Lookups

  /** The text that reports an unknown template name. */
  function UnknownTemplateMessage(name: string): string {
    "模板 '" + name + "' 不存在"
  }

  /** `list_templates()`: the template names in configuration order. */
  function ListTemplates(rules: Rules): seq<string> {
    KeysOf(rules.templates)
  }

  /** What `get_template_info` returns: the template, or a dictionary whose
      only entry is "error". */
  datatype TemplateInfo = Found(template: Template) | NotFound(error: string)

  /** `get_template_info(name)`. */
  function GetTemplateInfo(rules: Rules, name: string): (r: TemplateInfo)
    ensures r.NotFound? ==> r.error == UnknownTemplateMessage(name)
  {
    match Lookup(rules.templates, name)
    case Some(t) => Found(t)
    case None => NotFound(UnknownTemplateMessage(name))
  }

  /** A name is listed exactly when its information is found. */
  lemma ListedIffFound(rules: Rules, name: string)
    ensures name in ListTemplates(rules) <==> GetTemplateInfo(rules, name).Found?
  {
    var ts := rules.templates;
    if name in ListTemplates(rules) {
      var i :| 0 <= i < |ts| && KeysOf(ts)[i] == name;
      assert ts[i].0 == name;
    }
    if HasKey(ts, name) {
      var i :| 0 <= i < |ts| && ts[i].0 == name;
      assert KeysOf(ts)[i] == name;
    }
  }

  lemma DefaultTemplateNames()
    ensures ListTemplates(DefaultRules) == ["medical_form", "employee_form"]
    ensures WellFormed(DefaultRules)
  {
  }

  // ---------------------------------------------------------------------------
  // Sample records (create_sample_data)

  const MedicalSample: Record := [
    ("patient_name", Str("陳大明")),
    ("patient_id", Str("P67890")),
    ("date_of_birth", Str("1985-03-22")),
    ("gender", Str("Male")),
    ("emergency_contact", Bool(true)),
    ("phone", Str("+886-2-9876-5432")),
    ("address", Str("新北市板橋區中山路一段123號4樓")),
    ("insurance_id", Str("INS123456789"))
  ]

  const EmployeeSample: Record := [
    ("employee_name", Str("王小華")),
    ("employee_id", Str("EMP54321")),
    ("department", Str("IT")),
    ("position", Str("Software Engineer")),
    ("hire_date", Str("2024-01-15")),
    ("salary", Int(75000)),
    ("remote_work", Bool(true))
  ]

  /** The predefined samples, keyed by template name. */
  function BuiltInSample(name: string): Option<Record> {
    Lookup([("medical_form", MedicalSample), ("employee_form", EmployeeSample)], name)
  }

  /** The value generated for one field: its example when that is truthy,
      otherwise a default chosen by type. A select field whose option list is
      empty raises IndexError. */
  function SampleValue(key: string, spec: FieldSpec): Outcome<Value> {
    if spec.example.Some? && Truthy(spec.example.value) then Returned(spec.example.value)
    else if TypeOf(spec) == "boolean" then Returned(Bool(true))
    else if TypeOf(spec) == "number" then Returned(Int(100))
    else if TypeOf(spec) == "date" then Returned(Str("2024-01-01"))
    else if TypeOf(spec) == "select" && spec.options.Some? then
      (if |spec.options.value| == 0 then Raised(IndexError) else Returned(Str(spec.options.value[0])))
    else Returned(Str("Sample " + key))
  }

  /** The sample that the generating loop builds, entry by entry, for the
      given fields; the first field that raises ends it. */
  function GeneratedSample(fields: seq<(string, FieldSpec)>): Outcome<Record> {
    if fields == [] then Returned([])
    else
      match GeneratedSample(fields[..|fields| - 1])
      case Raised(e) => Raised(e)
      case Returned(sample) =>
        var key := fields[|fields| - 1].0;
        match SampleValue(key, fields[|fields| - 1].1)
        case Raised(e) => Raised(e)
        case Returned(v) => Returned(Assign(sample, key, v))
  }

  /** `create_sample_data(name)`: a built-in sample, else one generated from
      the named template, else an empty record. */
  function SampleData(rules: Rules, name: string): Outcome<Record> {
    match BuiltInSample(name)
    case Some(sample) => Returned(sample)
    case None =>
      match GetTemplateInfo(rules, name)
      case Found(t) => GeneratedSample(t.fields)
      case NotFound(_) => Returned([])
  }

  /** Generating the entry for this field raises. */
  predicate SampleValueRaises(field: (string, FieldSpec)) {
    SampleValue(field.0, field.1).Raised?
  }

  /** The generating loop raises exactly when some field's value raises. */
  lemma {:induction false} GeneratedSampleRaises(fields: seq<(string, FieldSpec)>)
    ensures GeneratedSample(fields).Raised? <==> exists i :: 0 <= i < |fields| && SampleValueRaises(fields[i])
  {
    if fields != [] {
      var init := fields[..|fields| - 1];
      var last := |fields| - 1;
      GeneratedSampleRaises(init);
      if GeneratedSample(init).Raised? {
        var i :| 0 <= i < |init| && SampleValueRaises(init[i]);
        assert fields[i] == init[i];
      } else if !SampleValueRaises(fields[last]) {
        forall i | 0 <= i < |fields| ensures !SampleValueRaises(fields[i]) {
          if i < last {
            assert fields[i] == init[i];
            assert !SampleValueRaises(init[i]);
          } else {
            assert i == last;
          }
        }
      }
    }
  }

  /** The sample holds, under the key, the value generated for it. */
  predicate HoldsSampleValue(sample: Record, key: string, spec: FieldSpec) {
    match Lookup(sample, key)
    case Some(v) => SampleValue(key, spec) == Returned(v)
    case None => false
  }

  /** A generated sample has one entry per template field, in template order,
      holding that field's sample value. */
  lemma {:induction false} GeneratedSampleEntries(fields: seq<(string, FieldSpec)>)
    requires DistinctKeys(fields)
    requires GeneratedSample(fields).Returned?
    ensures KeysOf(GeneratedSample(fields).value) == KeysOf(fields)
    ensures forall i :: 0 <= i < |fields| ==> HoldsSampleValue(GeneratedSample(fields).value, fields[i].0, fields[i].1)
  {
    if fields != [] {
      var init := fields[..|fields| - 1];
      var last := |fields| - 1;
      assert DistinctKeys(init);
      GeneratedSampleEntries(init);
      assert fields == init + [fields[last]];
      SampleEntriesStep(init, fields[last].0, fields[last].1, GeneratedSample(init).value);
    }
  }

  /** One iteration of the generating loop keeps the entries in step with the
      fields. */
  lemma SampleEntriesStep(init: seq<(string, FieldSpec)>, key: string, spec: FieldSpec, sample: Record)
    requires KeysOf(sample) == KeysOf(init)
    requires forall i :: 0 <= i < |init| ==> HoldsSampleValue(sample, init[i].0, init[i].1)
    requires forall i :: 0 <= i < |init| ==> init[i].0 != key
    requires SampleValue(key, spec).Returned?
    ensures var r := Assign(sample, key, SampleValue(key, spec).value);
            var fields := init + [(key, spec)];
            && KeysOf(r) == KeysOf(fields)
            && forall i :: 0 <= i < |fields| ==> HoldsSampleValue(r, fields[i].0, fields[i].1)
  {
    var v := SampleValue(key, spec).value;
    var fields := init + [(key, spec)];
    forall i | 0 <= i < |sample| ensures sample[i].0 != key {
      assert sample[i].0 == KeysOf(sample)[i] == KeysOf(init)[i] == init[i].0;
    }
    var r := Assign(sample, key, v);
    AssignNew(sample, key, v);
    assert KeysOf(r) == KeysOf(init) + [key];
    assert KeysOf(fields) == KeysOf(init) + [key];
    forall i | 0 <= i < |fields| ensures HoldsSampleValue(r, fields[i].0, fields[i].1) {
      AssignLookup(sample, key, v, fields[i].0);
      if i < |init| {
        assert fields[i] == init[i];
      }
    }
  }

  /** A name with no built-in sample and no template gets an empty record. */
  lemma SampleForUnknownName(rules: Rules, name: string)
    requires name != "medical_form" && name != "employee_form"
    requires name !in ListTemplates(rules)
    ensures SampleData(rules, name) == Returned([])
  {
    ListedIffFound(rules, name);
  }
}
