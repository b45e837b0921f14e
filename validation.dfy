/** What `validate_data` of the template-driven mapper reports for a record:
    the violations it finds, in the order it appends their messages, and
    whether a value it tries to read as a number raises TypeError on the way.
    The imperative method that builds the list lives in CompleteDemo; this
    module is the specification it is proved against. */
module TemplateValidation {
  import opened Python
  import opened Patterns
  import opened Templates

  /** One entry of the error list. Only MissingRequired names the field by its
      description; every other message quotes the record key. */
  datatype Violation =
    | UnknownTemplate(name: string)
    | MissingRequired(fieldLabel: string)
    | InvalidEmail(key: string)
    | InvalidPhone(key: string)
    | InvalidDate(key: string)
    | BelowMin(key: string, bound: int)
    | AboveMax(key: string, bound: int)
    | NotANumber(key: string)
    | TooLong(key: string, limit: int)
    | NotAnOption(key: string, options: seq<string>)
    | BadPattern(key: string)

  /** `sep.join(parts)`. */
  function Join(parts: seq<string>, sep: string): string {
    if |parts| == 0 then ""
    else if |parts| == 1 then parts[0]
    else Join(parts[..|parts| - 1], sep) + sep + parts[|parts| - 1]
  }

  function Quoted(key: string): string {
    "'" + key + "'"
  }

  /** The message text the mapper stores for a violation. */
  function Render(v: Violation): string {
    match v
    case UnknownTemplate(name) => UnknownTemplateMessage(name)
    case MissingRequired(fieldLabel) => "缺少必需字段: " + fieldLabel
    case InvalidEmail(key) => Quoted(key) + " 不是有效的電子郵件格式"
    case InvalidPhone(key) => Quoted(key) + " 不是有效的電話號碼格式"
    case InvalidDate(key) => Quoted(key) + " 不是有效的日期格式 (YYYY-MM-DD)"
    case BelowMin(key, bound) => Quoted(key) + " 的值小於最小值 " + IntToString(bound)
    case AboveMax(key, bound) => Quoted(key) + " 的值大於最大值 " + IntToString(bound)
    case NotANumber(key) => Quoted(key) + " 必須是有效數字"
    case TooLong(key, limit) => Quoted(key) + " 超過最大長度 " + IntToString(limit)
    case NotAnOption(key, options) => Quoted(key) + " 的值必須是: " + Join(options, ", ")
    case BadPattern(key) => Quoted(key) + " 格式不正確"
  }

  function Messages(vs: seq<Violation>): seq<string> {
    seq(|vs|, i requires 0 <= i < |vs| => Render(vs[i]))
  }

  // ---------------------------------------------------------------------------
  // First pass: required fields

  /** `field_config.get('description', field_name)`. */
  function Label(key: string, spec: FieldSpec): string {
    spec.description.GetOr(key)
  }

  /** `field_name not in data or not str(data[field_name]).strip()`. */
  predicate IsMissing(data: Record, key: string) {
    match Lookup(data, key)
    case None => true
    case Some(v) => IsBlank(ToStr(v))
  }

  /** The field demands a value and the record does not supply one. */
  predicate RequiredAndMissing(data: Record, field: (string, FieldSpec)) {
    field.1.required && IsMissing(data, field.0)
  }

  /** The message the first pass gives for one template field. */
  function RequiredCheck(data: Record, field: (string, FieldSpec)): seq<Violation> {
    if RequiredAndMissing(data, field) then [MissingRequired(Label(field.0, field.1))] else []
  }

  /** The messages of the first pass, in template order. */
  function RequiredViolations(fields: seq<(string, FieldSpec)>, data: Record): seq<Violation> {
    if fields == [] then [] else RequiredCheck(data, fields[0]) + RequiredViolations(fields[1..], data)
  }

  /** The first pass over a concatenation of field lists is the pass over the
      first list followed by the pass over the second. */
  lemma {:induction false} RequiredViolationsConcat(a: seq<(string, FieldSpec)>, b: seq<(string, FieldSpec)>, data: Record)
    ensures RequiredViolations(a + b, data) == RequiredViolations(a, data) + RequiredViolations(b, data)
  {
    if a == [] {
      assert a + b == b;
    } else {
      assert (a + b)[0] == a[0];
      assert (a + b)[1..] == a[1..] + b;
      RequiredViolationsConcat(a[1..], b, data);
    }
  }

  /** One iteration of the first pass's loop. */
  lemma RequiredViolationsStep(fields: seq<(string, FieldSpec)>, i: int, data: Record)
    requires 0 <= i < |fields|
    ensures RequiredViolations(fields[..i + 1], data) == RequiredViolations(fields[..i], data) + RequiredCheck(data, fields[i])
  {
    assert fields[..i + 1] == fields[..i] + [fields[i]];
    RequiredViolationsConcat(fields[..i], [fields[i]], data);
    assert [fields[i]][1..] == [];
  }

  /** The positions of the template fields that are required and missing, in
      increasing order. */
  function MissingPositions(fields: seq<(string, FieldSpec)>, data: Record): (ps: seq<int>)
    ensures forall k :: 0 <= k < |ps| ==> 0 <= ps[k] < |fields|
  {
    if fields == [] then []
    else
      MissingPositions(fields[..|fields| - 1], data)
        + (if RequiredAndMissing(data, fields[|fields| - 1]) then [|fields| - 1] else [])
  }

  /** MissingPositions lists exactly the required, missing fields, each once
      and in template order. */
  lemma {:induction false} MissingPositionsExact(fields: seq<(string, FieldSpec)>, data: Record)
    ensures var ps := MissingPositions(fields, data);
            && (forall k, l :: 0 <= k < l < |ps| ==> ps[k] < ps[l])
            && (forall i :: 0 <= i < |fields| ==> (i in ps <==> RequiredAndMissing(data, fields[i])))
  {
    if fields != [] {
      var init := fields[..|fields| - 1];
      MissingPositionsExact(init, data);
      forall i | 0 <= i < |init| ensures fields[i] == init[i] {}
    }
  }

  /** The first pass yields one message per required, missing field, in
      template order, naming it by its description (else its key). */
  lemma {:induction false} RequiredInOrder(fields: seq<(string, FieldSpec)>, data: Record)
    ensures var vs := RequiredViolations(fields, data);
            var ps := MissingPositions(fields, data);
            && |vs| == |ps|
            && forall k :: 0 <= k < |vs| ==> vs[k] == MissingRequired(Label(fields[ps[k]].0, fields[ps[k]].1))
  {
    if fields != [] {
      var init := fields[..|fields| - 1];
      RequiredInOrder(init, data);
      RequiredViolationsStep(fields, |fields| - 1, data);
      assert fields[..|fields|] == fields;
      forall i | 0 <= i < |init| ensures fields[i] == init[i] {}
    }
  }

  /** The first pass is silent exactly when every required field is present. */
  lemma RequiredEmptyIff(fields: seq<(string, FieldSpec)>, data: Record)
    ensures RequiredViolations(fields, data) == []
            <==> forall i :: 0 <= i < |fields| ==> !RequiredAndMissing(data, fields[i])
  {
    RequiredInOrder(fields, data);
    MissingPositionsExact(fields, data);
    var ps := MissingPositions(fields, data);
    if ps != [] {
      assert ps[0] in ps;
    }
  }

  /** The first pass from the k-th field on: that field's message, then the
      rest. */
  lemma RequiredViolationsFrom(fields: seq<(string, FieldSpec)>, k: int, data: Record)
    requires 0 <= k < |fields|
    ensures RequiredViolations(fields[k..], data) == RequiredCheck(data, fields[k]) + RequiredViolations(fields[k + 1..], data)
  {
    assert fields[k..][0] == fields[k];
    assert fields[k..][1..] == fields[k + 1..];
  }

  /** Fields that are not required never give a first-pass message. */
  lemma {:induction false} OptionalFieldsSilent(fields: seq<(string, FieldSpec)>, data: Record)
    requires forall i :: 0 <= i < |fields| ==> !fields[i].1.required
    ensures RequiredViolations(fields, data) == []
  {
    if fields != [] {
      assert !fields[0].1.required;
      OptionalFieldsSilent(fields[1..], data);
    }
  }

  /** False, 0 and None are present values: only a string can be blank. */
  lemma PresentNonStringNotMissing(data: Record, key: string)
    requires Lookup(data, key).Some? && !Lookup(data, key).value.Str?
    ensures !IsMissing(data, key)
  {
    NonStringNeverBlank(Lookup(data, key).value);
  }

  // ---------------------------------------------------------------------------
  // Second pass: one field

  /** What `float(value)` does: a number, ValueError or TypeError. How a
      string reads as a number is the parameter `parse`. */
  datatype Conversion = Converted(x: real) | ConversionValueError | ConversionTypeError

  function ToFloat(value: Value, parse: string -> Option<real>): Conversion {
    match value
    case Str(s) => (match parse(s) case Some(x) => Converted(x) case None => ConversionValueError)
    case Int(i) => Converted(i as real)
    case Bool(b) => Converted(if b then 1.0 else 0.0)
    case Null => ConversionTypeError
  }

  /** The bound messages for a number read from the field. */
  function BoundViolations(key: string, spec: FieldSpec, x: real): seq<Violation> {
    (if spec.minValue.Some? && x < spec.minValue.value as real then [BelowMin(key, spec.minValue.value)] else [])
    + (if spec.maxValue.Some? && x > spec.maxValue.value as real then [AboveMax(key, spec.maxValue.value)] else [])
  }

  /** The type-specific messages; a number field whose value cannot be handed
      to `float` at all raises TypeError. */
  function TypeViolations(key: string, spec: FieldSpec, value: Value, parse: string -> Option<real>): Outcome<seq<Violation>> {
    if TypeOf(spec) == "number" then
      match ToFloat(value, parse)
      case Converted(x) => Returned(BoundViolations(key, spec, x))
      case ConversionValueError => Returned([NotANumber(key)])
      case ConversionTypeError => Raised(TypeError)
    else Returned(TextViolations(key, TypeOf(spec), ToStr(value)))
  }

  /** The checks of the email, phone and date types, on `str(value)`; any
      other type but "number" has none. */
  function TextViolations(key: string, t: string, text: string): seq<Violation> {
    if t == "email" then (if Match(EmailAddress, text) then [] else [InvalidEmail(key)])
    else if t == "phone" then (if ValidPhone(text) then [] else [InvalidPhone(key)])
    else if t == "date" then (if ValidDate(text) then [] else [InvalidDate(key)])
    else []
  }

  /** The text checks give type messages only. */
  lemma TextViolationsKinds(key: string, t: string, text: string)
    ensures forall v :: v in TextViolations(key, t, text) ==> v.InvalidEmail? || v.InvalidPhone? || v.InvalidDate?
  {
  }

  /** `value in field_config["options"]`: only a string equals an option. */
  predicate IsOption(value: Value, options: seq<string>) {
    value.Str? && value.s in options
  }

  /** The checks every field type gets: length, options, pattern. */
  function GeneralViolations(key: string, spec: FieldSpec, value: Value): seq<Violation> {
    LengthViolations(key, spec, value) + OptionViolations(key, spec, value) + PatternViolations(key, spec, value)
  }

  /** `len(str(value)) > field_config["max_length"]`. */
  function LengthViolations(key: string, spec: FieldSpec, value: Value): seq<Violation> {
    if spec.maxLength.Some? && |ToStr(value)| > spec.maxLength.value then [TooLong(key, spec.maxLength.value)] else []
  }

  /** `value not in field_config["options"]`. */
  function OptionViolations(key: string, spec: FieldSpec, value: Value): seq<Violation> {
    if spec.options.Some? && !IsOption(value, spec.options.value) then [NotAnOption(key, spec.options.value)] else []
  }

  /** `not re.match(field_config["validation_pattern"], str(value))`. */
  function PatternViolations(key: string, spec: FieldSpec, value: Value): seq<Violation> {
    if spec.pattern.Some? && !Match(spec.pattern.value, ToStr(value)) then [BadPattern(key)] else []
  }

  /** All messages for one record entry whose key the template defines. */
  function CheckField(key: string, spec: FieldSpec, value: Value, parse: string -> Option<real>): Outcome<seq<Violation>> {
    match TypeViolations(key, spec, value, parse)
    case Raised(e) => Raised(e)
    case Returned(vs) => Returned(vs + GeneralViolations(key, spec, value))
  }

  /** Where a message comes in the per-field order: a type-specific message,
      then length, then options, then pattern. */
  function Rank(v: Violation): nat {
    match v
    case TooLong(_, _) => 1
    case NotAnOption(_, _) => 2
    case BadPattern(_) => 3
    case _ => 0
  }

  predicate AboutKey(v: Violation, key: string) {
    match v
    case InvalidEmail(k) => k == key
    case InvalidPhone(k) => k == key
    case InvalidDate(k) => k == key
    case BelowMin(k, _) => k == key
    case AboveMax(k, _) => k == key
    case NotANumber(k) => k == key
    case TooLong(k, _) => k == key
    case NotAnOption(k, _) => k == key
    case BadPattern(k) => k == key
    case _ => false
  }

  /** The messages for one field come in rank order, each rank at most once,
      the two bound messages excepted (both appear only when the minimum
      exceeds the maximum, see BoundsAtMostOne). */
  lemma CheckFieldOrdered(key: string, spec: FieldSpec, value: Value, parse: string -> Option<real>)
    requires CheckField(key, spec, value, parse).Returned?
    ensures var vs := CheckField(key, spec, value, parse).value;
            && (forall v :: v in vs ==> AboutKey(v, key))
            && RankOrdered(vs)
  {
    var tv := TypeViolations(key, spec, value, parse).value;
    var l, o, p := LengthViolations(key, spec, value), OptionViolations(key, spec, value), PatternViolations(key, spec, value);
    TypeViolationsOrdered(key, spec, value, parse);
    OrderedParts(key, tv, l, o, p);
    assert CheckField(key, spec, value, parse).value == tv + l + o + p;
  }

  /** Type-specific messages, then at most one length, one options and one
      pattern message, all about one key, come in rank order. */
  lemma OrderedParts(key: string, tv: seq<Violation>, l: seq<Violation>, o: seq<Violation>, p: seq<Violation>)
    requires forall v :: v in tv ==> AboutKey(v, key) && Rank(v) == 0
    requires RankOrdered(tv)
    requires l == [] || (|l| == 1 && l[0].TooLong? && l[0].key == key)
    requires o == [] || (|o| == 1 && o[0].NotAnOption? && o[0].key == key)
    requires p == [] || p == [BadPattern(key)]
    ensures forall v :: v in tv + l + o + p ==> AboutKey(v, key)
    ensures RankOrdered(tv + l + o + p)
  {
    RankOrderedConcat(tv, l, 1);
    RankOrderedConcat(tv + l, o, 2);
    RankOrderedConcat(tv + l + o, p, 3);
  }

  /** The messages come in rank order, each rank at most once, the two bound
      messages excepted. */
  predicate RankOrdered(vs: seq<Violation>) {
    forall i, j :: 0 <= i < j < |vs| ==> Rank(vs[i]) < Rank(vs[j]) || (vs[i].BelowMin? && vs[j].AboveMax?)
  }

  /** The type-specific messages are about the key, of rank 0, and in order. */
  lemma TypeViolationsOrdered(key: string, spec: FieldSpec, value: Value, parse: string -> Option<real>)
    requires TypeViolations(key, spec, value, parse).Returned?
    ensures var vs := TypeViolations(key, spec, value, parse).value;
            && (forall v :: v in vs ==> AboutKey(v, key) && Rank(v) == 0)
            && RankOrdered(vs)
  {
    if TypeOf(spec) == "number" {
      match ToFloat(value, parse)
      case Converted(x) => {
        var vs := BoundViolations(key, spec, x);
        assert |vs| == 2 ==> vs[0].BelowMin? && vs[1].AboveMax?;
      }
      case ConversionValueError => {}
    }
  }

  lemma RankOrderedConcat(a: seq<Violation>, b: seq<Violation>, r: nat)
    requires RankOrdered(a) && RankOrdered(b)
    requires forall x :: x in a ==> Rank(x) < r
    requires forall y :: y in b ==> Rank(y) == r
    ensures forall x :: x in a + b ==> Rank(x) <= r
    ensures RankOrdered(a + b)
  {
    forall i, j | 0 <= i < j < |a + b|
      ensures Rank((a + b)[i]) < Rank((a + b)[j]) || ((a + b)[i].BelowMin? && (a + b)[j].AboveMax?)
    {
      if j < |a| {
        assert (a + b)[i] == a[i] && (a + b)[j] == a[j];
      } else if i >= |a| {
        assert (a + b)[i] == b[i - |a|] && (a + b)[j] == b[j - |a|];
      } else {
        assert (a + b)[i] == a[i] && (a + b)[j] == b[j - |a|];
        assert a[i] in a && b[j - |a|] in b;
      }
    }
  }

  /** With a minimum that does not exceed the maximum a number gets at most one
      bound message. */
  lemma BoundsAtMostOne(key: string, spec: FieldSpec, x: real)
    requires spec.minValue.Some? && spec.maxValue.Some? && spec.minValue.value <= spec.maxValue.value
    ensures |BoundViolations(key, spec, x)| <= 1
  {
  }

  /** The type-specific check gives its message exactly when its condition
      holds; it raises exactly for a None number. */
  lemma TypeViolationsComplete(key: string, spec: FieldSpec, value: Value, parse: string -> Option<real>)
    ensures TypeViolations(key, spec, value, parse).Raised? <==> TypeOf(spec) == "number" && value == Null
    ensures TypeViolations(key, spec, value, parse).Returned? ==>
      var vs := TypeViolations(key, spec, value, parse).value;
      var text := ToStr(value);
      var t := TypeOf(spec);
      && (forall v :: v in vs ==> Rank(v) == 0)
      && (InvalidEmail(key) in vs <==> t == "email" && !Match(EmailAddress, text))
      && (InvalidPhone(key) in vs <==> t == "phone" && !ValidPhone(text))
      && (InvalidDate(key) in vs <==> t == "date" && !ValidDate(text))
      && (NotANumber(key) in vs <==> t == "number" && ToFloat(value, parse).ConversionValueError?)
      && (forall b :: BelowMin(key, b) in vs <==>
            t == "number" && ToFloat(value, parse).Converted? && spec.minValue == Some(b)
            && ToFloat(value, parse).x < b as real)
      && (forall b :: AboveMax(key, b) in vs <==>
            t == "number" && ToFloat(value, parse).Converted? && spec.maxValue == Some(b)
            && ToFloat(value, parse).x > b as real)
  {
    TypeViolationsText(key, spec, value, parse);
    TypeViolationsNumber(key, spec, value, parse);
  }

  lemma TypeViolationsText(key: string, spec: FieldSpec, value: Value, parse: string -> Option<real>)
    ensures TypeViolations(key, spec, value, parse).Raised? <==> TypeOf(spec) == "number" && value == Null
    ensures TypeViolations(key, spec, value, parse).Returned? ==>
      var vs := TypeViolations(key, spec, value, parse).value;
      var text := ToStr(value);
      var t := TypeOf(spec);
      && (forall v :: v in vs ==> Rank(v) == 0)
      && (InvalidEmail(key) in vs <==> t == "email" && !Match(EmailAddress, text))
      && (InvalidPhone(key) in vs <==> t == "phone" && !ValidPhone(text))
      && (InvalidDate(key) in vs <==> t == "date" && !ValidDate(text))
  {
    if TypeOf(spec) == "number" {
      match ToFloat(value, parse)
      case Converted(x) => {
        assert forall v :: v in BoundViolations(key, spec, x) ==> v.BelowMin? || v.AboveMax?;
      }
      case ConversionValueError => {}
      case ConversionTypeError => {}
    }
  }

  lemma TypeViolationsNumber(key: string, spec: FieldSpec, value: Value, parse: string -> Option<real>)
    ensures TypeViolations(key, spec, value, parse).Returned? ==>
      var vs := TypeViolations(key, spec, value, parse).value;
      var t := TypeOf(spec);
      && (NotANumber(key) in vs <==> t == "number" && ToFloat(value, parse).ConversionValueError?)
      && (forall b :: BelowMin(key, b) in vs <==>
            t == "number" && ToFloat(value, parse).Converted? && spec.minValue == Some(b)
            && ToFloat(value, parse).x < b as real)
      && (forall b :: AboveMax(key, b) in vs <==>
            t == "number" && ToFloat(value, parse).Converted? && spec.maxValue == Some(b)
            && ToFloat(value, parse).x > b as real)
  {
    if TypeOf(spec) == "number" {
      match ToFloat(value, parse)
      case Converted(x) => {
        var vs := BoundViolations(key, spec, x);
        assert forall b :: BelowMin(key, b) in vs <==> spec.minValue == Some(b) && x < b as real;
        assert forall b :: AboveMax(key, b) in vs <==> spec.maxValue == Some(b) && x > b as real;
      }
      case ConversionValueError => {}
      case ConversionTypeError => {}
    } else {
      TextViolationsKinds(key, TypeOf(spec), ToStr(value));
    }
  }

  /** Each general check gives its message exactly when its condition holds. */
  lemma GeneralViolationsComplete(key: string, spec: FieldSpec, value: Value)
    ensures var vs := GeneralViolations(key, spec, value);
      var text := ToStr(value);
      && (forall v :: v in vs ==> Rank(v) > 0)
      && (forall l :: TooLong(key, l) in vs <==> spec.maxLength == Some(l) && |text| > l)
      && (forall os :: NotAnOption(key, os) in vs <==> spec.options == Some(os) && !IsOption(value, os))
      && (BadPattern(key) in vs <==> spec.pattern.Some? && !Match(spec.pattern.value, text))
  {
    var l, o, p := LengthViolations(key, spec, value), OptionViolations(key, spec, value), PatternViolations(key, spec, value);
    assert forall v :: v in GeneralViolations(key, spec, value) <==> v in l || v in o || v in p;
    assert forall v :: v in o ==> v.NotAnOption?;
    assert forall v :: v in p ==> v.BadPattern?;
    assert forall v :: v in l ==> v.TooLong?;
  }

  /** The messages of a checked field are the type-specific ones followed by
      the general ones. */
  lemma CheckFieldParts(key: string, spec: FieldSpec, value: Value, parse: string -> Option<real>)
    ensures CheckField(key, spec, value, parse).Raised? <==> TypeOf(spec) == "number" && value == Null
    ensures CheckField(key, spec, value, parse).Returned? ==>
      && TypeViolations(key, spec, value, parse).Returned?
      && CheckField(key, spec, value, parse).value
         == TypeViolations(key, spec, value, parse).value + GeneralViolations(key, spec, value)
  {
    TypeViolationsComplete(key, spec, value, parse);
  }

  /** The checks do not short-circuit: each type-specific message is present
      exactly when its own condition holds, whatever the general checks find. */
  lemma CheckFieldTypeComplete(key: string, spec: FieldSpec, value: Value, parse: string -> Option<real>)
    requires CheckField(key, spec, value, parse).Returned?
    ensures var vs := CheckField(key, spec, value, parse).value;
      var text := ToStr(value);
      var t := TypeOf(spec);
      && (InvalidEmail(key) in vs <==> t == "email" && !Match(EmailAddress, text))
      && (InvalidPhone(key) in vs <==> t == "phone" && !ValidPhone(text))
      && (InvalidDate(key) in vs <==> t == "date" && !ValidDate(text))
      && (NotANumber(key) in vs <==> t == "number" && ToFloat(value, parse).ConversionValueError?)
      && (forall b :: BelowMin(key, b) in vs <==>
            t == "number" && ToFloat(value, parse).Converted? && spec.minValue == Some(b)
            && ToFloat(value, parse).x < b as real)
      && (forall b :: AboveMax(key, b) in vs <==>
            t == "number" && ToFloat(value, parse).Converted? && spec.maxValue == Some(b)
            && ToFloat(value, parse).x > b as real)
  {
    CheckFieldParts(key, spec, value, parse);
    TypeViolationsComplete(key, spec, value, parse);
    GeneralViolationsComplete(key, spec, value);
    var tv := TypeViolations(key, spec, value, parse).value;
    var gv := GeneralViolations(key, spec, value);
    forall v | Rank(v) == 0 ensures v in tv + gv <==> v in tv {
      assert v !in gv;
    }
  }

  /** Each general message is present exactly when its own condition holds,
      whatever the type-specific check finds. */
  lemma CheckFieldGeneralComplete(key: string, spec: FieldSpec, value: Value, parse: string -> Option<real>)
    requires CheckField(key, spec, value, parse).Returned?
    ensures var vs := CheckField(key, spec, value, parse).value;
      var text := ToStr(value);
      && (forall l :: TooLong(key, l) in vs <==> spec.maxLength == Some(l) && |text| > l)
      && (forall os :: NotAnOption(key, os) in vs <==> spec.options == Some(os) && !IsOption(value, os))
      && (BadPattern(key) in vs <==> spec.pattern.Some? && !Match(spec.pattern.value, text))
  {
    CheckFieldParts(key, spec, value, parse);
    TypeViolationsComplete(key, spec, value, parse);
    GeneralViolationsComplete(key, spec, value);
    var tv := TypeViolations(key, spec, value, parse).value;
    var gv := GeneralViolations(key, spec, value);
    forall v | Rank(v) > 0 ensures v in tv + gv <==> v in gv {
      assert v !in tv;
    }
  }

  /** A number field whose value does not parse gets exactly one number
      message and no bound message. */
  lemma UnparsableNumber(key: string, spec: FieldSpec, value: Value, parse: string -> Option<real>)
    requires TypeOf(spec) == "number" && ToFloat(value, parse).ConversionValueError?
    ensures CheckField(key, spec, value, parse) == Returned([NotANumber(key)] + GeneralViolations(key, spec, value))
    ensures forall v :: v in GeneralViolations(key, spec, value) ==> !v.NotANumber? && !v.BelowMin? && !v.AboveMax?
  {
  }

  /** The bounds are inclusive: a number equal to the minimum or the maximum
      gets no bound message. */
  lemma BoundsInclusive(key: string, spec: FieldSpec, x: real)
    requires spec.minValue.Some? && spec.maxValue.Some?
    requires x == spec.minValue.value as real || x == spec.maxValue.value as real
    requires spec.minValue.value <= spec.maxValue.value
    ensures BoundViolations(key, spec, x) == []
  {
  }

  // ---------------------------------------------------------------------------
  // Second pass: the record

  /** The outcome of the mapper's checks: the messages appended so far and
      whether the checks ended by raising. */
  datatype Report = Report(violations: seq<Violation>, raised: bool)

  /** Running a pass over a first stretch of the record and then over the
      rest: the second stretch is not reached once the first has raised. */
  function Then(first: Report, second: Report): Report {
    if first.raised then first else Report(first.violations + second.violations, second.raised)
  }

  /** The second pass over the record entries, in record order; entries whose
      key the template does not define are skipped. */
  function ContentPass(fields: seq<(string, FieldSpec)>, data: Record, parse: string -> Option<real>): Report {
    if data == [] then Report([], false)
    else Then(EntryReport(fields, data[0], parse), ContentPass(fields, data[1..], parse))
  }

  /** What the second pass does with one entry. */
  function EntryReport(fields: seq<(string, FieldSpec)>, entry: (string, Value), parse: string -> Option<real>): Report {
    match Lookup(fields, entry.0)
    case None => Report([], false)
    case Some(spec) =>
      match CheckField(entry.0, spec, entry.1, parse)
      case Raised(_) => Report([], true)
      case Returned(vs) => Report(vs, false)
  }

  /** The second pass over a concatenation is the pass over the first part
      followed by the pass over the second: entries are checked in record
      order and their messages follow one another. */
  lemma ThenAssociative(x: Report, y: Report, z: Report)
    ensures Then(Then(x, y), z) == Then(x, Then(y, z))
  {
    if !x.raised && !y.raised {
      assert (x.violations + y.violations) + z.violations == x.violations + (y.violations + z.violations);
    }
  }

  lemma {:induction false} ContentPassSplit(fields: seq<(string, FieldSpec)>, a: Record, b: Record, parse: string -> Option<real>)
    ensures ContentPass(fields, a + b, parse) == Then(ContentPass(fields, a, parse), ContentPass(fields, b, parse))
  {
    if a == [] {
      assert a + b == b;
    } else {
      var e := EntryReport(fields, a[0], parse);
      assert (a + b)[0] == a[0];
      assert (a + b)[1..] == a[1..] + b;
      ContentPassSplit(fields, a[1..], b, parse);
      ThenAssociative(e, ContentPass(fields, a[1..], parse), ContentPass(fields, b, parse));
    }
  }

  lemma ThenClean(x: Report, y: Report)
    ensures Then(x, y) == Report([], false) <==> x == Report([], false) && y == Report([], false)
    ensures y == Report([], false) ==> Then(x, y) == x
  {
    if y == Report([], false) && !x.raised {
      assert x.violations + [] == x.violations;
    }
  }

  /** One iteration of the second pass's loop. */
  lemma ContentPassStep(fields: seq<(string, FieldSpec)>, data: Record, i: int, parse: string -> Option<real>)
    requires 0 <= i < |data|
    ensures ContentPass(fields, data[..i + 1], parse)
            == Then(ContentPass(fields, data[..i], parse), EntryReport(fields, data[i], parse))
  {
    assert data[..i + 1] == data[..i] + [data[i]];
    ContentPassSplit(fields, data[..i], [data[i]], parse);
    assert [data[i]][1..] == [];
    ThenClean(EntryReport(fields, data[i], parse), Report([], false));
  }

  /** An entry whose key the template does not define contributes nothing. */
  lemma ForeignEntrySilent(fields: seq<(string, FieldSpec)>, entry: (string, Value), parse: string -> Option<real>)
    requires !HasKey(fields, entry.0)
    ensures ContentPass(fields, [entry], parse) == Report([], false)
  {
    assert [entry][1..] == [];
  }

  /** The second pass finds nothing exactly when every entry the template
      defines passes its checks. */
  lemma {:induction false} ContentPassCleanIff(fields: seq<(string, FieldSpec)>, data: Record, parse: string -> Option<real>)
    ensures ContentPass(fields, data, parse) == Report([], false)
            <==> forall i :: 0 <= i < |data| ==> EntryReport(fields, data[i], parse) == Report([], false)
  {
    if data != [] {
      var tail := data[1..];
      ContentPassCleanIff(fields, tail, parse);
      ThenClean(EntryReport(fields, data[0], parse), ContentPass(fields, tail, parse));
      forall i | 0 < i < |data| ensures data[i] == tail[i - 1] {}
    }
  }

  // ---------------------------------------------------------------------------
  // validate_data

  /** `validate_data(data, name)`: an unknown template gives the one message
      naming it; otherwise the first pass followed by the second. */
  function Validate(rules: Rules, name: string, data: Record, parse: string -> Option<real>): Report {
    match Lookup(rules.templates, name)
    case None => Report([UnknownTemplate(name)], false)
    case Some(t) =>
      Then(Report(RequiredViolations(t.fields, data), false), ContentPass(t.fields, data, parse))
  }

  /** Validation against a template that is found: the first pass, then the
      second. */
  lemma ValidateFound(rules: Rules, name: string, t: Template, data: Record, parse: string -> Option<real>,
                      first: seq<Violation>, second: Report)
    requires Lookup(rules.templates, name) == Some(t)
    requires RequiredViolations(t.fields, data) == first
    requires ContentPass(t.fields, data, parse) == second
    ensures Validate(rules, name, data, parse) == Report(first + second.violations, second.raised)
  {
  }

  /** Once a stretch at the front of the record raises, the rest of the
      record is not looked at. */
  lemma ContentPassRaisedPrefix(fields: seq<(string, FieldSpec)>, data: Record, i: int, parse: string -> Option<real>)
    requires 0 <= i <= |data|
    requires ContentPass(fields, data[..i], parse).raised
    ensures ContentPass(fields, data, parse) == ContentPass(fields, data[..i], parse)
  {
    assert data == data[..i] + data[i..];
    ContentPassSplit(fields, data[..i], data[i..], parse);
  }

  /** One more violation adds its message at the end. */
  lemma MessagesSnoc(vs: seq<Violation>, v: Violation)
    ensures Messages(vs + [v]) == Messages(vs) + [Render(v)]
  {
  }

  /** Appending the messages of two lists in turn appends the messages of
      their concatenation. */
  lemma MessagesAppended(start: seq<string>, middle: seq<string>, end: seq<string>, a: seq<Violation>, b: seq<Violation>)
    requires middle == start + Messages(a) && end == middle + Messages(b)
    ensures end == start + Messages(a + b)
  {
    MessagesConcat(a, b);
  }

  /** The messages of a list of violations, one after the other. */
  lemma MessagesConcat(a: seq<Violation>, b: seq<Violation>)
    ensures Messages(a + b) == Messages(a) + Messages(b)
  {
  }

  /** What the call gives its caller: True exactly when no message was
      recorded, or the TypeError that escaped. */
  function Verdict(report: Report): (r: Outcome<bool>)
    ensures r == Returned(true) <==> !report.raised && report.violations == []
    ensures r == Returned(false) <==> !report.raised && report.violations != []
    ensures r.Raised? <==> report.raised
  {
    if report.raised then Raised(TypeError) else Returned(|report.violations| == 0)
  }

  /** An unknown template name leaves exactly one message, naming it, and the
      record is rejected. */
  lemma UnknownTemplateRejected(rules: Rules, name: string, data: Record, parse: string -> Option<real>)
    requires name !in ListTemplates(rules)
    ensures Messages(Validate(rules, name, data, parse).violations) == [UnknownTemplateMessage(name)]
    ensures Verdict(Validate(rules, name, data, parse)) == Returned(false)
  {
    ListedIffFound(rules, name);
  }

  /** Looking a template field up in the record is not affected by an entry
      with another key. */
  lemma MissingUnaffected(a: Record, entry: (string, Value), b: Record, key: string)
    requires entry.0 != key
    ensures IsMissing(a + [entry] + b, key) <==> IsMissing(a + b, key)
  {
    LookupConcat(a + [entry], b, key);
    LookupConcat(a, [entry], key);
    LookupConcat(a, b, key);
    assert !HasKey([entry], key);
    assert HasKey(a + [entry], key) <==> HasKey(a, key) by {
      if HasKey(a + [entry], key) {
        var i :| 0 <= i < |a + [entry]| && (a + [entry])[i].0 == key;
        assert a[i].0 == key;
      }
      if HasKey(a, key) {
        var i :| 0 <= i < |a| && a[i].0 == key;
        assert (a + [entry])[i].0 == key;
      }
    }
  }

  lemma {:induction false} RequiredUnaffected(fields: seq<(string, FieldSpec)>, a: Record, entry: (string, Value), b: Record)
    requires !HasKey(fields, entry.0)
    ensures RequiredViolations(fields, a + [entry] + b) == RequiredViolations(fields, a + b)
  {
    if fields != [] {
      var tail := fields[1..];
      forall i | 0 <= i < |tail| ensures tail[i].0 != entry.0 {
        assert tail[i] == fields[i + 1];
      }
      assert fields[0].0 != entry.0;
      RequiredUnaffected(tail, a, entry, b);
      MissingUnaffected(a, entry, b, fields[0].0);
    }
  }

  /** Inserting an entry whose key the template does not define, at any place
      in the record, changes neither the messages nor the verdict. */
  lemma ForeignKeyIgnored(rules: Rules, name: string, a: Record, entry: (string, Value), b: Record, parse: string -> Option<real>)
    requires Lookup(rules.templates, name).Some?
    requires !HasKey(Lookup(rules.templates, name).value.fields, entry.0)
    ensures Validate(rules, name, a + [entry] + b, parse) == Validate(rules, name, a + b, parse)
  {
    var fields := Lookup(rules.templates, name).value.fields;
    RequiredUnaffected(fields, a, entry, b);
    ContentPassSplit(fields, a + [entry], b, parse);
    ContentPassSplit(fields, a, [entry], parse);
    ContentPassSplit(fields, a, b, parse);
    ForeignEntrySilent(fields, entry, parse);
    ThenClean(ContentPass(fields, a, parse), Report([], false));
  }

  /** A record is accepted exactly when every required field is present and
      every entry the template defines passes its checks. */
  lemma AcceptedIff(rules: Rules, name: string, data: Record, parse: string -> Option<real>)
    requires Lookup(rules.templates, name).Some?
    ensures var fields := Lookup(rules.templates, name).value.fields;
            Verdict(Validate(rules, name, data, parse)) == Returned(true)
            <==> && (forall i :: 0 <= i < |fields| ==> !RequiredAndMissing(data, fields[i]))
                 && (forall i :: 0 <= i < |data| ==> EntryReport(fields, data[i], parse) == Report([], false))
  {
    var fields := Lookup(rules.templates, name).value.fields;
    RequiredEmptyIff(fields, data);
    ContentPassCleanIff(fields, data, parse);
  }
}
