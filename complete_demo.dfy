/** The mapper object of the template-driven demo: it holds the mapping rules
    and the messages of the last validation, and validates records, builds
    the statistics report over a batch, and builds sample records. */
module CompleteDemo {
  import opened Python
  import opened Patterns
  import opened Templates
  import opened TemplateValidation
  import opened Statistics

  /** The messages the mapper holds after validating a batch, given the
      reports of its records: those of the last record it reached, which is
      the first whose validation raised, or else the last one. */
  function ErrorsAfter(reports: seq<Report>, before: seq<string>): seq<string> {
    if reports == [] then before
    else
      match Summarize(reports[..|reports| - 1])
      case Raised(_) => ErrorsAfter(reports[..|reports| - 1], before)
      case Returned(_) => Messages(reports[|reports| - 1].violations)
  }

  /** A batch whose summary raised at some prefix stops there. */
  lemma {:induction false} RaisedPrefixStops(reports: seq<Report>, k: int, before: seq<string>)
    requires 0 <= k <= |reports|
    requires Summarize(reports[..k]).Raised?
    ensures Summarize(reports) == Summarize(reports[..k])
    ensures ErrorsAfter(reports, before) == ErrorsAfter(reports[..k], before)
  {
    if k < |reports| {
      var init := reports[..|reports| - 1];
      assert init[..k] == reports[..k];
      RaisedPrefixStops(init, k, before);
    } else {
      assert reports[..k] == reports;
    }
  }

  class ProfessionalMapper {
    /** The loaded mapping rules. */
    const rules: Rules
    /** `float(s)` on a string: the number it denotes, or None for a
        ValueError. */
    const parseNumber: string -> Option<real>
    /** `self.validation_errors`: the messages of the last validation. */
    var validationErrors: seq<string>

    constructor (rules: Rules, parseNumber: string -> Option<real>)
      ensures this.rules == rules && this.parseNumber == parseNumber
      ensures validationErrors == []
    {
      this.rules := rules;
      this.parseNumber := parseNumber;
      validationErrors := [];
    }

    /** The type-specific check of one entry: appends its message, or
        reports that `float` raised. */
    method CheckType(key: string, spec: FieldSpec, value: Value) returns (raised: bool)
      modifies this
      ensures raised == TypeViolations(key, spec, value, parseNumber).Raised?
      ensures raised ==> validationErrors == old(validationErrors)
      ensures !raised ==> validationErrors == old(validationErrors) + Messages(TypeViolations(key, spec, value, parseNumber).value)
    {
      var text := ToStr(value);
      var fieldType := TypeOf(spec);
      ghost var found: seq<Violation> := [];
      if fieldType == "email" {
        if !Match(EmailAddress, text) {
          validationErrors := validationErrors + [Render(InvalidEmail(key))];
          found := [InvalidEmail(key)];
        }
      } else if fieldType == "phone" {
        if !ValidPhone(text) {
          validationErrors := validationErrors + [Render(InvalidPhone(key))];
          found := [InvalidPhone(key)];
        }
      } else if fieldType == "date" {
        if !ValidDate(text) {
          validationErrors := validationErrors + [Render(InvalidDate(key))];
          found := [InvalidDate(key)];
        }
      } else if fieldType == "number" {
        match ToFloat(value, parseNumber) {
          case Converted(x) =>
            CheckBounds(key, spec, x);
            found := BoundViolations(key, spec, x);
          case ConversionValueError =>
            validationErrors := validationErrors + [Render(NotANumber(key))];
            found := [NotANumber(key)];
          case ConversionTypeError =>
            return true;
        }
      }
      assert found == TypeViolations(key, spec, value, parseNumber).value;
      return false;
    }

    /** The `min_value` and `max_value` checks of a number read from a field. */
    method CheckBounds(key: string, spec: FieldSpec, x: real)
      modifies this
      ensures validationErrors == old(validationErrors) + Messages(BoundViolations(key, spec, x))
    {
      ghost var found: seq<Violation> := [];
      if spec.minValue.Some? && x < spec.minValue.value as real {
        validationErrors := validationErrors + [Render(BelowMin(key, spec.minValue.value))];
        found := [BelowMin(key, spec.minValue.value)];
      }
      if spec.maxValue.Some? && x > spec.maxValue.value as real {
        validationErrors := validationErrors + [Render(AboveMax(key, spec.maxValue.value))];
        MessagesSnoc(found, AboveMax(key, spec.maxValue.value));
        found := found + [AboveMax(key, spec.maxValue.value)];
      }
      assert found == BoundViolations(key, spec, x);
    }

    /** The length, options and pattern checks of one entry. */
    method CheckGeneral(key: string, spec: FieldSpec, value: Value)
      modifies this
      ensures validationErrors == old(validationErrors) + Messages(GeneralViolations(key, spec, value))
    {
      var text := ToStr(value);
      ghost var start := validationErrors;
      if spec.maxLength.Some? && |text| > spec.maxLength.value {
        validationErrors := validationErrors + [Render(TooLong(key, spec.maxLength.value))];
      }
      ghost var afterLength := validationErrors;
      assert afterLength == start + Messages(LengthViolations(key, spec, value));
      if spec.options.Some? && !IsOption(value, spec.options.value) {
        validationErrors := validationErrors + [Render(NotAnOption(key, spec.options.value))];
      }
      ghost var afterOptions := validationErrors;
      assert afterOptions == afterLength + Messages(OptionViolations(key, spec, value));
      if spec.pattern.Some? && !Match(spec.pattern.value, text) {
        validationErrors := validationErrors + [Render(BadPattern(key))];
      }
      assert validationErrors == afterOptions + Messages(PatternViolations(key, spec, value));
      MessagesAppended(start, afterLength, afterOptions, LengthViolations(key, spec, value), OptionViolations(key, spec, value));
      MessagesAppended(start, afterOptions, validationErrors,
        LengthViolations(key, spec, value) + OptionViolations(key, spec, value), PatternViolations(key, spec, value));
    }

    /** One iteration of the second pass: an entry whose key the template
        defines gets the type-specific checks and then the length, options
        and pattern checks; `raised` says that `float` raised. */
    method CheckEntry(fields: seq<(string, FieldSpec)>, key: string, value: Value) returns (raised: bool)
      modifies this
      ensures raised == EntryReport(fields, (key, value), parseNumber).raised
      ensures validationErrors == old(validationErrors) + Messages(EntryReport(fields, (key, value), parseNumber).violations)
    {
      var spec := Lookup(fields, key);
      if spec.None? {
        return false;
      }
      ghost var start := validationErrors;
      raised := CheckType(key, spec.value, value);
      if !raised {
        ghost var middle := validationErrors;
        CheckGeneral(key, spec.value, value);
        MessagesAppended(start, middle, validationErrors,
          TypeViolations(key, spec.value, value, parseNumber).value, GeneralViolations(key, spec.value, value));
      }
    }

    /** The first pass of `validate_data`: a message for each required field
        the record leaves absent or blank, in template order. */
    method CheckRequired(fields: seq<(string, FieldSpec)>, data: Record)
      modifies this
      ensures validationErrors == old(validationErrors) + Messages(RequiredViolations(fields, data))
    {
      for i := 0 to |fields|
        invariant validationErrors == old(validationErrors) + Messages(RequiredViolations(fields[..i], data))
      {
        RequiredViolationsStep(fields, i, data);
        MessagesConcat(RequiredViolations(fields[..i], data), RequiredCheck(data, fields[i]));
        var key := fields[i].0;
        var spec := fields[i].1;
        if spec.required {
          var present := Lookup(data, key);
          if present.None? || IsBlank(ToStr(present.value)) {
            validationErrors := validationErrors + [Render(MissingRequired(Label(key, spec)))];
          }
        }
      }
      assert fields[..|fields|] == fields;
    }

    /** The second pass of `validate_data`: the checks of every record entry
        the template defines, in record order, until `float` raises. */
    method CheckEntries(fields: seq<(string, FieldSpec)>, data: Record) returns (raised: bool)
      modifies this
      ensures raised == ContentPass(fields, data, parseNumber).raised
      ensures validationErrors == old(validationErrors) + Messages(ContentPass(fields, data, parseNumber).violations)
    {
      assert data[..0] == [];
      for j := 0 to |data|
        invariant !ContentPass(fields, data[..j], parseNumber).raised
        invariant validationErrors == old(validationErrors) + Messages(ContentPass(fields, data[..j], parseNumber).violations)
      {
        ghost var before := ContentPass(fields, data[..j], parseNumber);
        ghost var middle := validationErrors;
        ContentPassStep(fields, data, j, parseNumber);
        ghost var entry := EntryReport(fields, data[j], parseNumber);
        raised := CheckEntry(fields, data[j].0, data[j].1);
        if raised {
          ContentPassRaisedPrefix(fields, data, j + 1, parseNumber);
          return true;
        }
        MessagesAppended(old(validationErrors), middle, validationErrors, before.violations, entry.violations);
      }
      assert data[..|data|] == data;
      return false;
    }

    /** `validate_data(data, template_name)`: the messages it records and the
        verdict it returns (or the TypeError that escapes) are those of
        `Validate`. */
    method ValidateData(data: Record, name: string) returns (r: Outcome<bool>)
      modifies this
      ensures validationErrors == Messages(Validate(rules, name, data, parseNumber).violations)
      ensures r == Verdict(Validate(rules, name, data, parseNumber))
    {
      var found := Lookup(rules.templates, name);
      if found.None? {
        validationErrors := [UnknownTemplateMessage(name)];
        return Returned(false);
      }
      var fields := found.value.fields;
      var raised := CheckRecord(fields, data);
      ValidateFound(rules, name, found.value, data, parseNumber,
        RequiredViolations(fields, data), ContentPass(fields, data, parseNumber));
      if raised {
        return Raised(TypeError);
      }
      return Returned(|validationErrors| == 0);
    }

    /** Both passes over a record, against the fields of a template that was
        found, starting from no messages. */
    method CheckRecord(fields: seq<(string, FieldSpec)>, data: Record) returns (raised: bool)
      modifies this
      ensures raised == ContentPass(fields, data, parseNumber).raised
      ensures validationErrors
              == Messages(RequiredViolations(fields, data) + ContentPass(fields, data, parseNumber).violations)
    {
      validationErrors := [];
      CheckRequired(fields, data);
      assert validationErrors == Messages(RequiredViolations(fields, data));
      raised := CheckEntries(fields, data);
      MessagesConcat(RequiredViolations(fields, data), ContentPass(fields, data, parseNumber).violations);
    }

    /** `generate_statistics_report(data_list, template_name)`: the report of
        `StatisticsReport`; the mapper is left holding the messages of the
        last record it validated. */
    method GenerateStatisticsReport(records: seq<Record>, name: string) returns (r: StatsReport)
      modifies this
      ensures r == StatisticsReport(rules, name, records, parseNumber)
      ensures validationErrors
              == if HasKey(rules.templates, name)
                 then ErrorsAfter(ReportsOf(rules, name, records, parseNumber), old(validationErrors))
                 else old(validationErrors)
    {
      var found := Lookup(rules.templates, name);
      if found.None? {
        return StatsError(KeyError(name));
      }
      var fieldStats := FieldStatisticsLoop(found.value.fields, records);
      var summary := ValidationSummary(records, name);
      if summary.Raised? {
        return StatsError(summary.exception);
      }
      return Stats(|records|, name, fieldStats, summary.value);
    }

    /** The validation part of the report: each record validated in turn,
        until one raises. */
    method ValidationSummary(records: seq<Record>, name: string) returns (r: Outcome<Summary>)
      modifies this
      ensures r == SummaryOf(rules, name, records, parseNumber)
      ensures validationErrors == ErrorsAfter(ReportsOf(rules, name, records, parseNumber), old(validationErrors))
    {
      ghost var reports := ReportsOf(rules, name, records, parseNumber);
      ghost var before := validationErrors;
      var valid, invalid, commonErrors := 0, 0, [];
      for k := 0 to |records|
        invariant Summarize(reports[..k]) == Returned(Summary(valid, invalid, commonErrors))
        invariant validationErrors == ErrorsAfter(reports[..k], before)
      {
        SummarizeSnoc(reports, k, Summary(valid, invalid, commonErrors), before);
        assert reports[k] == Validate(rules, name, records[k], parseNumber);
        var step := SummaryStep(Summary(valid, invalid, commonErrors), records[k], name);
        if step.Raised? {
          RaisedPrefixStops(reports, k + 1, before);
          return step;
        }
        valid, invalid, commonErrors := step.value.valid, step.value.invalid, step.value.commonErrors;
      }
      assert reports[..|records|] == reports;
      return Returned(Summary(valid, invalid, commonErrors));
    }

    /** One record's turn in the batch: validate it, then count it as valid
        or invalid and tally its messages. */
    method SummaryStep(acc: Summary, data: Record, name: string) returns (r: Outcome<Summary>)
      modifies this
      ensures r == RecordStep(acc, Validate(rules, name, data, parseNumber))
      ensures validationErrors == Messages(Validate(rules, name, data, parseNumber).violations)
    {
      ghost var report := Validate(rules, name, data, parseNumber);
      var ok := ValidateData(data, name);
      RecordStepAccepted(acc, report);
      if ok.Raised? {
        return Raised(ok.exception);
      }
      if ok.value {
        return Returned(Summary(acc.valid + 1, acc.invalid, acc.commonErrors));
      }
      var counts := CountErrors(acc.commonErrors, validationErrors);
      return Returned(Summary(acc.valid, acc.invalid + 1, counts));
    }

    /** `create_sample_data(template_name)`: the record of `SampleData`. */
    method CreateSampleData(name: string) returns (r: Outcome<Record>)
      ensures r == SampleData(rules, name)
    {
      var builtIn := BuiltInSample(name);
      if builtIn.Some? {
        return Returned(builtIn.value);
      }
      var info := GetTemplateInfo(rules, name);
      if info.NotFound? {
        return Returned([]);
      }
      var fields := info.template.fields;
      var sample: Record := [];
      for i := 0 to |fields|
        invariant GeneratedSample(fields[..i]) == Returned(sample)
      {
        assert fields[..i + 1][..i] == fields[..i];
        var key := fields[i].0;
        var spec := fields[i].1;
        var value: Value;
        if spec.example.Some? && Truthy(spec.example.value) {
          value := spec.example.value;
        } else if TypeOf(spec) == "boolean" {
          value := Bool(true);
        } else if TypeOf(spec) == "number" {
          value := Int(100);
        } else if TypeOf(spec) == "date" {
          value := Str("2024-01-01");
        } else if TypeOf(spec) == "select" && spec.options.Some? {
          if |spec.options.value| == 0 {
            GeneratedSamplePrefixRaised(fields, i + 1);
            return Raised(IndexError);
          }
          value := Str(spec.options.value[0]);
        } else {
          value := Str("Sample " + key);
        }
        sample := Assign(sample, key, value);
      }
      assert fields[..|fields|] == fields;
      return Returned(sample);
    }
  }

  /** A sample that raised at some field stays raised. */
  lemma {:induction false} GeneratedSamplePrefixRaised(fields: seq<(string, FieldSpec)>, k: int)
    requires 0 <= k <= |fields|
    requires GeneratedSample(fields[..k]).Raised?
    ensures GeneratedSample(fields) == GeneratedSample(fields[..k])
  {
    if k < |fields| {
      var init := fields[..|fields| - 1];
      assert init[..k] == fields[..k];
      GeneratedSamplePrefixRaised(init, k);
    } else {
      assert fields[..k] == fields;
    }
  }

  /** The field part of the report: one entry per template field. */
  method FieldStatisticsLoop(fields: seq<(string, FieldSpec)>, records: seq<Record>) returns (r: seq<(string, FieldStats)>)
    ensures r == FieldStatistics(fields, records)
  {
    r := [];
    for f := 0 to |fields|
      invariant r == FieldStatistics(fields[..f], records)
    {
      var stats := FieldStatsLoop(records, fields[f].0, fields[f].1);
      assert fields[..f + 1][..f] == fields[..f];
      r := r + [(fields[f].0, stats)];
    }
    assert fields[..|fields|] == fields;
  }

  /** The loop over the batch for one template field: fill counts, distinct
      values and fill rate. */
  method FieldStatsLoop(records: seq<Record>, key: string, spec: FieldSpec) returns (stats: FieldStats)
    ensures stats == FieldStatsOf(records, key, spec)
  {
    var filled, empty, unique := 0, 0, {};
    for k := 0 to |records|
      invariant filled == FilledCount(records[..k], key)
      invariant empty == EmptyCount(records[..k], key)
      invariant unique == UniqueValues(records[..k], key)
    {
      assert records[..k + 1][..k] == records[..k];
      var v := Lookup(records[k], key);
      if v.Some? && Truthy(v.value) {
        filled := filled + 1;
        unique := unique + {ToStr(v.value)};
      } else {
        empty := empty + 1;
      }
    }
    assert records[..|records|] == records;
    var rate := 0.0;
    if |records| > 0 {
      rate := filled as real / |records| as real * 100.0;
    }
    return FieldStats(filled, empty, rate, unique, |unique|, TypeOf(spec));
  }

  /** The loop over one invalid record's messages: each one counted in
      `common_errors`. */
  method CountErrors(counts: seq<(string, nat)>, messages: seq<string>) returns (r: seq<(string, nat)>)
    ensures r == Tally(counts, messages)
  {
    r := counts;
    for e := 0 to |messages|
      invariant r == Tally(counts, messages[..e])
    {
      assert messages[..e + 1][..e] == messages[..e];
      var error := messages[e];
      var count := Lookup(r, error);
      if count.Some? {
        r := Assign(r, error, count.value + 1);
      } else {
        r := Assign(r, error, 1);
      }
    }
    assert messages[..|messages|] == messages;
  }

  /** What one record adds to the summary, by its verdict. */
  lemma RecordStepAccepted(acc: Summary, report: Report)
    ensures Verdict(report) == Returned(true) ==> RecordStep(acc, report) == Returned(Summary(acc.valid + 1, acc.invalid, acc.commonErrors))
    ensures Verdict(report) == Returned(false)
            ==> RecordStep(acc, report) == Returned(Summary(acc.valid, acc.invalid + 1, Tally(acc.commonErrors, Messages(report.violations))))
  {
  }

  /** One more record for the summary loop. */
  lemma SummarizeSnoc(reports: seq<Report>, k: int, acc: Summary, before: seq<string>)
    requires 0 <= k < |reports|
    requires Summarize(reports[..k]) == Returned(acc)
    ensures Summarize(reports[..k + 1]) == RecordStep(acc, reports[k])
    ensures ErrorsAfter(reports[..k + 1], before) == Messages(reports[k].violations)
  {
    assert reports[..k + 1][..k] == reports[..k];
  }
}
