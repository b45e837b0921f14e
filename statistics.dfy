/** The statistics report over a batch of records: per-field fill counts,
    fill rates and distinct values, and a summary of how many records pass
    validation and which messages occur how often. */
module Statistics {
  import opened Python
  import opened Templates
  import opened TemplateValidation

  // ---------------------------------------------------------------------------
  // Field statistics

  /** `field_name in data and data[field_name]`: present with a truthy value. */
  predicate Filled(data: Record, key: string) {
    match Lookup(data, key)
    case Some(v) => Truthy(v)
    case None => false
  }

  /** `str(data[field_name])` of a filled entry. */
  function FilledText(data: Record, key: string): string
    requires Filled(data, key)
  {
    ToStr(Lookup(data, key).value)
  }

  /** How many records have the field filled. */
  function FilledCount(records: seq<Record>, key: string): (n: nat)
    ensures n <= |records|
  {
    if records == [] then 0
    else FilledCount(records[..|records| - 1], key) + (if Filled(records[|records| - 1], key) then 1 else 0)
  }

  /** How many records leave the field absent or falsy. */
  function EmptyCount(records: seq<Record>, key: string): nat {
    if records == [] then 0
    else EmptyCount(records[..|records| - 1], key) + (if Filled(records[|records| - 1], key) then 0 else 1)
  }

  /** The distinct `str` forms of the filled values. */
  function UniqueValues(records: seq<Record>, key: string): set<string> {
    if records == [] then {}
    else
      var last := records[|records| - 1];
      UniqueValues(records[..|records| - 1], key) + (if Filled(last, key) then {FilledText(last, key)} else {})
  }

  /** Every record is counted once, as filled or as empty. */
  lemma {:induction false} FilledPlusEmpty(records: seq<Record>, key: string)
    ensures FilledCount(records, key) + EmptyCount(records, key) == |records|
  {
    if records != [] {
      FilledPlusEmpty(records[..|records| - 1], key);
    }
  }

  /** The count reaches the number of records exactly when every record has
      the field filled, and is zero exactly when none has. */
  lemma {:induction false} FilledCountExtremes(records: seq<Record>, key: string)
    ensures FilledCount(records, key) == |records| <==> forall i :: 0 <= i < |records| ==> Filled(records[i], key)
    ensures FilledCount(records, key) == 0 <==> forall i :: 0 <= i < |records| ==> !Filled(records[i], key)
  {
    if records != [] {
      var init := records[..|records| - 1];
      FilledCountExtremes(init, key);
      assert forall i :: 0 <= i < |init| ==> init[i] == records[i];
    }
  }

  /** A value is among the distinct values exactly when some record holds it
      in the field, filled. */
  lemma {:induction false} UniqueValuesMembers(records: seq<Record>, key: string, s: string)
    ensures s in UniqueValues(records, key)
            <==> exists i :: 0 <= i < |records| && Filled(records[i], key) && FilledText(records[i], key) == s
  {
    if records != [] {
      var init := records[..|records| - 1];
      UniqueValuesMembers(init, key, s);
      assert forall i :: 0 <= i < |init| ==> init[i] == records[i];
      if exists i :: 0 <= i < |records| && Filled(records[i], key) && FilledText(records[i], key) == s {
        var i :| 0 <= i < |records| && Filled(records[i], key) && FilledText(records[i], key) == s;
        if i < |init| {
          assert Filled(init[i], key) && FilledText(init[i], key) == s;
        }
      }
    }
  }

  /** There are never more distinct values than filled records. */
  lemma {:induction false} UniqueAtMostFilled(records: seq<Record>, key: string)
    ensures |UniqueValues(records, key)| <= FilledCount(records, key)
  {
    if records != [] {
      var init := records[..|records| - 1];
      var last := records[|records| - 1];
      UniqueAtMostFilled(init, key);
      if Filled(last, key) {
        var u := UniqueValues(init, key);
        var x := FilledText(last, key);
        if x in u {
          assert u + {x} == u;
        } else {
          assert |u + {x}| == |u| + 1;
        }
      } else {
        assert UniqueValues(records, key) == UniqueValues(init, key);
      }
    }
  }

  /** `total_filled / len(data_list) * 100`, left at 0.0 for an empty batch. */
  function FillRate(filled: nat, total: nat): (r: real)
    requires filled <= total
    ensures 0.0 <= r <= 100.0
    ensures total == 0 ==> r == 0.0
    ensures r == 100.0 <==> total > 0 && filled == total
    ensures r == 0.0 <==> filled == 0
  {
    if total > 0 then
      var r := filled as real / total as real * 100.0;
      assert filled < total ==> r < 100.0 by {
        if filled < total {
          assert filled as real / total as real < 1.0;
        }
      }
      r
    else 0.0
  }

  datatype FieldStats = FieldStats(
    totalFilled: nat,
    totalEmpty: nat,
    fillRate: real,
    uniqueValues: set<string>,
    uniqueCount: nat,
    fieldType: string)

  /** The statistics of one template field over the batch. */
  function FieldStatsOf(records: seq<Record>, key: string, spec: FieldSpec): (r: FieldStats)
    ensures r.totalFilled + r.totalEmpty == |records|
    ensures r.uniqueCount == |r.uniqueValues| <= r.totalFilled
    ensures 0.0 <= r.fillRate <= 100.0
    ensures r.fillRate == 100.0 <==> |records| > 0 && r.totalEmpty == 0
    ensures r.fieldType == TypeOf(spec)
  {
    var filled := FilledCount(records, key);
    FilledPlusEmpty(records, key);
    UniqueAtMostFilled(records, key);
    var u := UniqueValues(records, key);
    FieldStats(filled, EmptyCount(records, key), FillRate(filled, |records|), u, |u|, TypeOf(spec))
  }

  /** `stats["field_statistics"]`: one entry per template field, in template
      order. */
  function FieldStatistics(fields: seq<(string, FieldSpec)>, records: seq<Record>): (r: seq<(string, FieldStats)>)
    ensures |r| == |fields|
    ensures forall i :: 0 <= i < |fields| ==> r[i] == (fields[i].0, FieldStatsOf(records, fields[i].0, fields[i].1))
  {
    if fields == [] then []
    else
      var last := fields[|fields| - 1];
      FieldStatistics(fields[..|fields| - 1], records) + [(last.0, FieldStatsOf(records, last.0, last.1))]
  }

  // ---------------------------------------------------------------------------
  // Message counts

  /** The count stored under a message, 0 when it has none. */
  function CountOf(counts: seq<(string, nat)>, message: string): nat {
    match Lookup(counts, message)
    case Some(n) => n
    case None => 0
  }

  /** Counting one more occurrence: an existing message keeps its place, a new
      one goes to the end with count 1. */
  function Bump(counts: seq<(string, nat)>, message: string): (r: seq<(string, nat)>)
    ensures CountOf(r, message) == CountOf(counts, message) + 1
  {
    var n := match Lookup(counts, message) case Some(c) => c + 1 case None => 1;
    AssignLookup(counts, message, n, message);
    Assign(counts, message, n)
  }

  /** Counting one message leaves the others' counts alone. */
  lemma BumpOthers(counts: seq<(string, nat)>, message: string, other: string)
    requires other != message
    ensures CountOf(Bump(counts, message), other) == CountOf(counts, other)
  {
    var n := match Lookup(counts, message) case Some(c) => c + 1 case None => 1;
    AssignLookup(counts, message, n, other);
  }

  /** Counting every message of a list, in order. */
  function Tally(counts: seq<(string, nat)>, messages: seq<string>): seq<(string, nat)> {
    if messages == [] then counts
    else Bump(Tally(counts, messages[..|messages| - 1]), messages[|messages| - 1])
  }

  /** After the tally each message's count has grown by the number of times
      it occurs in the list. */
  lemma {:induction false} TallyCounts(counts: seq<(string, nat)>, messages: seq<string>, m: string)
    ensures CountOf(Tally(counts, messages), m) == CountOf(counts, m) + multiset(messages)[m]
  {
    if messages != [] {
      var init := messages[..|messages| - 1];
      var last := messages[|messages| - 1];
      TallyCounts(counts, init, m);
      assert messages == init + [last];
      assert multiset(messages)[m] == multiset(init)[m] + (if m == last then 1 else 0);
      assert Tally(counts, messages) == Bump(Tally(counts, init), last);
      if m != last {
        BumpOthers(Tally(counts, init), last, m);
      }
    }
  }

  /** A dictionary built only by counting holds a positive count under every
      key, and never holds a key twice. */
  predicate CountTable(counts: seq<(string, nat)>) {
    DistinctKeys(counts) && forall i :: 0 <= i < |counts| ==> counts[i].1 > 0
  }

  lemma BumpKeepsCountTable(counts: seq<(string, nat)>, message: string)
    requires CountTable(counts)
    ensures CountTable(Bump(counts, message))
  {
    var n := match Lookup(counts, message) case Some(c) => c + 1 case None => 1;
    AssignValues(counts, message, n);
    AssignDistinct(counts, message, n);
  }

  lemma {:induction false} TallyKeepsCountTable(counts: seq<(string, nat)>, messages: seq<string>)
    requires CountTable(counts)
    ensures CountTable(Tally(counts, messages))
  {
    if messages != [] {
      TallyKeepsCountTable(counts, messages[..|messages| - 1]);
      BumpKeepsCountTable(Tally(counts, messages[..|messages| - 1]), messages[|messages| - 1]);
    }
  }

  /** In a count table a key is present exactly when its count is positive. */
  lemma CountTableKeys(counts: seq<(string, nat)>, m: string)
    requires CountTable(counts)
    ensures HasKey(counts, m) <==> CountOf(counts, m) > 0
  {
    if HasKey(counts, m) {
      var i :| 0 <= i < |counts| && counts[i] == (m, Lookup(counts, m).value);
    }
  }

  // ---------------------------------------------------------------------------
  // Validation summary

  datatype Summary = Summary(valid: nat, invalid: nat, commonErrors: seq<(string, nat)>)

  const NoRecords := Summary(0, 0, [])

  /** What one record's validation adds to the summary; a record whose
      validation raises ends the whole report. */
  function RecordStep(acc: Summary, report: Report): Outcome<Summary> {
    match Verdict(report)
    case Raised(e) => Raised(e)
    case Returned(ok) =>
      if ok then Returned(Summary(acc.valid + 1, acc.invalid, acc.commonErrors))
      else Returned(Summary(acc.valid, acc.invalid + 1, Tally(acc.commonErrors, Messages(report.violations))))
  }

  /** The validation report of each record, in batch order. */
  function ReportsOf(rules: Rules, name: string, records: seq<Record>, parse: string -> Option<real>): (r: seq<Report>)
    ensures |r| == |records|
    ensures forall i :: 0 <= i < |records| ==> r[i] == Validate(rules, name, records[i], parse)
  {
    seq(|records|, i requires 0 <= i < |records| => Validate(rules, name, records[i], parse))
  }

  /** The summary after the records with these reports, in order. */
  function Summarize(reports: seq<Report>): Outcome<Summary> {
    if reports == [] then Returned(NoRecords)
    else
      match Summarize(reports[..|reports| - 1])
      case Raised(e) => Raised(e)
      case Returned(acc) => RecordStep(acc, reports[|reports| - 1])
  }

  /** How many of the reports accept their record. */
  function AcceptedCount(reports: seq<Report>): nat {
    if reports == [] then 0
    else AcceptedCount(reports[..|reports| - 1]) + (if Verdict(reports[|reports| - 1]) == Returned(true) then 1 else 0)
  }

  /** Every message of every report, report after report. */
  function AllMessages(reports: seq<Report>): seq<string> {
    if reports == [] then []
    else AllMessages(reports[..|reports| - 1]) + Messages(reports[|reports| - 1].violations)
  }

  /** One record's step raises exactly when its validation raised, and then
      with the TypeError that escaped. */
  lemma RecordStepRaises(acc: Summary, report: Report)
    ensures RecordStep(acc, report).Raised? <==> report.raised
    ensures RecordStep(acc, report).Raised? ==> RecordStep(acc, report) == Raised(TypeError)
  {
  }

  /** The summary is produced exactly when no record's validation raises, and
      what escapes is always the TypeError of a number field. */
  lemma SummaryRaisesIff(reports: seq<Report>)
    ensures Summarize(reports).Raised? <==> exists i :: 0 <= i < |reports| && reports[i].raised
    ensures Summarize(reports).Raised? ==> Summarize(reports) == Raised(TypeError)
  {
    if Summarize(reports).Raised? {
      var i := RaisedRecord(reports);
    } else {
      ReturnedNoneRaised(reports);
    }
  }

  /** A summary that raised names a record whose validation raised, and what
      escaped is the TypeError. */
  lemma {:induction false} RaisedRecord(reports: seq<Report>) returns (i: nat)
    requires Summarize(reports).Raised?
    ensures i < |reports| && reports[i].raised
    ensures Summarize(reports) == Raised(TypeError)
  {
    var init := reports[..|reports| - 1];
    if Summarize(init).Raised? {
      i := RaisedRecord(init);
      assert reports[i] == init[i];
    } else {
      RecordStepRaises(Summarize(init).value, reports[|reports| - 1]);
      i := |reports| - 1;
    }
  }

  /** A summary that was produced saw no record whose validation raised. */
  lemma {:induction false} ReturnedNoneRaised(reports: seq<Report>)
    requires Summarize(reports).Returned?
    ensures forall i :: 0 <= i < |reports| ==> !reports[i].raised
  {
    if reports != [] {
      var init := reports[..|reports| - 1];
      ReturnedNoneRaised(init);
      RecordStepRaises(Summarize(init).value, reports[|reports| - 1]);
      forall i | 0 <= i < |reports| ensures !reports[i].raised {
        if i < |init| {
          assert reports[i] == init[i];
        }
      }
    }
  }

  /** What a produced summary says: every record is valid or invalid, the
      valid ones are those validation accepts, and each message is counted
      as often as it is recorded over the whole batch (an accepted record
      records none). */
  lemma {:induction false} SummaryCounts(reports: seq<Report>, s: Summary)
    requires Summarize(reports) == Returned(s)
    ensures s.valid + s.invalid == |reports|
    ensures s.valid == AcceptedCount(reports)
    ensures CountTable(s.commonErrors)
    ensures forall m :: CountOf(s.commonErrors, m) == multiset(AllMessages(reports))[m]
  {
    if reports == [] {
      forall m ensures CountOf(s.commonErrors, m) == 0 { }
    } else {
      var init := reports[..|reports| - 1];
      var report := reports[|reports| - 1];
      var acc := Summarize(init).value;
      SummaryCounts(init, acc);
      var ms := Messages(report.violations);
      if Verdict(report) == Returned(true) {
        assert ms == [];
        assert AllMessages(reports) == AllMessages(init);
      } else {
        TallyKeepsCountTable(acc.commonErrors, ms);
        forall m ensures CountOf(s.commonErrors, m) == multiset(AllMessages(reports))[m] {
          TallyCounts(acc.commonErrors, ms, m);
        }
      }
    }
  }

  /** The summary of the batch validated against the named template. */
  function SummaryOf(rules: Rules, name: string, records: seq<Record>, parse: string -> Option<real>): Outcome<Summary> {
    Summarize(ReportsOf(rules, name, records, parse))
  }

  // ---------------------------------------------------------------------------
  // The report

  /** `generate_statistics_report`: the statistics, or the error dictionary
      the caught exception turns into. The generation time is not kept. */
  datatype StatsReport =
    | Stats(totalRecords: nat, templateName: string, fieldStatistics: seq<(string, FieldStats)>, summary: Summary)
    | StatsError(cause: Exception)

  function StatisticsReport(rules: Rules, name: string, records: seq<Record>, parse: string -> Option<real>): StatsReport {
    match Lookup(rules.templates, name)
    case None => StatsError(KeyError(name))
    case Some(t) =>
      match SummaryOf(rules, name, records, parse)
      case Raised(e) => StatsError(e)
      case Returned(s) => Stats(|records|, name, FieldStatistics(t.fields, records), s)
  }

  /** The report fails with KeyError exactly for a template the rules do not
      hold, with TypeError exactly when some record's validation raises, and
      otherwise holds one statistics entry per template field and a summary
      that adds up. */
  lemma StatisticsReportCases(rules: Rules, name: string, records: seq<Record>, parse: string -> Option<real>)
    ensures StatisticsReport(rules, name, records, parse) == StatsError(KeyError(name)) <==> !HasKey(rules.templates, name)
    ensures StatisticsReport(rules, name, records, parse) == StatsError(TypeError)
            <==> HasKey(rules.templates, name)
                 && exists i :: 0 <= i < |records| && Validate(rules, name, records[i], parse).raised
    ensures StatisticsReport(rules, name, records, parse).Stats? ==>
              var r := StatisticsReport(rules, name, records, parse);
              && r.totalRecords == |records|
              && |r.fieldStatistics| == |Lookup(rules.templates, name).value.fields|
              && r.summary.valid + r.summary.invalid == |records|
              && r.summary.valid == AcceptedCount(ReportsOf(rules, name, records, parse))
  {
    var reports := ReportsOf(rules, name, records, parse);
    SummaryRaisesIff(reports);
    if Summarize(reports).Returned? {
      SummaryCounts(reports, Summarize(reports).value);
    }
  }
}
