# PDF form field mapper: the validators, in Dafny

The repository is a PDF form filler for patient and employee records. Its
core is `ProfessionalPDFMapper` (complete_demo.py), which works from a table
of templates. Each template names its fields, and each field has a type
(text, email, phone, date, number, select, boolean, textarea), a required
flag, and optionally a maximum length, a list of options, bounds and a
regular expression. `validate_data` checks a record against a named template
and collects error messages in `validation_errors`. It runs two passes:

- it first checks the required fields, in template order;
- it then checks each record entry whose key the template defines, in record
  order: one type check, then length, then options, then pattern.

`generate_statistics_report` runs the validator over a batch. For each field
it counts filled and empty entries and distinct values; it also counts valid
and invalid records and how often each message occurs. `list_templates`,
`get_template_info` and `create_sample_data` look things up in the table and
build sample records from it.

Two smaller mappers have fixed rules:

- `EnglishPDFMapper` (streamlit_app.py) checks three required fields, the
  patient-number shape, and the phone, e-mail and insurance number when they
  are given;
- `SimplePDFMapper` (simple_demo.py) checks only the three required fields.

Both render a record as table rows, with Yes/No for booleans and long values
truncated. Both ship sample records. The simple demo's interactive mode
turns typed answers into a record, converting boolean words to booleans.

The model follows the source's structure:

| module | file | what it holds |
|---|---|---|
| `Python` | python.dfy | the Python semantics the code relies on: values and `str()`, truthiness, `strip()` with Python's whitespace set, ASCII `lower()`, dicts as ordered key/value lists with assignment in insertion order |
| `Patterns` | patterns.dfy | the concrete regular expressions that occur, as predicates with `re.match`'s anchoring; the phone cleaning rule; the `strptime('%Y-%m-%d')` acceptance rule |
| `Templates` | templates.dfy | field specifications, templates, the built-in table, `list_templates`, `get_template_info` and the sample builder as functions |
| `TemplateValidation` | validation.dfy | violations and their messages; the required pass, the per-field checks and the content pass as functions; the verdict |
| `Statistics` | statistics.dfy | the statistics report as functions: fill counts, distinct values, fill rate, error tallies, the validation summary |
| `CompleteDemo` | complete_demo.dfy | class `ProfessionalMapper`, whose methods update `validationErrors` in loops as the source does, each proved equal to the functions above |
| `TemplateExamples` | template_examples.dfy | the built-in table applied to concrete records and fields |
| `PatientForms` | patient_forms.dfy | what the two fixed-rule mappers share: the required-field loop, the display rules, the first entries of their samples |
| `StreamlitApp` | streamlit_app.dfy | class `EnglishMapper`, its message function, the PDF table rows and the four samples |
| `SimpleDemo` | simple_demo.dfy | class `SimpleMapper`, its table rows, its sample, and the conversion of typed answers |

Two behaviours of the code are worth stating outright:

- The content messages quote the raw key of the field
  (complete_demo.py:307-336). Only the missing-field message names a field
  by its description (complete_demo.py:295).
- For the record `{"patient_id": "p123", "date_of_birth": "1990-13-40"}`
  the built-in medical template gives four messages, because `gender` is
  required as well as the name (`TemplateExamples.MedicalScenario`). A
  template with only the name, number and birth-date fields gives three
  (`TemplateExamples.NameIdBirthScenario`).

## Model

| member | source | states |
|---|---|---|
| Python.TrimStart | complete_demo.py:294 | `lstrip()`: the result is a suffix of the input, everything removed is whitespace, and the result does not start with whitespace |
| Python.TrimEnd | complete_demo.py:294 | `rstrip()`: the result is a prefix of the input, everything removed is whitespace, and the result does not end with whitespace |
| Python.BlankIffAllSpace | complete_demo.py:294 | `not s.strip()` holds exactly when every character of s is whitespace |
| Python.NotBlankWhenLeadingText | complete_demo.py:294 | a string starting with a non-whitespace character is not blank |
| Python.NonStringNeverBlank | complete_demo.py:294 | `str()` of an int, a bool or None is never blank, so False, 0 and None count as present |
| Python.StripIdempotent | simple_demo.py:315 | a stripped string neither starts nor ends with whitespace, and stripping it again changes nothing |
| Python.StripUntrimmed | simple_demo.py:315 | a string that neither starts nor ends with whitespace is its own strip |
| Python.Lower | simple_demo.py:318-320 | `lower()` keeps the length |
| Python.LowerTo | simple_demo.py:318-320 | `lower()` works character by character: if each character of s lowers to the matching character of t, then s lowers to t |
| Python.DigitChar | complete_demo.py:328-329 | the digit character for 0-9 is a digit with that value |
| Python.NatToString | complete_demo.py:320-329 | `str()` of a natural number is a non-empty digit string, with no leading zero, whose decimal value is the number |
| Python.Lookup | complete_demo.py:293-300 | `data[key]` is defined exactly when the key is present, and then it is the value stored with that key |
| Python.AssignLookup | complete_demo.py:630-650 | after `d[key] = value`, key gives value and every other key gives what it gave before |
| Python.AssignNew | complete_demo.py:630-650 | assigning to a new key appends the entry at the end (insertion order) |
| Python.AssignKeys | complete_demo.py:630-650 | assignment adds the key at the end when it is new and keeps the key order otherwise |
| Python.AssignValues | complete_demo.py:630-650 | assignment changes no value other than the assigned one |
| Python.AssignDistinct | complete_demo.py:630-650 | assignment keeps the keys distinct |
| Patterns.IndexOf | complete_demo.py:353 | the first position of a character, or the length when it is absent |
| Patterns.LastIndexOf | complete_demo.py:353 | the last position of a character, or -1 when it is absent |
| Patterns.EmailBodyIffSplit | complete_demo.py:351-354 | a string fits `[a-zA-Z0-9._%+-]+@[a-zA-Z0-9.-]+\.[a-zA-Z]{2,}` exactly when it splits at an '@' and a later '.' into a local part, a domain and a suffix of at least two letters |
| Patterns.EmailBodySplits | complete_demo.py:351-354 | a matching string splits at its first '@' and at the last '.' after it |
| Patterns.EmailSplitIsBody | complete_demo.py:351-354 | any such split shows the string matches |
| Patterns.NewlineAbsorbed | complete_demo.py:146 | for the name and phone character classes, `re.match` with `$` accepts a string exactly when the whole string matches; a trailing "\n" is itself in the class |
| Patterns.RemoveSeparatorsDigits | complete_demo.py:356-360 | after removing whitespace, `-`, `(`, `)` and `+`, the rest is all digits exactly when every character is a digit or one of those separators, and then its length is the number of digits |
| Patterns.ValidPhoneIff | complete_demo.py:356-360 | `_validate_phone` accepts exactly the strings made of digits and separators that hold at least 8 digits |
| Patterns.ParseDate | complete_demo.py:362-368 | a parsed date has a month of 1-12, a day of 1-31 and a year of at most 9999 |
| Patterns.Value4 | complete_demo.py:362-368 | the year field is the decimal value of its four digits |
| Patterns.CanonicalDate | complete_demo.py:362-368 | a `YYYY-MM-DD` string is accepted exactly when the year is at least 1, the month is 1-12 and the day is within that month's length, with Gregorian leap years |
| Patterns.TwoDigitValue | complete_demo.py:362-368 | a two-digit month or day token has its decimal value, and is a valid month (day) token exactly when that value is 1-12 (1-31) |
| Templates.GetTemplateInfo | complete_demo.py:572-575 | an unknown name gives the "template does not exist" error naming it |
| Templates.ListedIffFound | complete_demo.py:568-575 | a name is listed by `list_templates` exactly when `get_template_info` finds it |
| Templates.DefaultTemplateNames | complete_demo.py:100-224 | the built-in table lists medical_form then employee_form, and its templates have distinct names and distinct field keys |
| Templates.GeneratedSampleRaises | complete_demo.py:627-650 | building a sample from fields fails exactly when some field without a truthy example is a select with an empty option list (`options[0]` raises IndexError) |
| Templates.GeneratedSampleEntries | complete_demo.py:627-650 | a built sample has the template's keys in template order, each holding its truthy example or else the default for its type: True, 100, "2024-01-01", the first option, or "Sample <key>" |
| Templates.SampleEntriesStep | complete_demo.py:629-650 | one loop step keeps the keys in template order and each built entry correct |
| Templates.SampleForUnknownName | complete_demo.py:625-652 | a name that is neither predefined nor in the table gives the empty record |
| TemplateValidation.RequiredViolationsConcat | complete_demo.py:292-295 | the required pass over two runs of fields is the pass over the first followed by the pass over the second |
| TemplateValidation.RequiredViolationsStep | complete_demo.py:292-295 | one step of the required loop appends the check of that field |
| TemplateValidation.MissingPositions | complete_demo.py:292-295 | the positions of the fields that are required and missing are positions of the template |
| TemplateValidation.MissingPositionsExact | complete_demo.py:292-295 | those positions are increasing and hold exactly the required fields that are absent or whose `str(value).strip()` is empty |
| TemplateValidation.RequiredInOrder | complete_demo.py:292-295 | the required pass gives one message per such field, in template order, naming its description (else its key) |
| TemplateValidation.RequiredEmptyIff | complete_demo.py:292-295 | the required pass gives no message exactly when no required field is missing |
| TemplateValidation.RequiredViolationsFrom | complete_demo.py:292-295 | the pass from field k on is field k's check followed by the pass over the rest |
| TemplateValidation.OptionalFieldsSilent | complete_demo.py:293 | fields that are not required never give a message |
| TemplateValidation.PresentNonStringNotMissing | complete_demo.py:294 | a present int, bool or None value is never missing |
| TemplateValidation.TextViolationsKinds | complete_demo.py:305-315 | the type check of a non-number value can only give an e-mail, phone or date message |
| TemplateValidation.TypeViolationsComplete | complete_demo.py:303-325 | the type check raises exactly for a number field holding None; otherwise each type message occurs exactly when its condition holds, for example "less than the minimum b" exactly for a converted number below the minimum b |
| TemplateValidation.TypeViolationsText | complete_demo.py:303-315 | the e-mail, phone and date messages occur exactly for a field of that type whose `str(value)` is rejected by the matching helper |
| TemplateValidation.TypeViolationsNumber | complete_demo.py:317-325 | for a number field: the "must be a valid number" message exactly on a ValueError, and each bound message exactly when the converted value is strictly outside that bound |
| TemplateValidation.GeneralViolationsComplete | complete_demo.py:328-336 | the length, options and pattern messages each occur exactly when `len(str(value))` exceeds the maximum, the value is not among the options, or `re.match` of the pattern fails |
| TemplateValidation.CheckFieldParts | complete_demo.py:303-336 | a field's messages are its type messages followed by its general messages, with no short-circuit |
| TemplateValidation.CheckFieldOrdered | complete_demo.py:303-336 | every message of a field names that field, in the order type, length, options, pattern |
| TemplateValidation.TypeViolationsOrdered | complete_demo.py:303-325 | the type messages name the field and come first |
| TemplateValidation.BoundsAtMostOne | complete_demo.py:319-322 | with min <= max, at most one bound message |
| TemplateValidation.CheckFieldTypeComplete | complete_demo.py:303-325 | when the check returns, each type message of the field occurs exactly under its condition |
| TemplateValidation.CheckFieldGeneralComplete | complete_demo.py:328-336 | when the check returns, each general message of the field occurs exactly under its condition |
| TemplateValidation.UnparsableNumber | complete_demo.py:317-325 | a number field whose value does not convert gives exactly one "must be a valid number" message and no bound message |
| TemplateValidation.BoundsInclusive | complete_demo.py:319-322 | a value equal to the minimum or to the maximum gives no bound message |
| TemplateValidation.ThenAssociative | complete_demo.py:298-336 | chaining entry reports is associative |
| TemplateValidation.ThenClean | complete_demo.py:298-336 | a chain is clean exactly when both parts are clean, and a clean tail changes nothing |
| TemplateValidation.ContentPassSplit | complete_demo.py:298-300 | the content pass over a record split in two is the pass over the first part chained with the pass over the second: entries are checked in record order |
| TemplateValidation.ContentPassStep | complete_demo.py:298-300 | one step of the content loop chains the report of that entry |
| TemplateValidation.ForeignEntrySilent | complete_demo.py:299 | an entry whose key the template does not define gives no message |
| TemplateValidation.ContentPassCleanIff | complete_demo.py:298-336 | the content pass is clean exactly when every entry's report is clean |
| TemplateValidation.ContentPassRaisedPrefix | complete_demo.py:317-325 | once an entry raises (float(None) in a number field), later entries are not checked |
| TemplateValidation.ValidateFound | complete_demo.py:279-349 | for a known template, the messages are the required pass followed by the content pass |
| TemplateValidation.MessagesConcat | complete_demo.py:279-349 | rendering messages distributes over concatenation |
| TemplateValidation.Verdict | complete_demo.py:338-349 | the result is True exactly when nothing was raised and the list is empty, False when nothing was raised and the list is not empty, and an exception when one was raised |
| TemplateValidation.UnknownTemplateRejected | complete_demo.py:281-286 | an unknown template name leaves exactly one "template does not exist" message, naming it, and gives False |
| TemplateValidation.MissingUnaffected | complete_demo.py:294 | inserting an entry under another key does not change whether a key is missing |
| TemplateValidation.RequiredUnaffected | complete_demo.py:292-295 | inserting an entry whose key the template does not define leaves the required pass unchanged |
| TemplateValidation.ForeignKeyIgnored | complete_demo.py:298-300 | inserting an entry whose key the template does not define, anywhere in the record, changes neither the messages nor the verdict |
| TemplateValidation.AcceptedIff | complete_demo.py:279-349 | a record is accepted exactly when no required field is missing and every entry's report is clean |
| Statistics.FilledCount | complete_demo.py:531-536 | the number of records in which the field is filled (present and truthy) is at most the number of records |
| Statistics.FilledPlusEmpty | complete_demo.py:531-536 | filled + empty == number of records, for every field |
| Statistics.FilledCountExtremes | complete_demo.py:531-536 | all records are filled exactly when every record has a truthy value, and none exactly when no record has one |
| Statistics.UniqueValuesMembers | complete_demo.py:533-534 | a string is among the distinct values exactly when it is `str()` of some record's truthy value for the field |
| Statistics.UniqueAtMostFilled | complete_demo.py:540-541 | unique_count <= total_filled |
| Statistics.FillRate | complete_demo.py:538-539 | the fill rate is between 0 and 100, 0 for an empty batch, 100 exactly when the batch is non-empty and every record is filled, and 0 exactly when the batch is empty or no record is filled |
| Statistics.FieldStatsOf | complete_demo.py:522-544 | a field's statistics: filled + empty == total, unique_count is the number of distinct values and at most the filled count, the fill rate is in 0-100 and is 100 exactly when the batch is non-empty and every record is filled, and the type defaults to text |
| Statistics.FieldStatistics | complete_demo.py:521-544 | one statistics entry per template field, in template order |
| Statistics.Bump | complete_demo.py:552-556 | bumping a message adds one to its count |
| Statistics.BumpOthers | complete_demo.py:552-556 | and leaves every other message's count alone |
| Statistics.TallyCounts | complete_demo.py:551-556 | after tallying a list of messages, each message's count grows by the number of times it occurs in the list |
| Statistics.BumpKeepsCountTable | complete_demo.py:552-556 | bumping keeps the table's keys distinct and its counts positive |
| Statistics.TallyKeepsCountTable | complete_demo.py:551-556 | tallying keeps the table's keys distinct and its counts positive |
| Statistics.CountTableKeys | complete_demo.py:552-556 | a message is in the table exactly when its count is positive |
| Statistics.ReportsOf | complete_demo.py:547-548 | one validation report per record, each the record validated against the template |
| Statistics.RecordStepRaises | complete_demo.py:547-556 | a record whose validation raises makes the summary raise TypeError |
| Statistics.SummaryRaisesIff | complete_demo.py:547-562 | the summary raises exactly when some record's validation raises |
| Statistics.RaisedRecord | complete_demo.py:547-562 | a raised summary points to a record that raised |
| Statistics.ReturnedNoneRaised | complete_demo.py:547-562 | a completed summary means no record raised |
| Statistics.SummaryCounts | complete_demo.py:547-556 | valid + invalid == number of records; valid is the number of accepted records; each message's count is its number of occurrences over all records (accepted records have none) |
| Statistics.StatisticsReportCases | complete_demo.py:503-562 | an unknown template gives the KeyError report and a raising record the TypeError report; otherwise the report holds the total, one entry per field, and a summary whose counts add up to the total |
| CompleteDemo.RaisedPrefixStops | complete_demo.py:547-562 | once a record raises, later records change neither the summary nor the error list |
| CompleteDemo.ProfessionalMapper.CheckType | complete_demo.py:303-325 | appends the type messages of the entry, or reports that it raised and appends nothing |
| CompleteDemo.ProfessionalMapper.CheckBounds | complete_demo.py:319-322 | appends the bound messages of the number |
| CompleteDemo.ProfessionalMapper.CheckGeneral | complete_demo.py:328-336 | appends the length, options and pattern messages |
| CompleteDemo.ProfessionalMapper.CheckEntry | complete_demo.py:299-336 | appends the entry's messages and reports whether it raised; entries with unknown keys append nothing |
| CompleteDemo.ProfessionalMapper.CheckRequired | complete_demo.py:292-295 | the required loop appends exactly the required pass's messages |
| CompleteDemo.ProfessionalMapper.CheckEntries | complete_demo.py:298-336 | the content loop appends exactly the content pass's messages and stops at the first raise |
| CompleteDemo.ProfessionalMapper.CheckRecord | complete_demo.py:281-336 | after clearing, the list holds the required messages followed by the content messages |
| CompleteDemo.ProfessionalMapper.ValidateData | complete_demo.py:279-349 | the list is cleared and then holds the messages of `Validate`, and the result is its verdict |
| CompleteDemo.ProfessionalMapper.GenerateStatisticsReport | complete_demo.py:503-562 | returns the statistics report function's value; the list ends as left by the last record validated |
| CompleteDemo.ProfessionalMapper.ValidationSummary | complete_demo.py:547-556 | the summary loop computes the summary function and leaves the last record's messages |
| CompleteDemo.ProfessionalMapper.SummaryStep | complete_demo.py:548-556 | one record: validate it, then count it valid or invalid and tally its messages |
| CompleteDemo.ProfessionalMapper.CreateSampleData | complete_demo.py:603-652 | returns the sample function's value: the predefined sample, the record built from the template, or the empty record |
| CompleteDemo.GeneratedSamplePrefixRaised | complete_demo.py:627-650 | once a field's default raises, later fields change nothing |
| CompleteDemo.FieldStatisticsLoop | complete_demo.py:521-544 | the field loop computes one statistics entry per template field |
| CompleteDemo.FieldStatsLoop | complete_demo.py:522-544 | the counting loop over the batch computes that field's statistics |
| CompleteDemo.CountErrors | complete_demo.py:551-556 | the error counting loop computes the tally |
| CompleteDemo.RecordStepAccepted | complete_demo.py:548-556 | an accepted record adds one to valid and tallies nothing; a rejected one adds one to invalid and tallies its messages |
| CompleteDemo.SummarizeSnoc | complete_demo.py:547-556 | the summary of one more record is one more step, and the list then holds that record's messages |
| TemplateExamples.MedicalTemplateFound | complete_demo.py:101-165 | the table holds the medical template under medical_form |
| TemplateExamples.EmployeeTemplateFound | complete_demo.py:167-223 | the table holds the employee template under employee_form |
| TemplateExamples.ScenarioNameMissing | complete_demo.py:106-113 | a record without patient_name gets the missing message naming its description |
| TemplateExamples.ScenarioIdPresent | complete_demo.py:114-121 | "p123" is present for the required check |
| TemplateExamples.ScenarioBirthDatePresent | complete_demo.py:122-128 | "1990-13-40" is present for the required check |
| TemplateExamples.ScenarioGenderMissing | complete_demo.py:129-135 | a record without gender gets the missing message naming its description |
| TemplateExamples.MedicalOptionalFields | complete_demo.py:136-163 | the last four medical fields are optional and give no missing message |
| TemplateExamples.ScenarioFromGender | complete_demo.py:129-163 | from gender on, the scenario record is missing only gender |
| TemplateExamples.ScenarioFromNumber | complete_demo.py:114-163 | from patient_id on, only gender's message remains |
| TemplateExamples.ScenarioFirstPass | complete_demo.py:292-295 | the required pass on the scenario record gives the name then the gender message |
| TemplateExamples.ScenarioFirstPassOfThree | complete_demo.py:292-295 | with only the first three medical fields, only the name message |
| TemplateExamples.ScenarioThreeTail | complete_demo.py:292-295 | after the name, the first three fields give no missing message |
| TemplateExamples.LowerCaseNumberRejected | complete_demo.py:118 | "p123" does not match `^[A-Z0-9]+$` |
| TemplateExamples.MonthThirteenRejected | complete_demo.py:362-368 | "1990-13-40" is not a date |
| TemplateExamples.ScenarioKeysFoundInTemplates | complete_demo.py:114-128 | both the medical template and its first three fields define patient_id and date_of_birth with the medical specifications |
| TemplateExamples.ScenarioKeysFoundInMedicalForm | complete_demo.py:114-128 | the medical template defines both scenario keys |
| TemplateExamples.ScenarioKeysFoundInThree | complete_demo.py:114-128 | the three-field template defines both scenario keys |
| TemplateExamples.ScenarioIdEntry | complete_demo.py:298-336 | the "p123" entry gives exactly the pattern message |
| TemplateExamples.ScenarioIdCheck | complete_demo.py:114-121 | the patient_id check of "p123" gives only the pattern message: the length 4 is within 20 |
| TemplateExamples.ScenarioBirthDateCheck | complete_demo.py:122-128 | the date_of_birth check of "1990-13-40" gives exactly the date message |
| TemplateExamples.ScenarioBirthDateEntry | complete_demo.py:298-336 | the "1990-13-40" entry gives exactly the date message |
| TemplateExamples.ScenarioSecondPass | complete_demo.py:298-336 | the content pass of the scenario record gives the pattern then the date message |
| TemplateExamples.ScenarioSecondPassMedical | complete_demo.py:298-336 | the same under the medical template |
| TemplateExamples.ScenarioSecondPassOfThree | complete_demo.py:298-336 | the same under the three-field template |
| TemplateExamples.MedicalScenario | complete_demo.py:279-336 | validating the scenario record against the built-in medical template gives exactly four messages: name missing, gender missing, bad number pattern, bad date |
| TemplateExamples.MedicalScenarioUnder | complete_demo.py:279-336 | the same for any table that holds the medical template |
| TemplateExamples.MedicalScenarioConcat | complete_demo.py:279-336 | the four messages are the two required messages followed by the two content messages |
| TemplateExamples.NameIdBirthScenario | complete_demo.py:279-336 | with only the name, number and birth-date fields, exactly three messages |
| TemplateExamples.NameIdBirthScenarioUnder | complete_demo.py:279-336 | the same for any table whose medical template has those three fields |
| TemplateExamples.SalaryField | complete_demo.py:208-215 | salary is a number from 0 to 10000000 with no length, options or pattern |
| TemplateExamples.NumberOnlyBounds | complete_demo.py:317-336 | an int in a number field with no other attribute gives only its bound messages |
| TemplateExamples.NumberTypeViolations | complete_demo.py:317-325 | an int in a number field gives only its bound messages from the type check |
| TemplateExamples.NoGeneralAttributes | complete_demo.py:328-336 | a field with no length, options or pattern gives no general message |
| TemplateExamples.SalaryBounds | complete_demo.py:208-215 | salaries 0 and 10000000 pass, -1 is below the minimum 0, and 10000001 is above the maximum |
| TemplateExamples.PatientNumberPattern | complete_demo.py:118 | "AB12" matches `^[A-Z0-9]+$` and "AB-12" does not |
| PatientForms.IsMissingIffStrippedEmpty | streamlit_app.py:45 | a field is missing exactly when it is absent or `str(value).strip()` is empty; the same code is at line 38 of simple_demo.py |
| PatientForms.MissingFieldMessageInjective | streamlit_app.py:46 | different fields give different "Missing required field" messages; the same code is at line 39 of simple_demo.py |
| PatientForms.MissingMessagesCount | streamlit_app.py:44-46 | the required loop gives at most one message per field checked: a field's message occurs once per listing of the field when it is missing and never otherwise, and there are no more messages than fields; the same code is at lines 37-39 of simple_demo.py |
| PatientForms.MissingMessagesSnoc | streamlit_app.py:44-46 | one more loop step appends that field's message when it is missing; the same code is at lines 37-39 of simple_demo.py |
| PatientForms.MissingMessagesIff | streamlit_app.py:44-46 | a field's message is recorded exactly when the field is checked and missing; the same code is at lines 37-39 of simple_demo.py |
| PatientForms.MissingRequiredInOrder | streamlit_app.py:42-46 | the messages are those of patient_name, patient_id and date_of_birth, in that order, each once when missing; the same code is at lines 35-39 of simple_demo.py |
| PatientForms.MissingMessagesOfThree | streamlit_app.py:44-46 | the loop over three fields gives each field's message in order; the same code is at lines 37-39 of simple_demo.py |
| PatientForms.MissingMessagesEmptyIff | streamlit_app.py:44-46 | no message exactly when no checked field is missing; the same code is at lines 37-39 of simple_demo.py |
| PatientForms.MissingMessagesMember | streamlit_app.py:44-46 | every message names a checked field that is missing; the same code is at lines 37-39 of simple_demo.py |
| PatientForms.MissingMessagesOnlyReadFields | streamlit_app.py:44-46 | the loop reads no key other than the checked fields; the same code is at lines 37-39 of simple_demo.py |
| PatientForms.IdentityLookups | streamlit_app.py:228-262 | the sample records hold their name, number and birth date under the required keys; the same code is at lines 153-155 of simple_demo.py |
| PatientForms.IdentityPresent | streamlit_app.py:228-262 | a sample with non-blank name, number and birth date gives no missing message, whatever its other entries; the same code is at lines 153-155 of simple_demo.py |
| PatientForms.DisplayTextIsStrUnlessBool | streamlit_app.py:151-156 | the display differs from `str(value)` exactly for booleans, which show Yes/No; the same code is at lines 106-110 of simple_demo.py |
| PatientForms.Truncate | streamlit_app.py:166-167 | a string longer than the limit becomes its first limit-3 characters and "...", exactly the limit long; a string within the limit is unchanged; streamlit uses limit 35, and the same code is at lines 113-114 of simple_demo.py, with limit 50 |
| StreamlitApp.EnglishMessagesMembers | streamlit_app.py:37-68 | a message is recorded exactly when one of the five checks records it |
| StreamlitApp.FixedMessagesDistinct | streamlit_app.py:46-66 | the four format messages are distinct from each other and from every missing-field message |
| StreamlitApp.NotAMissingMessage | streamlit_app.py:44-46 | a message that no checked field's missing message equals is never recorded by the loop |
| StreamlitApp.EnglishMissingIff | streamlit_app.py:44-46 | each required field's message is recorded exactly when that field is missing |
| StreamlitApp.IdFormatIff | streamlit_app.py:49-51 | the number message is recorded exactly when patient_id is present and its `str()` is not "P" followed by one or more digits |
| StreamlitApp.BlankIdTwoMessages | streamlit_app.py:44-51 | a blank patient_id gives both the missing message and the number message |
| StreamlitApp.BlankNotPatientNumber | streamlit_app.py:50 | a blank string never matches `^P\d+$` |
| StreamlitApp.TruthyTextNonEmpty | streamlit_app.py:54-64 | a truthy value's `str()` is not empty |
| StreamlitApp.PhoneIff | streamlit_app.py:54-56 | the phone message is recorded exactly when the phone is truthy and some character is not `+`, a digit, `-`, whitespace, `(` or `)`; there is no minimum length |
| StreamlitApp.EmailIff | streamlit_app.py:59-61 | the e-mail message is recorded exactly when the e-mail is truthy and does not match the address pattern |
| StreamlitApp.InsuranceIff | streamlit_app.py:64-66 | the insurance message is recorded exactly when the number is truthy and its `str()` is shorter than 5, so exactly 5 is accepted |
| StreamlitApp.OptionalsNotGiven | streamlit_app.py:54-66 | empty or absent phone, e-mail and insurance number add nothing |
| StreamlitApp.EnglishAcceptsIff | streamlit_app.py:37-68 | the record is accepted exactly when no required field is missing, the number (if present) has the right shape, and each given phone, e-mail and insurance number passes its check |
| StreamlitApp.EnglishReadsOnlyItsKeys | streamlit_app.py:37-68 | the messages depend only on the name, number, phone, e-mail and insurance number and on whether the birth date is missing; the birth date's format and all other keys are never checked |
| StreamlitApp.EnglishMapper.ValidateData | streamlit_app.py:37-68 | the list is cleared and then holds exactly the messages of `EnglishMessages`, and the result is True exactly when it is empty |
| StreamlitApp.EnglishMapper.CheckRequired | streamlit_app.py:42-46 | the required loop appends exactly the missing messages, in order |
| StreamlitApp.EnglishMapper.CheckFormats | streamlit_app.py:48-66 | the four format checks append their messages in order |
| StreamlitApp.EnglishMapper.CheckPatientId | streamlit_app.py:49-51 | appends the number message when patient_id is present and malformed |
| StreamlitApp.EnglishMapper.CheckPhone | streamlit_app.py:54-56 | appends the phone message when the phone is truthy and malformed |
| StreamlitApp.EnglishMapper.CheckEmail | streamlit_app.py:59-61 | appends the e-mail message when the e-mail is truthy and malformed |
| StreamlitApp.EnglishMapper.CheckInsurance | streamlit_app.py:64-66 | appends the insurance message when the number is truthy and too short |
| StreamlitApp.PdfLabelIff | streamlit_app.py:112-124 | exactly the eleven labelled keys have a row label |
| StreamlitApp.PdfRowFacts | streamlit_app.py:143-173 | a row shows the key's label; its value is at most 35 characters, unchanged when it fits and otherwise its first 32 characters and "..."; booleans show Yes/No; the status is "Required" exactly for the three required keys and "Optional" otherwise |
| StreamlitApp.DisplayValueCases | streamlit_app.py:151-162 | booleans show Yes/No; a valid birth date is shown in the long date form of the date strptime parses; any other value shows `str(value)` |
| StreamlitApp.SameDateShownAlike | streamlit_app.py:157-158 | two birth-date spellings that strptime parses to the same date are shown alike |
| StreamlitApp.PdfRowsConcat | streamlit_app.py:142-143 | the rows of a record split in two are the rows of the first part followed by those of the second: rows come in data order |
| StreamlitApp.PdfRowsMembers | streamlit_app.py:142-143 | there are at most as many rows as entries, and a row appears exactly when it is the row of some entry with a label and a non-None value |
| StreamlitApp.SampleDataDefault | streamlit_app.py:275 | an unknown case name gives the standard sample |
| StreamlitApp.ContactLookups | streamlit_app.py:234-239 | the full samples hold their phone, e-mail and insurance number under those keys |
| StreamlitApp.IdentityLacksContacts | streamlit_app.py:229-233 | the first five entries of a sample hold no phone, e-mail or insurance number |
| StreamlitApp.IdentityPasses | streamlit_app.py:37-68 | a sample with a non-blank name and birth date, a well-formed number, and contact entries that pass their checks is accepted |
| StreamlitApp.FullSamplePasses | streamlit_app.py:37-68 | an eleven-entry sample with valid values is accepted |
| StreamlitApp.StandardSamplePasses | streamlit_app.py:228-240 | the standard sample is accepted |
| StreamlitApp.StandardIdentity | streamlit_app.py:229-231 | the standard sample's name, number and birth date pass |
| StreamlitApp.StandardEmail | streamlit_app.py:235 | the standard sample's e-mail passes |
| StreamlitApp.FemaleSamplePasses | streamlit_app.py:241-253 | the female sample is accepted |
| StreamlitApp.FemaleIdentity | streamlit_app.py:242-244 | the female sample's name, number and birth date pass |
| StreamlitApp.FemaleEmail | streamlit_app.py:248 | the female sample's e-mail passes |
| StreamlitApp.MinimalSamplePasses | streamlit_app.py:254-260 | the minimal sample, with only five entries, is accepted |
| StreamlitApp.MinimalEntriesPass | streamlit_app.py:254-260 | the minimal sample's entries with nothing after them are accepted |
| StreamlitApp.InternationalSamplePasses | streamlit_app.py:261-273 | the international sample is accepted |
| StreamlitApp.InternationalIdentity | streamlit_app.py:262-264 | the international sample's name, number and birth date pass |
| StreamlitApp.InternationalEmail | streamlit_app.py:268 | the international sample's e-mail passes |
| StreamlitApp.SamplePhones | streamlit_app.py:234-267 | the three sample phones pass the phone check |
| StreamlitApp.SampleInsuranceNumbers | streamlit_app.py:237-270 | the three sample insurance numbers pass the insurance check |
| StreamlitApp.IdentityValues | streamlit_app.py:45-51 | a name and birth date that start with text are present, and "P" followed by digits passes the number check |
| StreamlitApp.PhoneValue | streamlit_app.py:54-56 | a non-empty string of phone characters passes the phone check |
| StreamlitApp.EmailValue | streamlit_app.py:59-61 | an address that splits as the e-mail pattern requires passes the e-mail check |
| StreamlitApp.SamplesPass | streamlit_app.py:225-275 | `get_sample_data` returns an accepted record for every case name |
| SimpleDemo.SimpleMapper.ValidateData | simple_demo.py:31-50 | the list is cleared and then holds exactly the missing messages of the three required fields, in order, and the result is True exactly when it is empty |
| SimpleDemo.VerdictOnlyPresence | simple_demo.py:35-50 | records that agree on which required fields are missing get the same messages: no value format and no other key is checked |
| SimpleDemo.SimpleLabelIff | simple_demo.py:85-94 | exactly the eight labelled keys have a row label |
| SimpleDemo.SimpleRowFacts | simple_demo.py:96-114 | a row shows the label and ":"; its value is at most 50 characters, unchanged when it fits and otherwise exactly 50: its first 47 characters and "..."; booleans show Yes/No and other values `str(value)` |
| SimpleDemo.SimpleRowsConcat | simple_demo.py:96-97 | rows come in data order |
| SimpleDemo.SimpleRowsMembers | simple_demo.py:96-97 | there are at most as many rows as entries, and a row appears exactly when it is the row of an entry with a label, None included |
| SimpleDemo.SimpleSamplePasses | simple_demo.py:150-161 | `create_sample_data` returns a record the validator accepts |
| SimpleDemo.SimpleSampleValues | simple_demo.py:153-155 | the sample's name, number and birth date are not blank |
| SimpleDemo.ConvertInputPresence | simple_demo.py:315-316 | an answer is left out exactly when it is blank, and a stored value is never blank |
| SimpleDemo.ConvertInputKinds | simple_demo.py:315-323 | True exactly for true/yes/1 in any case, False exactly for false/no/0, and otherwise the stripped text, which is not one of those words |
| SimpleDemo.StrippedKinds | simple_demo.py:316-323 | the same for an already stripped answer |
| SimpleDemo.ConvertInputRoundTrip | simple_demo.py:315-323 | typing back `str()` of a stored value stores the same value |
| SimpleDemo.StoredTextRoundTrip | simple_demo.py:315-323 | typing back stored text stores the same text |
| SimpleDemo.BoolWordsRoundTrip | simple_demo.py:318-321 | "True" converts to True and "False" to False |
| SimpleDemo.TrueRoundTrip | simple_demo.py:318-319 | "True" converts to True |
| SimpleDemo.FalseRoundTrip | simple_demo.py:320-321 | "False" converts to False |
| SimpleDemo.TrueClassified | simple_demo.py:318-319 | the stripped answer "True" is a true word |
| SimpleDemo.FalseClassified | simple_demo.py:320-321 | the stripped answer "False" is a false word |
| SimpleDemo.Converted | simple_demo.py:314-323 | one converted answer per question |
| SimpleDemo.ConvertedAt | simple_demo.py:314-323 | the i-th converted answer is the i-th answer converted |
| SimpleDemo.BuildCustomData | simple_demo.py:303-323 | the loop builds exactly the record of the six questions holding their converted answers, leaving out blank ones |
| SimpleDemo.StoredStep | simple_demo.py:314-323 | one loop step stores the converted answer under its question, or skips a blank one |
| SimpleDemo.StoredLookup | simple_demo.py:314-323 | each question's key holds its converted answer, and no other key is stored |
| SimpleDemo.CustomDataLookup | simple_demo.py:303-323 | the built record holds each question's converted answer and nothing else |
| SimpleDemo.CustomDataAcceptedIff | simple_demo.py:303-325 | the typed record is accepted exactly when the name, number and birth-date answers are not blank |
| SimpleDemo.RequiredAnswer | simple_demo.py:303-325 | a required field of the typed record is missing exactly when its answer is blank |
| SimpleDemo.ZeroPatientIdPresent | simple_demo.py:320-321 | typing "0" as the patient number stores False, which the required check on line 38 still counts as present |
| SimpleDemo.ZeroIsFalse | simple_demo.py:320-321 | "0" converts to False |
| SimpleDemo.ZeroClassified | simple_demo.py:320-321 | the stripped answer "0" is a false word |

## Left out

- Rendering the PDFs: `generate_professional_pdf`, `generate_pdf_bytes` and `generate_simple_pdf` draw through reportlab, with page coordinates, fonts, page breaks and temporary files. Only row selection and value formatting are modelled.
- The console and web front ends: Streamlit's `main`, `run_comprehensive_demo`, `interactive_demo`, `run_simple_demo` and the menu of `interactive_test`. The answers typed at `input()` are a parameter of `BuildCustomData`.
- Reading and writing files, and logging: `_setup_logging`, `_ensure_directories`, `_load_mapping_rules` (the table is the built-in one), writing the default configuration, `export_template_schema`, and every print and log line.
- `validate_config`: it hands the work to the jsonschema library.
- The code shown as text inside the Streamlit page (streamlit_app.py:516-675) is not run by the application and is not modelled.
- Timestamps from `datetime.now()`: the "generated_time" of the statistics report is left out.
- TemplateValidation.TypeViolationsNumber: `float(value)` is the parameter `parse: string -> Option<real>` for strings. Ints convert exactly, bools convert to 1 and 0, and None raises TypeError. No floating-point rounding, "nan", "inf" or exponent forms are modelled.
- Python.Value: a value is a string, an int, a bool or None. Floats, lists and dicts cannot be held, so `str(3.0)`, the falsiness of `0.0` and `float()` of a float are not modelled.
- TemplateValidation.TypeViolationsNumber: `float()` of an int beyond the range of a double raises OverflowError in Python, which the `except ValueError` at complete_demo.py:324 does not catch, so it escapes `validate_data`; the model converts every int exactly.
- Statistics.FillRate: the rate is the exact rational `filled / total * 100`, not a rounded float.
- Statistics.FieldStatsOf: the distinct values are a `set` of strings. The order of the list made from Python's set is not modelled.
- Statistics.StatisticsReportCases: the error report carries the kind of exception (KeyError naming the template, or TypeError), not the text of `str(e)`.
- StreamlitApp.DisplayValueCases: `strftime('%B %d, %Y')` is locale-dependent, so the long date form is the parameter `longDate`, a function of the parsed year, month and day. The catch-all `except` is modelled only as the date failing to parse.
- Python.Lower: `lower()` lowers only ASCII letters. This does not change which answers are boolean words. The only non-ASCII characters whose lowercase holds an ASCII letter are the Kelvin sign (to 'k') and the dotted capital I (to 'i' and a combining dot), and no conversion word contains 'k' or 'i'.
- Patterns: `\d` and `isdigit()` accept only ASCII digits, and the name pattern's CJK range is the block U+4E00-U+9FFF written out. Python's general regular-expression engine is not modelled, only the patterns that occur.
- `get_validation_errors` returns the live list, which the next `validate_data` clears. The model keeps the list as the `validationErrors` field and does not model that aliasing.

