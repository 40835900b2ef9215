/**
 * The schema validator for normalised sheet rows: every row is checked
 * against every schema field, in order, producing errors (missing required
 * values, type mismatches, over-long values, pattern mismatches) and
 * warnings (under-length values).
 */
module Validate {
  import opened Wrappers
  import opened Values
  import Text

  /** The rules of one schema field; `None` and falsy values mean the rule is not set. */
  datatype Rules = Rules(required: bool, kind: Option<string>, maxLength: Option<int>, minLength: Option<int>, pattern: Option<string>)

  /** The schema in `Object.entries` order. */
  type Schema = seq<(string, Rules)>

  /**
   * The two checks the validator delegates to the JavaScript runtime:
   * `isNaN(Number(value))` and `new RegExp(pattern).test(text)`.
   */
  datatype Oracles = Oracles(notNumber: Value -> bool, matches: (string, string) -> bool)

  /** A message; rows are numbered from 1. */
  datatype Message =
    | InvalidData
    | Missing(row: int, field: string)
    | NotNumber(row: int, field: string)
    | NotBoolean(row: int, field: string)
    | TooLong(row: int, field: string, max: int)
    | TooShort(row: int, field: string, min: int)
    | NoPattern(row: int, field: string)

  datatype Report = Report(errors: seq<Message>, warnings: seq<Message>)

  /** `String(n)` for an integer. */
  function IntText(n: int): (r: string)
    ensures r != []
  {
    if n < 0 then "-" + Text.NatText(-n) else Text.NatText(n)
  }

  /** `Row ${row}: ${body}`. */
  function RowLine(row: int, body: string): (r: string)
    ensures var n := IntText(row);
      |r| == 6 + |n| + |body| && r[..4] == "Row " && r[4..4 + |n|] == n && r[4 + |n|..6 + |n|] == ": " && r[6 + |n|..] == body
  {
    var n := IntText(row);
    var r := "Row " + n + ": " + body;
    assert r[..4] == "Row ";
    assert r[4..4 + |n|] == n;
    assert r[4 + |n|..6 + |n|] == ": ";
    r
  }

  /** The text `validateFields` pushes for each message. */
  function MessageText(m: Message): (r: string)
    ensures m.InvalidData? <==> r == "Invalid data: expected array"
    ensures !m.InvalidData? ==> var n := IntText(m.row);
      |r| > 6 + |n| && r[..4] == "Row " && r[4..4 + |n|] == n && r[4 + |n|..6 + |n|] == ": "
  {
    match m
    case InvalidData => "Invalid data: expected array"
    case Missing(row, field) => RowLine(row, "Missing required field '" + field + "'")
    case NotNumber(row, field) => RowLine(row, "Field '" + field + "' should be a number")
    case NotBoolean(row, field) => RowLine(row, "Field '" + field + "' should be a boolean")
    case TooLong(row, field, max) => RowLine(row, "Field '" + field + "' exceeds max length of " + IntText(max))
    case TooShort(row, field, min) => RowLine(row, "Field '" + field + "' is shorter than min length of " + IntText(min))
    case NoPattern(row, field) => RowLine(row, "Field '" + field + "' does not match required pattern")
  }

  /** `value === undefined || value === null || value === ''`. */
  predicate Blank(v: Option<Value>) {
    v.None? || v.value == Null || v.value == Str([])
  }

  /** `value !== undefined && value !== null`. */
  predicate Defined(v: Option<Value>) {
    v.Some? && v.value != Null
  }

  /** A numeric rule that is set: present and non-zero. */
  predicate IsSet(n: Option<int>) {
    n.Some? && n.value != 0
  }

  /** `ms` with `m` appended when `c` holds. */
  function PushIf(ms: seq<Message>, c: bool, m: Message): (r: seq<Message>)
    ensures c ==> r == ms + [m]
    ensures !c ==> r == ms
  {
    if c then ms + [m] else ms
  }

  /** The errors one field of row `index` raises, in the order they are pushed. */
  function FieldErrors(index: int, field: string, rules: Rules, v: Option<Value>, o: Oracles): seq<Message> {
    var typed := !Blank(v) && rules.kind.Some? && rules.kind.value != [];
    var e1 := PushIf([], rules.required && Blank(v), Missing(index + 1, field));
    var e2 := PushIf(e1, typed && rules.kind.value == "number" && o.notNumber(v.value), NotNumber(index + 1, field));
    var e3 := PushIf(e2, typed && rules.kind.value == "boolean" && !v.value.Bool? && v.value != Str("true") && v.value != Str("false"),
                     NotBoolean(index + 1, field));
    var e4 := PushIf(e3, Defined(v) && IsSet(rules.maxLength) && |ToText(v.value)| > rules.maxLength.value,
                     TooLong(index + 1, field, rules.maxLength.GetOr(0)));
    PushIf(e4, rules.pattern.Some? && rules.pattern.value != [] && v.Some? && Truthy(v.value)
               && !o.matches(rules.pattern.value, ToText(v.value)), NoPattern(index + 1, field))
  }

  /** The warnings one field of row `index` raises. */
  function FieldWarnings(index: int, field: string, rules: Rules, v: Option<Value>): seq<Message> {
    PushIf([], Defined(v) && IsSet(rules.minLength) && |ToText(v.value)| < rules.minLength.value,
           TooShort(index + 1, field, rules.minLength.GetOr(0)))
  }

  /** The checks of one field of one row: row index, field, rules and value give the messages. */
  type FieldCheck = (int, string, Rules, Option<Value>) -> Report

  /** The checks `validateFields` runs on each field. */
  function Checks(o: Oracles): FieldCheck {
    (index: int, field: string, rules: Rules, v: Option<Value>) =>
      Report(FieldErrors(index, field, rules, v, o), FieldWarnings(index, field, rules, v))
  }

  /** The messages of row `index` for the first `n` schema fields. */
  function RowReport(index: int, row: Record, schema: Schema, n: nat, check: FieldCheck): Report
    requires n <= |schema|
  {
    if n == 0 then Report([], [])
    else
      var prev := RowReport(index, row, schema, n - 1, check);
      var here := check(index, schema[n - 1].0, schema[n - 1].1, Get(row, schema[n - 1].0));
      Report(prev.errors + here.errors, prev.warnings + here.warnings)
  }

  /** The messages of the first `m` rows. */
  function RowsReport(rows: seq<Record>, schema: Schema, m: nat, check: FieldCheck): Report
    requires m <= |rows|
  {
    if m == 0 then Report([], [])
    else
      var prev := RowsReport(rows, schema, m - 1, check);
      var here := RowReport(m - 1, rows[m - 1], schema, |schema|, check);
      Report(prev.errors + here.errors, prev.warnings + here.warnings)
  }

  /**
   * `validateFields`: data that is not an array gives the one error
   * `InvalidData` and no warnings; a missing schema gives nothing.
   */
  function Validation(data: Option<seq<Record>>, schema: Option<Schema>, o: Oracles): (r: Report)
    ensures data.None? ==> r == Report([InvalidData], [])
    ensures data.Some? && schema.None? ==> r == Report([], [])
  {
    if data.None? then Report([InvalidData], [])
    else if schema.None? then Report([], [])
    else RowsReport(data.value, schema.value, |data.value|, Checks(o))
  }

  /** The checks of one field, pushed one by one. */
  method CheckField(index: int, field: string, rules: Rules, v: Option<Value>, o: Oracles)
    returns (errors: seq<Message>, warnings: seq<Message>)
    ensures errors == FieldErrors(index, field, rules, v, o)
    ensures warnings == FieldWarnings(index, field, rules, v)
  {
    errors := [];
    warnings := [];
    if rules.required && Blank(v) {
      errors := errors + [Missing(index + 1, field)];
    }
    if !Blank(v) && rules.kind.Some? && rules.kind.value != [] {
      if rules.kind.value == "number" && o.notNumber(v.value) {
        errors := errors + [NotNumber(index + 1, field)];
      }
      if rules.kind.value == "boolean" && !v.value.Bool? && v.value != Str("true") && v.value != Str("false") {
        errors := errors + [NotBoolean(index + 1, field)];
      }
    }
    if Defined(v) && IsSet(rules.maxLength) && |ToText(v.value)| > rules.maxLength.value {
      errors := errors + [TooLong(index + 1, field, rules.maxLength.value)];
    }
    if Defined(v) && IsSet(rules.minLength) && |ToText(v.value)| < rules.minLength.value {
      warnings := warnings + [TooShort(index + 1, field, rules.minLength.value)];
    }
    if rules.pattern.Some? && rules.pattern.value != [] && v.Some? && Truthy(v.value) {
      if !o.matches(rules.pattern.value, ToText(v.value)) {
        errors := errors + [NoPattern(index + 1, field)];
      }
    }
  }

  /** The schema loop for one row. */
  method CheckRow(index: int, row: Record, schema: Schema, o: Oracles) returns (r: Report)
    ensures r == RowReport(index, row, schema, |schema|, Checks(o))
  {
    r := Report([], []);
    var n := 0;
    while n < |schema|
      invariant 0 <= n <= |schema|
      invariant r == RowReport(index, row, schema, n, Checks(o))
    {
      var field := schema[n].0;
      var errs, warns := CheckField(index, field, schema[n].1, Get(row, field), o);
      RowReportStep(index, row, schema, n, Checks(o));
      r := Report(r.errors + errs, r.warnings + warns);
      n := n + 1;
    }
  }

  /** One more schema field appends its messages. */
  lemma RowReportStep(index: int, row: Record, schema: Schema, n: nat, check: FieldCheck)
    requires n < |schema|
    ensures var here := check(index, schema[n].0, schema[n].1, Get(row, schema[n].0));
      RowReport(index, row, schema, n + 1, check)
        == Report(RowReport(index, row, schema, n, check).errors + here.errors,
                  RowReport(index, row, schema, n, check).warnings + here.warnings)
  {
  }

  /** `validateFields`: every row against every schema field. */
  method ValidateFields(data: Option<seq<Record>>, schema: Option<Schema>, o: Oracles) returns (r: Report)
    ensures r == Validation(data, schema, o)
  {
    if data.None? {
      return Report([InvalidData], []);
    }
    var rows := data.value;
    r := Report([], []);
    var m := 0;
    while m < |rows|
      invariant 0 <= m <= |rows|
      invariant schema.Some? ==> r == RowsReport(rows, schema.value, m, Checks(o))
      invariant schema.None? ==> r == Report([], [])
    {
      if schema.Some? {
        var rowReport := CheckRow(m, rows[m], schema.value, o);
        r := Report(r.errors + rowReport.errors, r.warnings + rowReport.warnings);
      }
      m := m + 1;
    }
  }

  // ---------------------------------------------------------------------------
  // Properties

  /** A field raises a missing-value error exactly when it is required and its value is blank. */
  lemma FieldMissing(index: int, field: string, rules: Rules, v: Option<Value>, o: Oracles, m: Message)
    requires m.Missing?
    ensures m in FieldErrors(index, field, rules, v, o) <==> m == Missing(index + 1, field) && rules.required && Blank(v)
  {
  }

  /**
   * `check` raises the row message `m` for row `index` exactly when it names
   * that row and the field `f`, and the field's rules and value meet `fires`.
   */
  ghost predicate ReportsWhen(check: FieldCheck, index: int, m: Message, fires: (Rules, Option<Value>) -> bool)
    requires !m.InvalidData?
  {
    forall f, rules, v {:trigger check(index, f, rules, v)} ::
      m in check(index, f, rules, v).errors <==> m.row == index + 1 && m.field == f && fires(rules, v)
  }

  /** Schema field `j` is required and `row` leaves it blank. */
  predicate LeavesBlank(row: Record, schema: Schema, j: int)
    requires 0 <= j < |schema|
  {
    schema[j].1.required && Blank(Get(row, schema[j].0))
  }

  /** A row raises `m` exactly when some schema field named `m.field` meets `fires` in it. */
  lemma {:induction false} RowRaises(index: int, row: Record, schema: Schema, n: nat, check: FieldCheck, m: Message,
                                     fires: (Rules, Option<Value>) -> bool)
    requires n <= |schema| && !m.InvalidData? && ReportsWhen(check, index, m, fires)
    ensures m in RowReport(index, row, schema, n, check).errors <==>
      m.row == index + 1 && exists j :: 0 <= j < n && schema[j].0 == m.field && fires(schema[j].1, Get(row, schema[j].0))
  {
    if n > 0 {
      RowRaises(index, row, schema, n - 1, check, m, fires);
      var f := schema[n - 1].0;
      var prev := RowReport(index, row, schema, n - 1, check).errors;
      var here := check(index, f, schema[n - 1].1, Get(row, f)).errors;
      assert RowReport(index, row, schema, n, check).errors == prev + here;
      if m in here {
        assert 0 <= n - 1 < n && schema[n - 1].0 == m.field && fires(schema[n - 1].1, Get(row, schema[n - 1].0));
      }
      if m.row == index + 1 && m !in prev {
        if j :| 0 <= j < n && schema[j].0 == m.field && fires(schema[j].1, Get(row, schema[j].0)) {
          assert j == n - 1;
        }
      }
    }
  }

  /** Over all rows, `m` is raised exactly when row `m.row`, counted from 1, has a schema field named `m.field` meeting `fires`. */
  lemma {:induction false} RowsRaise(rows: seq<Record>, schema: Schema, k: nat, check: FieldCheck, m: Message,
                                     fires: (Rules, Option<Value>) -> bool)
    requires k <= |rows| && !m.InvalidData?
    requires forall index :: ReportsWhen(check, index, m, fires)
    ensures m in RowsReport(rows, schema, k, check).errors <==>
      exists i, j :: 0 <= i < k && 0 <= j < |schema| && m.row == i + 1 && schema[j].0 == m.field
        && fires(schema[j].1, Get(rows[i], schema[j].0))
  {
    if k > 0 {
      RowsRaise(rows, schema, k - 1, check, m, fires);
      RowRaises(k - 1, rows[k - 1], schema, |schema|, check, m, fires);
      var prev := RowsReport(rows, schema, k - 1, check).errors;
      var here := RowReport(k - 1, rows[k - 1], schema, |schema|, check).errors;
      assert RowsReport(rows, schema, k, check).errors == prev + here;
      if m in here {
        var j :| 0 <= j < |schema| && schema[j].0 == m.field && fires(schema[j].1, Get(rows[k - 1], schema[j].0));
        assert 0 <= k - 1 < k && m.row == (k - 1) + 1;
      }
      if m !in prev {
        if i, j :| 0 <= i < k && 0 <= j < |schema| && m.row == i + 1 && schema[j].0 == m.field
                   && fires(schema[j].1, Get(rows[i], schema[j].0)) {
          assert i == k - 1;
        }
      }
    }
  }

  /**
   * `validateFields` reports `Missing(r, f)` exactly when data row `r`,
   * counted from 1, leaves the required schema field `f` blank: one error
   * per row and field.
   */
  lemma ValidationMissing(rows: seq<Record>, schema: Schema, o: Oracles, m: Message)
    requires m.Missing?
    ensures m in Validation(Some(rows), Some(schema), o).errors <==>
      exists i, j :: 0 <= i < |rows| && 0 <= j < |schema| && m.row == i + 1 && schema[j].0 == m.field && LeavesBlank(rows[i], schema, j)
  {
    var fires := (rules: Rules, v: Option<Value>) => rules.required && Blank(v);
    forall index
      ensures ReportsWhen(Checks(o), index, m, fires)
    {
      forall f, rules, v
        ensures m in Checks(o)(index, f, rules, v).errors <==> m.row == index + 1 && m.field == f && fires(rules, v)
      {
        FieldMissing(index, f, rules, v, o, m);
      }
    }
    RowsRaise(rows, schema, |rows|, Checks(o), m, fires);
  }

  /** A field raises an over-length error exactly when it is defined, `maxLength` is set, and its text is longer. */
  lemma FieldTooLong(index: int, field: string, rules: Rules, v: Option<Value>, o: Oracles, m: Message)
    requires m.TooLong?
    ensures m in FieldErrors(index, field, rules, v, o) <==>
      m.row == index + 1 && m.field == field && Overlong(rules, v, m.max)
  {
  }

  /** The value is defined, `maxLength` is set to `max`, and the value's text is longer than `max`. */
  predicate Overlong(rules: Rules, v: Option<Value>, max: int) {
    Defined(v) && IsSet(rules.maxLength) && rules.maxLength.value == max && |ToText(v.value)| > max
  }

  /**
   * `validateFields` reports `TooLong(r, f, max)` exactly when data row `r`,
   * counted from 1, holds a defined value for schema field `f` whose
   * `maxLength` is `max` and whose text is longer than that.
   */
  lemma ValidationTooLong(rows: seq<Record>, schema: Schema, o: Oracles, m: Message)
    requires m.TooLong?
    ensures m in Validation(Some(rows), Some(schema), o).errors <==>
      exists i, j :: 0 <= i < |rows| && 0 <= j < |schema| && m.row == i + 1 && schema[j].0 == m.field
        && Overlong(schema[j].1, Get(rows[i], schema[j].0), m.max)
  {
    var fires := (rules: Rules, v: Option<Value>) => Overlong(rules, v, m.max);
    forall index
      ensures ReportsWhen(Checks(o), index, m, fires)
    {
      forall f, rules, v
        ensures m in Checks(o)(index, f, rules, v).errors <==> m.row == index + 1 && m.field == f && fires(rules, v)
      {
        FieldTooLong(index, f, rules, v, o, m);
      }
    }
    RowsRaise(rows, schema, |rows|, Checks(o), m, fires);
  }

  /** `check` yields `m` only as a warning when it is a length warning, and only as an error when it is not. */
  ghost predicate ShortOnlyWarns(check: FieldCheck, m: Message) {
    forall index, f, rules, v {:trigger check(index, f, rules, v)} ::
      (m in check(index, f, rules, v).warnings ==> m.TooShort?) && (m in check(index, f, rules, v).errors ==> !m.TooShort?)
  }

  /** One field's warnings are length warnings only, and its errors never are. */
  lemma FieldWarningsOnlyShort(index: int, field: string, rules: Rules, v: Option<Value>, o: Oracles, m: Message)
    ensures m in FieldWarnings(index, field, rules, v) ==> m.TooShort?
    ensures m in FieldErrors(index, field, rules, v, o) ==> !m.TooShort?
  {
  }

  lemma {:induction false} RowWarningsOnlyShort(index: int, row: Record, schema: Schema, n: nat, check: FieldCheck, m: Message)
    requires n <= |schema| && ShortOnlyWarns(check, m)
    ensures m in RowReport(index, row, schema, n, check).warnings ==> m.TooShort?
    ensures m in RowReport(index, row, schema, n, check).errors ==> !m.TooShort?
  {
    if n > 0 {
      RowWarningsOnlyShort(index, row, schema, n - 1, check, m);
      var f := schema[n - 1].0;
      var prev := RowReport(index, row, schema, n - 1, check);
      var here := check(index, f, schema[n - 1].1, Get(row, f));
      assert RowReport(index, row, schema, n, check) == Report(prev.errors + here.errors, prev.warnings + here.warnings);
    }
  }

  lemma {:induction false} RowsWarningsOnlyShort(rows: seq<Record>, schema: Schema, k: nat, check: FieldCheck, m: Message)
    requires k <= |rows| && ShortOnlyWarns(check, m)
    ensures m in RowsReport(rows, schema, k, check).warnings ==> m.TooShort?
    ensures m in RowsReport(rows, schema, k, check).errors ==> !m.TooShort?
  {
    if k > 0 {
      RowsWarningsOnlyShort(rows, schema, k - 1, check, m);
      RowWarningsOnlyShort(k - 1, rows[k - 1], schema, |schema|, check, m);
      var prev := RowsReport(rows, schema, k - 1, check);
      var here := RowReport(k - 1, rows[k - 1], schema, |schema|, check);
      assert RowsReport(rows, schema, k, check) == Report(prev.errors + here.errors, prev.warnings + here.warnings);
    }
  }

  /** Falling short of `minLength` is only ever a warning, and every warning is one. */
  lemma ValidationWarningsOnlyShort(data: Option<seq<Record>>, schema: Option<Schema>, o: Oracles, m: Message)
    ensures m in Validation(data, schema, o).warnings ==> m.TooShort?
    ensures m in Validation(data, schema, o).errors ==> !m.TooShort?
  {
    if data.Some? && schema.Some? {
      forall index, f, rules, v
        ensures (m in Checks(o)(index, f, rules, v).warnings ==> m.TooShort?) && (m in Checks(o)(index, f, rules, v).errors ==> !m.TooShort?)
      {
        FieldWarningsOnlyShort(index, f, rules, v, o, m);
      }
      RowsWarningsOnlyShort(data.value, schema.value, |data.value|, Checks(o), m);
    }
  }
}
