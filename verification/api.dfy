/**
 * The column check of the web API (omop_etl/api.py): a table posted for translation is
 * compared with the OMOP columns that its target table requires, and every required column
 * that the table neither defines nor uses as its primary key is reported as a validation
 * warning at location ("body", "columns").
 *
 * The required columns come from a CSV file of (table, column) rows; here those rows are a
 * parameter. Python returns the warnings as a list in the iteration order of a set, so the
 * model returns them as a set.
 */
module Api {
  import opened Wrappers
  import opened Rules

  // ---------------------------------------------------------------- required columns

  /** `str.lower` on one character, for the ASCII letters. */
  function LowerChar(c: char): (r: char)
    ensures 'A' <= c <= 'Z' ==> r as int == c as int + 32
    ensures !('A' <= c <= 'Z') ==> r == c
    ensures !('A' <= r <= 'Z')
  {
    if 'A' <= c <= 'Z' then (c as int + 32) as char else c
  }

  /** `str.lower`, for the ASCII letters. */
  function Lower(s: string): (r: string)
    ensures |r| == |s|
    ensures forall i :: 0 <= i < |s| ==> r[i] == LowerChar(s[i])
  {
    if |s| == 0 then "" else Lower(s[..|s| - 1]) + [LowerChar(s[|s| - 1])]
  }

  /** Lower-casing twice is lower-casing once. */
  lemma {:induction false} LowerIdempotent(s: string)
    ensures Lower(Lower(s)) == Lower(s)
  {
    assert forall i :: 0 <= i < |s| ==> LowerChar(LowerChar(s[i])) == LowerChar(s[i]);
  }

  /** A row of the required-columns file: a table name (lower case) and one of its columns. */
  datatype RequiredColumn = RequiredColumn(table: string, column: string)

  /** `RequiredFields.get_fields`: the columns of the rows whose table is the lower-cased name;
      a table without rows requires nothing. */
  function RequiredFields(rows: seq<RequiredColumn>, name: string): (r: set<string>)
    ensures forall c :: c in r <==> exists i :: 0 <= i < |rows| && rows[i] == RequiredColumn(Lower(name), c)
  {
    var r := set i | 0 <= i < |rows| && rows[i].table == Lower(name) :: rows[i].column;
    assert forall c :: c in r ==> exists i :: 0 <= i < |rows| && rows[i] == RequiredColumn(Lower(name), c);
    r
  }

  /** Table names are matched without regard to the case of their ASCII letters. */
  lemma {:induction false} RequiredFieldsIgnoresCase(rows: seq<RequiredColumn>, name: string)
    ensures RequiredFields(rows, name) == RequiredFields(rows, Lower(name))
  {
    LowerIdempotent(name);
  }

  // ---------------------------------------------------------------- the check

  /** The name a column defines; a disabled column has none. */
  function ColumnName(col: ColumnRule): (r: Option<string>)
    ensures r.None? <==> col.DisabledRule?
  {
    match col
    case TargetRule(c) => Some(c.name)
    case ConstantRule(name, _, _) => Some(name)
    case DisabledRule => None
  }

  /** The columns a table defines: the name of every column that is not a `DisabledColumn`,
      and the primary key. */
  function DefinedColumns(t: TargetTable): (r: set<string>)
    ensures forall c :: c in r <==>
              c == t.primaryKey.name || exists i :: 0 <= i < |t.columns| && ColumnName(t.columns[i]) == Some(c)
  {
    var names := set i | 0 <= i < |t.columns| && ColumnName(t.columns[i]).Some? :: ColumnName(t.columns[i]).value;
    assert forall c :: c in names ==> exists i :: 0 <= i < |t.columns| && ColumnName(t.columns[i]) == Some(c);
    names + {t.primaryKey.name}
  }

  /** The required columns that the table does not define. */
  function MissingColumns(rows: seq<RequiredColumn>, t: TargetTable): (r: set<string>)
    ensures forall c :: c in r <==> c in RequiredFields(rows, t.name) && c !in DefinedColumns(t)
    ensures t.primaryKey.name !in r
  {
    (RequiredFields(rows, t.name) - {t.primaryKey.name}) - DefinedColumns(t)
  }

  /** The text of the warning about a missing column. */
  function Message(c: string): (r: string)
    ensures |r| == |c| + 24
  {
    "Column \"" + c + "\" is not defined"
  }

  /** Different columns get different warnings. */
  lemma {:induction false} MessageInjective(a: string, b: string)
    requires Message(a) == Message(b)
    ensures a == b
  {
    var p := "Column \"";
    assert Message(a) == p + (a + "\" is not defined");
    assert Message(b) == p + (b + "\" is not defined");
    assert a == Message(a)[|p|..|p| + |a|];
    assert b == Message(b)[|p|..|p| + |b|];
  }

  /** A `ValueError` wrapped with the location it is reported at. */
  datatype ErrorWrapper = ErrorWrapper(message: string, loc: seq<string>)

  /** `check_columns`: one wrapped error per required column the table does not define. */
  function CheckColumns(rows: seq<RequiredColumn>, t: TargetTable): (r: set<ErrorWrapper>)
    ensures forall e :: e in r <==> exists c :: c in MissingColumns(rows, t) && e == ErrorWrapper(Message(c), ["body", "columns"])
  {
    set c | c in MissingColumns(rows, t) :: ErrorWrapper(Message(c), ["body", "columns"])
  }

  /** A warning as `RequestValidationError.errors()` renders it. */
  datatype Warning = Warning(loc: seq<string>, msg: string, kind: string)

  /** `table_warnings`: the errors of `check_columns` as validation warnings of type
      `value_error`, none when there is nothing to report. */
  function TableWarnings(rows: seq<RequiredColumn>, t: TargetTable): (r: set<Warning>)
    ensures forall w :: w in r <==> exists e :: e in CheckColumns(rows, t) && w == Warning(e.loc, e.message, "value_error")
  {
    var errors := CheckColumns(rows, t);
    if errors == {} then {} else set e | e in errors :: Warning(e.loc, e.message, "value_error")
  }

  /** A column is warned about exactly when it is required and not defined; the primary key
      never is. */
  lemma {:induction false} WarningIffMissing(rows: seq<RequiredColumn>, t: TargetTable, c: string)
    ensures Warning(["body", "columns"], Message(c), "value_error") in TableWarnings(rows, t) <==>
              c in RequiredFields(rows, t.name) && c !in DefinedColumns(t)
    ensures Warning(["body", "columns"], Message(t.primaryKey.name), "value_error") !in TableWarnings(rows, t)
  {
    var w := Warning(["body", "columns"], Message(c), "value_error");
    if w in TableWarnings(rows, t) {
      var e :| e in CheckColumns(rows, t) && w == Warning(e.loc, e.message, "value_error");
      var d :| d in MissingColumns(rows, t) && e == ErrorWrapper(Message(d), ["body", "columns"]);
      MessageInjective(c, d);
    }
    var pk := t.primaryKey.name;
    var wp := Warning(["body", "columns"], Message(pk), "value_error");
    if wp in TableWarnings(rows, t) {
      var e :| e in CheckColumns(rows, t) && wp == Warning(e.loc, e.message, "value_error");
      var d :| d in MissingColumns(rows, t) && e == ErrorWrapper(Message(d), ["body", "columns"]);
      MessageInjective(pk, d);
    }
  }

  /** There is one warning per missing column. */
  lemma {:induction false} WarningCount(rows: seq<RequiredColumn>, t: TargetTable)
    ensures |TableWarnings(rows, t)| == |MissingColumns(rows, t)|
  {
    var missing := MissingColumns(rows, t);
    forall w | w in TableWarnings(rows, t)
      ensures w in Warnings(missing)
    {
      var e :| e in CheckColumns(rows, t) && w == Warning(e.loc, e.message, "value_error");
      var d :| d in missing && e == ErrorWrapper(Message(d), ["body", "columns"]);
    }
    forall w | w in Warnings(missing)
      ensures w in TableWarnings(rows, t)
    {
      var d :| d in missing && w == Warning(["body", "columns"], Message(d), "value_error");
      assert ErrorWrapper(Message(d), ["body", "columns"]) in CheckColumns(rows, t);
    }
    assert TableWarnings(rows, t) == Warnings(missing);
    WarningsCount(missing);
  }

  /** The warnings about a set of columns. */
  function Warnings(cs: set<string>): set<Warning> {
    set c | c in cs :: Warning(["body", "columns"], Message(c), "value_error")
  }

  lemma {:induction false} WarningsCount(cs: set<string>)
    ensures |Warnings(cs)| == |cs|
    decreases |cs|
  {
    if cs != {} {
      var c :| c in cs;
      var rest := cs - {c};
      WarningsCount(rest);
      var w := Warning(["body", "columns"], Message(c), "value_error");
      assert Warnings(cs) == Warnings(rest) + {w};
      if w in Warnings(rest) {
        var d :| d in rest && w == Warning(["body", "columns"], Message(d), "value_error");
        MessageInjective(c, d);
      }
    }
  }

  /** Adding a column that defines `c` silences exactly the warning about `c`; adding a
      disabled column changes nothing. */
  lemma {:induction false} DefiningColumnSilencesWarning(rows: seq<RequiredColumn>, t: TargetTable, col: ColumnRule)
    ensures var t' := t.(columns := t.columns + [col]);
            MissingColumns(rows, t') ==
              if col.DisabledRule? then MissingColumns(rows, t) else MissingColumns(rows, t) - {ColumnName(col).value}
  {
    var t' := t.(columns := t.columns + [col]);
    assert forall i :: 0 <= i < |t.columns| ==> t'.columns[i] == t.columns[i];
    assert t'.columns[|t.columns|] == col;
    if col.DisabledRule? {
      assert DefinedColumns(t') == DefinedColumns(t);
    } else {
      assert DefinedColumns(t') == DefinedColumns(t) + {ColumnName(col).value};
    }
  }
}
