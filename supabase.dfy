/**
 * The two Supabase tables the application writes, `share_links` and `invoice_views`, as
 * an abstract database of untyped records, and the `.select(...).eq(column, value).single()`
 * query the helpers issue against them. A transport or server failure of a query is an
 * input (`fault`) that may carry any error code; without a fault, the "not exactly one row"
 * outcome `PGRST116` is decided by the table contents.
 */
module Supabase {
  import opened Wrappers
  import Decimal

  /** A column value as the JavaScript client hands it back. */
  datatype DbValue = Text(s: string) | Integer(n: int) | Null

  /** A row as `Record<string, unknown>`: a missing key reads as `undefined`. */
  type Record = map<string, DbValue>

  datatype DbError = DbError(code: string, message: string)

  /** PostgREST's code for `.single()` finding zero rows, or more than one. */
  const NotFoundCode := "PGRST116"
  const NotFoundMessage := "JSON object requested, multiple (or no) rows returned"

  function Column(rec: Record, name: string): Option<DbValue> {
    if name in rec then Some(rec[name]) else None
  }

  /** `String(record[name])`. */
  function StringOf(v: Option<DbValue>): (s: string)
    ensures v.Some? && v.value.Text? ==> s == v.value.s
    ensures v == None ==> s == "undefined"
    ensures v == Some(Null) ==> s == "null"
  {
    match v
    case None => "undefined"
    case Some(Null) => "null"
    case Some(Text(s)) => s
    case Some(Integer(n)) => Decimal.IntToString(n)
  }

  /** JavaScript truthiness of `record[name]`. */
  predicate Truthy(v: Option<DbValue>) {
    match v
    case Some(Text(s)) => s != ""
    case Some(Integer(n)) => n != 0
    case _ => false
  }

  /**
   * `Number(record[name]) || 0`: `null` is 0, `undefined` is NaN and so 0, and a string is
   * read as an optionally signed decimal integer, anything else being NaN and so 0.
   */
  function NumberOrZero(v: Option<DbValue>): (n: int)
    ensures v.Some? && v.value.Integer? ==> n == v.value.n
    ensures !Truthy(v) ==> n == 0
  {
    match v
    case Some(Integer(n)) => n
    case Some(Text(s)) => Decimal.ParseInt(s).GetOr(0)
    case _ => 0
  }

  predicate Matches(rec: Record, column: string, value: string) {
    Column(rec, column) == Some(Text(value))
  }

  /** `.eq(column, value)`: the rows whose column holds exactly `value`, in table order. */
  function Where(rows: seq<Record>, column: string, value: string): (r: seq<Record>)
    ensures |r| <= |rows|
    ensures forall rec :: rec in r <==> rec in rows && Matches(rec, column, value)
  {
    if rows == [] then []
    else if Matches(rows[0], column, value) then [rows[0]] + Where(rows[1..], column, value)
    else Where(rows[1..], column, value)
  }

  lemma {:induction false} WhereAppend(rows: seq<Record>, rec: Record, column: string, value: string)
    ensures Where(rows + [rec], column, value) ==
      Where(rows, column, value) + (if Matches(rec, column, value) then [rec] else [])
  {
    if rows == [] {
      assert rows + [rec] == [rec];
    } else {
      assert (rows + [rec])[1..] == rows[1..] + [rec];
      WhereAppend(rows[1..], rec, column, value);
    }
  }

  /**
   * `.single()` after `.eq(column, value)`: the one matching row; `PGRST116` when there
   * are none or several; the fault itself when the query fails.
   */
  function Single(rows: seq<Record>, column: string, value: string, fault: Option<DbError>): (r: Result<Record, DbError>)
    ensures fault.Some? ==> r == Err(fault.value)
    ensures fault.None? ==> (r.Ok? <==> |Where(rows, column, value)| == 1)
    ensures fault.None? && r.Err? ==> r.error.code == NotFoundCode
    ensures r.Ok? ==> r.value in rows && Matches(r.value, column, value)
  {
    if fault.Some? then Err(fault.value)
    else
      var found := Where(rows, column, value);
      if |found| == 1 then Ok(found[0]) else Err(DbError(NotFoundCode, NotFoundMessage))
  }

  /** A record appended under a key no other row holds is what `.single()` finds for that key. */
  lemma SingleFindsFreshRecord(rows: seq<Record>, rec: Record, column: string, value: string)
    requires Where(rows, column, value) == []
    requires Matches(rec, column, value)
    ensures Single(rows + [rec], column, value, None) == Ok(rec)
  {
    WhereAppend(rows, rec, column, value);
  }

  /** Appending a record that does not match leaves every `.single()` answer as it was. */
  lemma SingleIgnoresOtherRecord(rows: seq<Record>, rec: Record, column: string, value: string)
    requires !Matches(rec, column, value)
    ensures Single(rows + [rec], column, value, None) == Single(rows, column, value, None)
  {
    WhereAppend(rows, rec, column, value);
    assert Where(rows, column, value) + [] == Where(rows, column, value);
  }

  /** The application's tables. */
  class Database {
    var shareLinks: seq<Record>
    var invoiceViews: seq<Record>

    constructor ()
      ensures shareLinks == [] && invoiceViews == []
    {
      shareLinks := [];
      invoiceViews := [];
    }
  }
}
