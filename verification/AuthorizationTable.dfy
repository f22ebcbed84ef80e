/** The table of credit authorizations and the two queries that look up one row of it. */
module AuthorizationTable {
  import opened Text

  type Tenant = string

  datatype Status = Authorized | Captured | Released

  /** A row of `tenant_credit_authorizations`; its position in the table stands for its fresh id. */
  datatype Authorization = Authorization(
    tenant: Tenant, requestId: string, model: string, reserved: int, captured: int, status: Status,
    expiresAt: int, updatedAt: int)

  datatype Error =
    | EmptyRequestId | EmptyModel | NonPositiveAmount | InvalidStatus | NotFound
    | InsufficientCredits | DuplicateLedgerRequest | PricingNotConfigured | ColumnNotFound(column: Column)
    | ColumnDecode(column: Column)

  datatype Outcome<+T> = Ok(value: T) | Err(error: Error) {
    predicate IsFailure() { Err? }
    function PropagateFailure<U>(): Outcome<U> requires Err? { Err(error) }
    function Extract(): T requires Ok? { value }
  }

  /** The row with this tenant and request id (the table's unique index). */
  function Find(rows: seq<Authorization>, t: Tenant, r: string): (found: Option<nat>)
    ensures found.Some? ==> found.value < |rows| && rows[found.value].tenant == t && rows[found.value].requestId == r
    ensures found.None? ==> forall i :: 0 <= i < |rows| ==> rows[i].tenant != t || rows[i].requestId != r
  {
    if rows == [] then None
    else
      var last := |rows| - 1;
      if rows[last].tenant == t && rows[last].requestId == r then Some(last) else Find(rows[..last], t, r)
  }

  // ---------------------------------------------------------------------------------------------
  // Queries.
  // ---------------------------------------------------------------------------------------------

  datatype Column =
    | Id | TenantId | ApiKeyId | RequestId | Model | Reserved | CapturedAmount | StatusText | ExpiresAt | MetaJson
    | CreatedAt | UpdatedAt

  /** A value of a result; keys and metadata are not modelled further. */
  datatype Value = Number(n: int) | Text(s: string) | State(status: Status) | Unmodelled

  /** A row of a query's result: a value for each selected column. */
  type ResultRow = map<Column, Value>

  function Cell(rows: seq<Authorization>, i: nat, c: Column): Value
    requires i < |rows|
  {
    match c
    case Id => Number(i)
    case TenantId => Text(rows[i].tenant)
    case RequestId => Text(rows[i].requestId)
    case Model => Text(rows[i].model)
    case Reserved => Number(rows[i].reserved)
    case CapturedAmount => Number(rows[i].captured)
    case StatusText => State(rows[i].status)
    case ExpiresAt => Number(rows[i].expiresAt)
    case UpdatedAt => Number(rows[i].updatedAt)
    case _ => Unmodelled
  }

  /** `SELECT columns`. */
  function Select(rows: seq<Authorization>, i: nat, columns: set<Column>): ResultRow
    requires i < |rows|
  {
    map c | c in columns :: Cell(rows, i, c)
  }

  /** `row.try_get`: fails on a column that was not selected and on a value of another type. */
  function TryGet(row: ResultRow, c: Column): Outcome<Value> {
    if c in row then Ok(row[c]) else Err(ColumnNotFound(c))
  }

  function TryGetNumber(row: ResultRow, c: Column): Outcome<int> {
    var v :- TryGet(row, c);
    if v.Number? then Ok(v.n) else Err(ColumnDecode(c))
  }

  function TryGetText(row: ResultRow, c: Column): Outcome<string> {
    var v :- TryGet(row, c);
    if v.Text? then Ok(v.s) else Err(ColumnDecode(c))
  }

  function TryGetStatus(row: ResultRow, c: Column): Outcome<Status> {
    var v :- TryGet(row, c);
    if v.State? then Ok(v.status) else Err(ColumnDecode(c))
  }

  datatype Record = Record(
    id: int, tenant: Tenant, requestId: string, apiKey: Value, model: string, reserved: int, captured: int,
    status: Status, expiresAt: int, meta: Value)

  /** What both lookups do with a row: read the record column by column and stop at the first failure. */
  function ReadRecord(row: ResultRow): Outcome<Record> {
    var id :- TryGetNumber(row, Id);
    var tenant :- TryGetText(row, TenantId);
    var requestId :- TryGetText(row, RequestId);
    var apiKey :- TryGet(row, ApiKeyId);
    var model :- TryGetText(row, Model);
    var reserved :- TryGetNumber(row, Reserved);
    var captured :- TryGetNumber(row, CapturedAmount);
    var status :- TryGetStatus(row, StatusText);
    var expiresAt :- TryGetNumber(row, ExpiresAt);
    var meta :- TryGet(row, MetaJson);
    Ok(Record(id, tenant, requestId, apiKey, model, reserved, captured, status, expiresAt, meta))
  }

  /** The query's result, read: none without such a row, else its record or a failure. */
  function Lookup(rows: seq<Authorization>, columns: set<Column>, t: Tenant, r: string): Outcome<Option<Record>> {
    match Find(rows, t, r)
    case None => Ok(None)
    case Some(i) =>
      var record :- ReadRecord(Select(rows, i, columns));
      Ok(Some(record))
  }

  /** The SELECT list of `fetch_authorization_for_update`. */
  const LOCKED_COLUMNS: set<Column> :=
    {Id, TenantId, ApiKeyId, RequestId, Model, Reserved, CapturedAmount, StatusText, ExpiresAt, MetaJson}

  /** The SELECT list of `fetch_authorization`. */
  const UNLOCKED_COLUMNS: set<Column> :=
    {Id, TenantId, ApiKeyId, RequestId, Model, Reserved, CapturedAmount, StatusText, ExpiresAt}

  /** The columns that a record is made of. */
  const RECORD_COLUMNS: set<Column> :=
    {Id, TenantId, RequestId, ApiKeyId, Model, Reserved, CapturedAmount, StatusText, ExpiresAt, MetaJson}

  /** The record that the table holds at a position. */
  ghost function RecordAt(rows: seq<Authorization>, i: nat): Record
    requires i < |rows|
  {
    var a := rows[i];
    Record(i, a.tenant, a.requestId, Unmodelled, a.model, a.reserved, a.captured, a.status, a.expiresAt, Unmodelled)
  }

  /** A read fails exactly where the query left the column out. */
  lemma Reads(rows: seq<Authorization>, i: nat, columns: set<Column>, c: Column)
    requires i < |rows|
    ensures TryGet(Select(rows, i, columns), c) == if c in columns then Ok(Cell(rows, i, c)) else Err(ColumnNotFound(c))
  {
  }

  /** A query that selects every column of a record reads back the table's record. */
  lemma CoveredRowReads(rows: seq<Authorization>, i: nat, columns: set<Column>)
    requires i < |rows| && RECORD_COLUMNS <= columns
    ensures ReadRecord(Select(rows, i, columns)) == Ok(RecordAt(rows, i))
  {
    var row := Select(rows, i, columns);
    forall c | c in RECORD_COLUMNS ensures c in row && row[c] == Cell(rows, i, c) {
      Reads(rows, i, columns, c);
    }
    assert Id in row && TenantId in row && RequestId in row && ApiKeyId in row && Model in row;
    assert Reserved in row && CapturedAmount in row && StatusText in row && ExpiresAt in row && MetaJson in row;
  }

  /** A query that leaves one out fails, at a column that it left out. */
  lemma UncoveredRowFails(row: ResultRow)
    requires exists c :: c in RECORD_COLUMNS && c !in row
    requires forall c :: c in row && c in {Id, Reserved, CapturedAmount, ExpiresAt} ==> row[c].Number?
    requires forall c :: c in row && c in {TenantId, RequestId, Model} ==> row[c].Text?
    requires StatusText in row ==> row[StatusText].State?
    ensures ReadRecord(row).Err? && ReadRecord(row).error.ColumnNotFound?
    ensures var c := ReadRecord(row).error.column; c in RECORD_COLUMNS && c !in row
  {
  }

  /** The locked lookup never fails and returns the row found, so the transactions may be modelled on `Find`. */
  lemma LockedLookupFinds(rows: seq<Authorization>, t: Tenant, r: string)
    ensures Lookup(rows, LOCKED_COLUMNS, t, r)
         == Ok(match Find(rows, t, r) case None => None case Some(i) => Some(RecordAt(rows, i)))
  {
    if Find(rows, t, r).Some? {
      CoveredRowReads(rows, Find(rows, t, r).value, LOCKED_COLUMNS);
    }
  }

  /** A lookup fails if and only if there is a row and the query leaves out a column of its record. */
  lemma LookupFailsIff(rows: seq<Authorization>, columns: set<Column>, t: Tenant, r: string)
    ensures Lookup(rows, columns, t, r).Err? <==> Find(rows, t, r).Some? && !(RECORD_COLUMNS <= columns)
    ensures Lookup(rows, columns, t, r).Err? ==>
              var e := Lookup(rows, columns, t, r).error;
              e.ColumnNotFound? && e.column in RECORD_COLUMNS && e.column !in columns
  {
    var found := Find(rows, t, r);
    if found.Some? && RECORD_COLUMNS <= columns {
      CoveredRowReads(rows, found.value, columns);
    } else if found.Some? {
      var c :| c in RECORD_COLUMNS && c !in columns;
      assert c !in Select(rows, found.value, columns);
      UncoveredRowFails(Select(rows, found.value, columns));
    }
  }

  /** The unlocked lookup fails on every existing row, at the metadata column that its query leaves out. */
  lemma UnlockedLookupFails(rows: seq<Authorization>, t: Tenant, r: string)
    ensures Lookup(rows, UNLOCKED_COLUMNS, t, r)
         == if Find(rows, t, r).None? then Ok(None) else Err(ColumnNotFound(MetaJson))
  {
    LookupFailsIff(rows, UNLOCKED_COLUMNS, t, r);
    assert MetaJson in RECORD_COLUMNS && MetaJson !in UNLOCKED_COLUMNS;
    assert forall c :: c in RECORD_COLUMNS && c !in UNLOCKED_COLUMNS ==> c == MetaJson;
  }

  /** Only the keys matter for finding a row. */
  predicate SameKey(a: Authorization, b: Authorization) {
    a.tenant == b.tenant && a.requestId == b.requestId && a.model == b.model && a.reserved == b.reserved
  }

  /** A changed row is still found where it was. */
  lemma {:induction false} FoundAgain(rows: seq<Authorization>, rows1: seq<Authorization>, t: Tenant, r: string)
    requires |rows| == |rows1| && forall i :: 0 <= i < |rows| ==> SameKey(rows[i], rows1[i])
    ensures Find(rows1, t, r) == Find(rows, t, r)
  {
    if rows != [] {
      var last := |rows| - 1;
      FoundAgain(rows[..last], rows1[..last], t, r);
    }
  }
}
