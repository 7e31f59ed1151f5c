/**
 * The `api_sync_tracking` table: one cursor row per (api name, calendar
 * day), days being plain integers. `FirstOrCreate` is the lazy creation of
 * today's row, seeded with the watermark of the latest earlier day.
 */
module ApiSyncTracking {

  import opened Wrappers

  /** One cursor row. */
  datatype SyncRow = SyncRow(
    apiName: string,
    lastProcessedId: int,
    dailyRequestCount: int,
    lastSyncDate: int,
    totalRequestsMade: int,
    successfulRequests: int,
    failedRequests: int)

  /** The row is the one for `(apiName, day)`. */
  predicate HasKey(r: SyncRow, apiName: string, day: int) {
    r.apiName == apiName && r.lastSyncDate == day
  }

  /** The unique index on `(api_name, last_sync_date)`. */
  ghost predicate KeysUnique(rows: seq<SyncRow>) {
    forall i, j :: 0 <= i < j < |rows| ==> !HasKey(rows[j], rows[i].apiName, rows[i].lastSyncDate)
  }

  /** The first row for `(apiName, day)`, if any. */
  function FindRow(rows: seq<SyncRow>, apiName: string, day: int): (r: Option<nat>)
    ensures r.None? <==> forall j :: 0 <= j < |rows| ==> !HasKey(rows[j], apiName, day)
    ensures r.Some? ==> r.value < |rows| && HasKey(rows[r.value], apiName, day)
    ensures r.Some? ==> forall j :: 0 <= j < r.value ==> !HasKey(rows[j], apiName, day)
  {
    if rows == [] then None
    else if HasKey(rows[0], apiName, day) then Some(0)
    else
      var r := FindRow(rows[1..], apiName, day);
      assert forall j :: 1 <= j < |rows| ==> rows[j] == rows[1..][j - 1];
      if r.None? then None else Some(r.value + 1)
  }

  /** The row belongs to `apiName` and is dated strictly before `today`. */
  predicate Earlier(r: SyncRow, apiName: string, today: int) {
    r.apiName == apiName && r.lastSyncDate < today
  }

  /**
   * `where api_name = ? and last_sync_date < today order by last_sync_date desc first()`:
   * the earlier row of `apiName` with the greatest date (on a tie, the
   * first in table order; the unique index rules ties out).
   */
  function LatestEarlier(rows: seq<SyncRow>, apiName: string, today: int): (r: Option<SyncRow>)
    ensures r.None? <==> forall j :: 0 <= j < |rows| ==> !Earlier(rows[j], apiName, today)
    ensures r.Some? ==> r.value in rows && Earlier(r.value, apiName, today)
    ensures r.Some? ==> forall j :: 0 <= j < |rows| && Earlier(rows[j], apiName, today) ==>
                          rows[j].lastSyncDate <= r.value.lastSyncDate
  {
    if rows == [] then None
    else
      var prev := LatestEarlier(rows[..|rows| - 1], apiName, today);
      var last := rows[|rows| - 1];
      assert forall j :: 0 <= j < |rows| - 1 ==> rows[j] == rows[..|rows| - 1][j];
      if !Earlier(last, apiName, today) then prev
      else match prev
        case None => Some(last)
        case Some(x) => if last.lastSyncDate > x.lastSyncDate then Some(last) else prev
  }

  /** `getLastProcessedId`: the watermark of the latest earlier day, or 0. */
  function GetLastProcessedId(rows: seq<SyncRow>, apiName: string, today: int): (id: int)
    ensures (forall j :: 0 <= j < |rows| ==> !Earlier(rows[j], apiName, today)) ==> id == 0
    ensures (exists j :: 0 <= j < |rows| && Earlier(rows[j], apiName, today)) ==>
      exists j :: 0 <= j < |rows| && Earlier(rows[j], apiName, today) && id == rows[j].lastProcessedId &&
        forall k :: 0 <= k < |rows| && Earlier(rows[k], apiName, today) ==> rows[k].lastSyncDate <= rows[j].lastSyncDate
  {
    match LatestEarlier(rows, apiName, today)
    case None => 0
    case Some(r) => r.lastProcessedId
  }

  /** Under the unique index the seed is determined: it is the watermark of THE latest earlier row. */
  lemma SeedIsLatestEarlierRow(rows: seq<SyncRow>, apiName: string, today: int, i: nat)
    requires KeysUnique(rows) && i < |rows| && Earlier(rows[i], apiName, today)
    requires forall k :: 0 <= k < |rows| && Earlier(rows[k], apiName, today) ==> rows[k].lastSyncDate <= rows[i].lastSyncDate
    ensures GetLastProcessedId(rows, apiName, today) == rows[i].lastProcessedId
  {
    var r := LatestEarlier(rows, apiName, today).value;
    var j :| 0 <= j < |rows| && rows[j] == r;
    assert HasKey(rows[j], rows[i].apiName, rows[i].lastSyncDate);
    if i < j {
    } else if j < i {
      assert HasKey(rows[i], rows[j].apiName, rows[j].lastSyncDate);
    }
  }

  /** The rows that can seed today's cursor: same api name, dated before today. */
  function Relevant(rows: seq<SyncRow>, apiName: string, today: int): (r: seq<SyncRow>)
    ensures forall x :: x in r <==> x in rows && Earlier(x, apiName, today)
  {
    if rows == [] then []
    else
      var last := rows[|rows| - 1];
      assert rows == rows[..|rows| - 1] + [last];
      Relevant(rows[..|rows| - 1], apiName, today) + (if Earlier(last, apiName, today) then [last] else [])
  }

  /** Rows of other api names, or dated today or later, never influence the seed. */
  lemma {:induction false} SeedIgnoresIrrelevantRows(rows: seq<SyncRow>, apiName: string, today: int)
    ensures LatestEarlier(Relevant(rows, apiName, today), apiName, today) == LatestEarlier(rows, apiName, today)
    ensures GetLastProcessedId(Relevant(rows, apiName, today), apiName, today) == GetLastProcessedId(rows, apiName, today)
  {
    if rows != [] {
      var front := rows[..|rows| - 1];
      var last := rows[|rows| - 1];
      SeedIgnoresIrrelevantRows(front, apiName, today);
      var rf := Relevant(front, apiName, today);
      if Earlier(last, apiName, today) {
        var rr := rf + [last];
        assert Relevant(rows, apiName, today) == rr;
        assert rr[..|rr| - 1] == rf;
        assert LatestEarlier(rr, apiName, today) == LatestEarlier(rows, apiName, today) by {
          assert rr[|rr| - 1] == last;
        }
      } else {
        assert Relevant(rows, apiName, today) == rf;
      }
    }
  }

  /** Appending a row with a key absent from the table makes the new row the one found for that key. */
  lemma FindRowAppend(rows: seq<SyncRow>, x: SyncRow, apiName: string, day: int)
    requires FindRow(rows, apiName, day).None? && HasKey(x, apiName, day)
    ensures FindRow(rows + [x], apiName, day) == Some(|rows|)
  {
    var rs := rows + [x];
    assert rs[|rows|] == x;
    assert forall j :: 0 <= j < |rows| ==> rs[j] == rows[j];
  }

  /** Overwriting the row found for a key, with a row of the same key, keeps it the one found. */
  lemma FindRowReplace(rows: seq<SyncRow>, i: nat, x: SyncRow)
    requires FindRow(rows, x.apiName, x.lastSyncDate) == Some(i)
    ensures FindRow(rows[i := x], x.apiName, x.lastSyncDate) == Some(i)
  {
    var rs := rows[i := x];
    assert HasKey(rs[i], x.apiName, x.lastSyncDate);
    assert forall j :: 0 <= j < i ==> rs[j] == rows[j];
  }

  /** What `firstOrCreate` returns, and the table afterwards. */
  datatype TrackingResult = TrackingResult(rows: seq<SyncRow>, row: SyncRow, created: bool)

  /**
   * `getTodaysTracking`: today's row if it exists; otherwise a new row
   * for today, appended, with zeroed counters and the latest earlier
   * day's watermark.
   */
  function FirstOrCreate(rows: seq<SyncRow>, apiName: string, today: int): (r: TrackingResult)
    ensures HasKey(r.row, apiName, today)
    ensures r.created <==> FindRow(rows, apiName, today).None?
    ensures !r.created ==> r.rows == rows && r.row == rows[FindRow(rows, apiName, today).value]
    ensures r.created ==> r.rows == rows + [r.row]
    ensures r.created ==> r.row == SyncRow(apiName, GetLastProcessedId(rows, apiName, today), 0, today, 0, 0, 0)
    ensures FindRow(r.rows, apiName, today).Some? && r.rows[FindRow(r.rows, apiName, today).value] == r.row
    ensures KeysUnique(rows) ==> KeysUnique(r.rows)
  {
    match FindRow(rows, apiName, today)
    case Some(i) => TrackingResult(rows, rows[i], false)
    case None =>
      var row := SyncRow(apiName, GetLastProcessedId(rows, apiName, today), 0, today, 0, 0, 0);
      var rows' := rows + [row];
      FindRowAppend(rows, row, apiName, today);
      TrackingResult(rows', row, true)
  }

  /** A second call on the same day returns the same row and creates nothing. */
  lemma FirstOrCreateIdempotent(rows: seq<SyncRow>, apiName: string, today: int)
    ensures var r1 := FirstOrCreate(rows, apiName, today);
            FirstOrCreate(r1.rows, apiName, today) == TrackingResult(r1.rows, r1.row, false)
  {
  }

  /** Existing rows, in particular those of earlier days, are never modified. */
  lemma FirstOrCreateKeepsRows(rows: seq<SyncRow>, apiName: string, today: int)
    ensures var r := FirstOrCreate(rows, apiName, today);
            |rows| <= |r.rows| && forall j :: 0 <= j < |rows| ==> r.rows[j] == rows[j]
  {
  }

  /** The tracking table, changed in place. */
  class TrackingTable {
    var rows: seq<SyncRow>

    ghost predicate Valid()
      reads this
    {
      KeysUnique(rows)
    }

    constructor (initial: seq<SyncRow>)
      requires KeysUnique(initial)
      ensures Valid() && rows == initial
    {
      rows := initial;
    }

    /** `ApiSyncTracking::getTodaysTracking($apiName)` on day `today`. */
    method GetTodaysTracking(apiName: string, today: int) returns (row: SyncRow)
      requires Valid()
      modifies this
      ensures Valid()
      ensures var r := FirstOrCreate(old(rows), apiName, today); rows == r.rows && row == r.row
    {
      var found := FindRow(rows, apiName, today);
      if found.Some? {
        row := rows[found.value];
      } else {
        row := SyncRow(apiName, GetLastProcessedId(rows, apiName, today), 0, today, 0, 0, 0);
        FindRowAppend(rows, row, apiName, today);
        rows := rows + [row];
      }
    }

    /** `$tracking->save()`: write the row back over the row with the same key. */
    method Save(row: SyncRow)
      requires Valid() && FindRow(rows, row.apiName, row.lastSyncDate).Some?
      modifies this
      ensures Valid()
      ensures rows == old(rows)[FindRow(old(rows), row.apiName, row.lastSyncDate).value := row]
      ensures FindRow(rows, row.apiName, row.lastSyncDate) == FindRow(old(rows), row.apiName, row.lastSyncDate)
    {
      var i := FindRow(rows, row.apiName, row.lastSyncDate).value;
      FindRowReplace(rows, i, row);
      rows := rows[i := row];
    }
  }
}
