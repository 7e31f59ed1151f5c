/**
 * The `plants` table: rows in table order, each with a local primary key
 * `id` (auto-increment) and an optional upstream key `api_id`. Queries are
 * functions over the row sequence; the `PlantTable` class holds the table
 * and changes it in place.
 */
module Plants {

  import opened Wrappers

  /**
   * `watering_general_benchmark`, a JSON object whose `value` and `unit`
   * may each be absent. `Benchmark(None, None)` also stands for a null
   * column or an empty object.
   */
  datatype Benchmark = Benchmark(value: Option<string>, unit: Option<string>)

  /** The other synced descriptive columns, each nullable. */
  datatype Traits = Traits(
    watering: Option<string>,
    wateringPeriod: Option<string>,
    flowers: Option<string>,
    fruits: Option<string>,
    leaf: Option<string>,
    growthRate: Option<string>,
    maintenance: Option<string>)

  datatype Plant = Plant(id: nat, apiId: Option<int>, commonName: string, benchmark: Benchmark, traits: Traits)

  /** The columns one synchronisation writes for the plant with upstream key `apiId`. */
  datatype PlantData = PlantData(apiId: int, commonName: string, benchmark: Benchmark, traits: Traits)

  /** The whole table: its rows and the next auto-increment value. */
  datatype Table = Table(rows: seq<Plant>, nextId: nat)

  /** Rows `i` and `j` differ in local id, and in upstream key when row `i` has one. */
  predicate KeysDistinct(rows: seq<Plant>, i: nat, j: nat)
    requires i < |rows| && j < |rows|
  {
    rows[i].id != rows[j].id && (rows[i].apiId.Some? ==> rows[i].apiId != rows[j].apiId)
  }

  /** Invariant of the table: local ids are unique and below `nextId`; upstream keys are unique. */
  ghost predicate ValidTable(t: Table) {
    && (forall i :: 0 <= i < |t.rows| ==> t.rows[i].id < t.nextId)
    && (forall i, j :: 0 <= i < j < |t.rows| ==> KeysDistinct(t.rows, i, j))
  }

  /** `Plant::where('api_id', k)->exists()`. */
  predicate HasApiId(rows: seq<Plant>, k: int) {
    exists i :: 0 <= i < |rows| && rows[i].apiId == Some(k)
  }

  /** The first row, in table order, whose upstream key is `k`. */
  function IndexOfApiId(rows: seq<Plant>, k: int): (r: Option<nat>)
    ensures r.None? <==> !HasApiId(rows, k)
    ensures r.Some? ==> r.value < |rows| && rows[r.value].apiId == Some(k)
    ensures r.Some? ==> forall j :: 0 <= j < r.value ==> rows[j].apiId != Some(k)
  {
    if rows == [] then None
    else if rows[0].apiId == Some(k) then Some(0)
    else
      var r := IndexOfApiId(rows[1..], k);
      assert r.None? ==> forall j :: 1 <= j < |rows| ==> rows[j].apiId == rows[1..][j - 1].apiId;
      if r.None? then None else Some(r.value + 1)
  }

  /** The row whose local primary key is `id` (`Plant::find($id)`). */
  function IndexOfId(rows: seq<Plant>, id: int): (r: Option<nat>)
    ensures r.None? <==> forall j :: 0 <= j < |rows| ==> rows[j].id != id
    ensures r.Some? ==> r.value < |rows| && rows[r.value].id == id
  {
    if rows == [] then None
    else if rows[0].id == id then Some(0)
    else
      var r := IndexOfId(rows[1..], id);
      assert r.None? ==> forall j :: 1 <= j < |rows| ==> rows[j].id == rows[1..][j - 1].id;
      if r.None? then None else Some(r.value + 1)
  }

  /** `t` occurs somewhere inside `s` (the `LIKE '%t%'` test, without wildcards or collation). */
  predicate Contains(s: string, t: string) {
    t <= s || (s != [] && Contains(s[1..], t))
  }

  /** `t` occurs in `s` starting at position `i`. */
  predicate OccursAt(s: string, t: string, i: int) {
    0 <= i <= |s| - |t| && s[i..i + |t|] == t
  }

  /** `Contains(s, t)` holds exactly when `t` occurs in `s` at some position. */
  lemma {:induction false} ContainsOccurs(s: string, t: string)
    ensures Contains(s, t) <==> exists i :: OccursAt(s, t, i)
  {
    if t <= s {
      assert OccursAt(s, t, 0);
    } else if s == [] {
    } else {
      ContainsOccurs(s[1..], t);
      if Contains(s[1..], t) {
        var i :| OccursAt(s[1..], t, i);
        assert s[i + 1..i + 1 + |t|] == s[1..][i..i + |t|];
        assert OccursAt(s, t, i + 1);
      }
      if exists i :: OccursAt(s, t, i) {
        var i :| OccursAt(s, t, i);
        assert i != 0;
        assert s[1..][i - 1..i - 1 + |t|] == s[i..i + |t|];
        assert OccursAt(s[1..], t, i - 1);
      }
    }
  }

  /** The first row, in table order, whose `common_name` contains `needle`. */
  function FirstNameMatch(rows: seq<Plant>, needle: string): (r: Option<nat>)
    ensures r.None? ==> forall j :: 0 <= j < |rows| ==> !Contains(rows[j].commonName, needle)
    ensures r.Some? ==> r.value < |rows| && Contains(rows[r.value].commonName, needle)
    ensures r.Some? ==> forall j :: 0 <= j < r.value ==> !Contains(rows[j].commonName, needle)
  {
    if rows == [] then None
    else if Contains(rows[0].commonName, needle) then Some(0)
    else
      var r := FirstNameMatch(rows[1..], needle);
      assert forall j :: 1 <= j < |rows| ==> rows[j] == rows[1..][j - 1];
      if r.None? then None else Some(r.value + 1)
  }

  /** A row carries the columns written by a synchronisation. */
  predicate Carries(p: Plant, d: PlantData) {
    p.apiId == Some(d.apiId) && p.commonName == d.commonName && p.benchmark == d.benchmark && p.traits == d.traits
  }

  datatype UpsertResult = UpsertResult(table: Table, created: bool)

  /**
   * `updateOrCreate(['api_id' => k], data)`: look the key up; if absent,
   * insert a new row with the next local id, otherwise overwrite the
   * synced columns of the row that has it, keeping its local id.
   */
  function UpsertByApiId(t: Table, d: PlantData): (r: UpsertResult)
    ensures r.created <==> !HasApiId(t.rows, d.apiId)
    ensures |r.table.rows| == |t.rows| + (if r.created then 1 else 0)
    ensures r.table.nextId == t.nextId + (if r.created then 1 else 0)
    ensures r.created ==> r.table.rows[|t.rows|] == Plant(t.nextId, Some(d.apiId), d.commonName, d.benchmark, d.traits)
  {
    match IndexOfApiId(t.rows, d.apiId)
    case None =>
      var p := Plant(t.nextId, Some(d.apiId), d.commonName, d.benchmark, d.traits);
      UpsertResult(Table(t.rows + [p], t.nextId + 1), true)
    case Some(i) =>
      var p := Plant(t.rows[i].id, Some(d.apiId), d.commonName, d.benchmark, d.traits);
      UpsertResult(Table(t.rows[i := p], t.nextId), false)
  }

  /**
   * After an upsert the key leads to a row carrying the payload; rows with
   * other keys are untouched, and existing rows keep their local ids.
   */
  lemma UpsertStores(t: Table, d: PlantData)
    ensures var r := UpsertByApiId(t, d).table;
            && (forall j :: 0 <= j < |t.rows| && t.rows[j].apiId != Some(d.apiId) ==> r.rows[j] == t.rows[j])
            && (forall j :: 0 <= j < |t.rows| ==> r.rows[j].id == t.rows[j].id)
            && match IndexOfApiId(r.rows, d.apiId)
               case Some(i) => Carries(r.rows[i], d)
               case None => false
  {
  }

  /** After an upsert, `exists()` on an upstream key holds exactly for the stored key and the keys present before. */
  lemma UpsertPresence(t: Table, d: PlantData)
    ensures forall k :: HasApiId(UpsertByApiId(t, d).table.rows, k) <==> k == d.apiId || HasApiId(t.rows, k)
  {
    var r := UpsertByApiId(t, d).table.rows;
    UpsertStores(t, d);
    forall k | HasApiId(t.rows, k) && k != d.apiId
      ensures HasApiId(r, k)
    {
      var j :| 0 <= j < |t.rows| && t.rows[j].apiId == Some(k);
      assert r[j] == t.rows[j];
    }
    forall k | HasApiId(r, k) && k != d.apiId
      ensures HasApiId(t.rows, k)
    {
      var j :| 0 <= j < |r| && r[j].apiId == Some(k);
      match IndexOfApiId(t.rows, d.apiId)
      case None =>
        assert j < |t.rows| && r[j] == t.rows[j];
      case Some(i) =>
        assert j != i && r[j] == t.rows[j];
    }
    assert HasApiId(r, d.apiId) by {
      var i := IndexOfApiId(r, d.apiId).value;
      assert r[i].apiId == Some(d.apiId);
    }
  }

  /** An upsert keeps the table invariant: local ids stay unique and below `nextId`, upstream keys stay unique. */
  lemma UpsertKeepsValid(t: Table, d: PlantData)
    requires ValidTable(t)
    ensures ValidTable(UpsertByApiId(t, d).table)
  {
    var r := UpsertByApiId(t, d).table;
    match IndexOfApiId(t.rows, d.apiId)
    case None =>
      forall i, j | 0 <= i < j < |r.rows|
        ensures KeysDistinct(r.rows, i, j)
      {
        if j < |t.rows| {
          assert KeysDistinct(t.rows, i, j);
        }
      }
    case Some(x) =>
      SameKeysKeepValid(t, r);
  }

  /** Changing columns other than the keys keeps the table invariant. */
  lemma SameKeysKeepValid(t: Table, u: Table)
    requires ValidTable(t) && |u.rows| == |t.rows| && u.nextId == t.nextId
    requires forall k :: 0 <= k < |t.rows| ==> u.rows[k].id == t.rows[k].id && u.rows[k].apiId == t.rows[k].apiId
    ensures ValidTable(u)
  {
    forall i, j | 0 <= i < j < |u.rows|
      ensures KeysDistinct(u.rows, i, j)
    {
      assert KeysDistinct(t.rows, i, j);
    }
  }

  /** Removing a row keeps the table invariant. */
  lemma DeleteKeepsValid(t: Table, x: nat)
    requires ValidTable(t) && x < |t.rows|
    ensures ValidTable(Table(t.rows[..x] + t.rows[x + 1..], t.nextId))
  {
    var rs := t.rows[..x] + t.rows[x + 1..];
    assert forall k :: 0 <= k < |rs| ==> rs[k] == t.rows[if k < x then k else k + 1];
    forall i, j | 0 <= i < j < |rs|
      ensures KeysDistinct(rs, i, j)
    {
      assert KeysDistinct(t.rows, if i < x then i else i + 1, if j < x then j else j + 1);
    }
  }

  /**
   * Storing the same upstream key twice: the second store updates rather
   * than creates, and the table ends as if only the second payload had
   * been stored (the latest payload wins).
   */
  lemma UpsertTwice(t: Table, d1: PlantData, d2: PlantData)
    requires d1.apiId == d2.apiId
    ensures !UpsertByApiId(UpsertByApiId(t, d1).table, d2).created
    ensures UpsertByApiId(UpsertByApiId(t, d1).table, d2).table == UpsertByApiId(t, d2).table
  {
    var t1 := UpsertByApiId(t, d1).table;
    var k := d1.apiId;
    UpsertStores(t, d1);
    match IndexOfApiId(t.rows, k)
    case None =>
      var n := |t.rows|;
      assert t1.rows == t.rows + [Plant(t.nextId, Some(k), d1.commonName, d1.benchmark, d1.traits)];
      assert IndexOfApiId(t1.rows, k) == Some(n);
      var p2 := Plant(t.nextId, Some(k), d2.commonName, d2.benchmark, d2.traits);
      assert t1.rows[n := p2] == t.rows + [p2];
    case Some(i) =>
      assert IndexOfApiId(t1.rows, k) == Some(i);
  }

  /** Storing a payload is idempotent. */
  lemma UpsertIdempotent(t: Table, d: PlantData)
    ensures var t1 := UpsertByApiId(t, d).table;
            UpsertByApiId(t1, d) == UpsertResult(t1, false)
  {
    UpsertTwice(t, d, d);
  }

  /** The plants table, changed in place by synchronisation and by the controller. */
  class PlantTable {
    var rows: seq<Plant>
    var nextId: nat

    ghost predicate Valid()
      reads this
    {
      ValidTable(Table(rows, nextId))
    }

    function Value(): Table
      reads this
    {
      Table(rows, nextId)
    }

    constructor ()
      ensures Valid() && rows == [] && nextId == 1
    {
      rows := [];
      nextId := 1;
    }

    /** `Plant::updateOrCreate`: look up by `api_id`, then insert or overwrite. */
    method UpdateOrCreate(d: PlantData) returns (created: bool)
      requires Valid()
      modifies this
      ensures Valid()
      ensures UpsertResult(Value(), created) == UpsertByApiId(old(Value()), d)
    {
      UpsertKeepsValid(Value(), d);
      var found := IndexOfApiId(rows, d.apiId);
      if found.None? {
        rows := rows + [Plant(nextId, Some(d.apiId), d.commonName, d.benchmark, d.traits)];
        nextId := nextId + 1;
        created := true;
      } else {
        var i := found.value;
        rows := rows[i := Plant(rows[i].id, Some(d.apiId), d.commonName, d.benchmark, d.traits)];
        created := false;
      }
    }

    /** `$plant->save()` of a row fetched from the table: same keys, new columns. */
    method Save(i: nat, p: Plant)
      requires Valid() && i < |rows| && p.id == rows[i].id && p.apiId == rows[i].apiId
      modifies this
      ensures Valid()
      ensures rows == old(rows)[i := p] && nextId == old(nextId)
    {
      SameKeysKeepValid(Value(), Table(rows[i := p], nextId));
      rows := rows[i := p];
    }

    /** `$plant->delete()` of the row at index `i`; the other rows keep their order. */
    method DeleteAt(i: nat)
      requires Valid() && i < |rows|
      modifies this
      ensures Valid()
      ensures rows == old(rows)[..i] + old(rows)[i + 1..] && nextId == old(nextId)
    {
      DeleteKeepsValid(Value(), i);
      rows := rows[..i] + rows[i + 1..];
    }
  }
}
