/**
 * The plant endpoints that carry logic: `show` and `update` look a plant up
 * by a substring of its common name (first match in table order), `update`
 * merges the supplied fields into it, and `destroy` deletes by local id.
 * The request is taken as already validated: each supplied field is a
 * string (never null), and a field the request leaves out is `None`.
 */
module Controllers {

  import opened Wrappers
  import opened Plants

  /** `watering_general_benchmark` in an update request: its `value` and `unit`, each optional. */
  datatype BenchmarkPatch = BenchmarkPatch(value: Option<string>, unit: Option<string>)

  /** The validated body of `PUT /api/plants/{common_name}`. */
  datatype UpdateRequest = UpdateRequest(commonName: Option<string>, benchmark: Option<BenchmarkPatch>)

  /** What an endpoint answers: the plant as JSON (200), no content (204) or "Plant not found" (404). */
  datatype Reply = Ok(plant: Plant) | NoContent | NotFound

  /** A request that names no field to change. */
  predicate NoFields(req: UpdateRequest) {
    req.commonName.None? && (req.benchmark.None? || req.benchmark == Some(BenchmarkPatch(None, None)))
  }

  /**
   * The merge `update` performs on the matched plant: the name when one
   * is supplied; when a benchmark object is supplied, its `value` and its
   * `unit`, each only when supplied, over the stored benchmark.
   */
  function MergeUpdate(p: Plant, req: UpdateRequest): (q: Plant)
    ensures q.id == p.id && q.apiId == p.apiId && q.traits == p.traits
    ensures q.commonName == req.commonName.GetOr(p.commonName)
    ensures req.benchmark.None? ==> q.benchmark == p.benchmark
    ensures req.benchmark.Some? ==>
              && q.benchmark.value == (if req.benchmark.value.value.Some? then req.benchmark.value.value else p.benchmark.value)
              && q.benchmark.unit == (if req.benchmark.value.unit.Some? then req.benchmark.value.unit else p.benchmark.unit)
  {
    var named := if req.commonName.Some? then p.(commonName := req.commonName.value) else p;
    match req.benchmark
    case None => named
    case Some(patch) =>
      var b := named.benchmark;
      var b1 := if patch.value.Some? then b.(value := patch.value) else b;
      var b2 := if patch.unit.Some? then b1.(unit := patch.unit) else b1;
      named.(benchmark := b2)
  }

  /** An update that names no field leaves the plant as it was. */
  lemma MergeNoFields(p: Plant, req: UpdateRequest)
    requires NoFields(req)
    ensures MergeUpdate(p, req) == p
  {
  }

  /** A supplied `value` replaces only the value and keeps the unit; a supplied `unit` only the unit. */
  lemma MergeBenchmarkFields(p: Plant, v: Option<string>, u: Option<string>, name: Option<string>)
    ensures MergeUpdate(p, UpdateRequest(name, Some(BenchmarkPatch(v, None)))).benchmark.unit == p.benchmark.unit
    ensures MergeUpdate(p, UpdateRequest(name, Some(BenchmarkPatch(None, u)))).benchmark.value == p.benchmark.value
    ensures v.Some? ==> MergeUpdate(p, UpdateRequest(name, Some(BenchmarkPatch(v, u)))).benchmark.value == v
    ensures u.Some? ==> MergeUpdate(p, UpdateRequest(name, Some(BenchmarkPatch(v, u)))).benchmark.unit == u
  {
  }

  /** Sending the same update twice has the effect of sending it once. */
  lemma MergeIdempotent(p: Plant, req: UpdateRequest)
    ensures MergeUpdate(MergeUpdate(p, req), req) == MergeUpdate(p, req)
  {
  }

  /**
   * Deleting the row that holds local id `id` from a valid table removes
   * the plant with that id and no other: the remaining plants are exactly
   * the old ones with a different id, one fewer.
   */
  lemma {:induction false} DeleteRemovesExactly(t: Table, id: int, i: nat)
    requires ValidTable(t) && IndexOfId(t.rows, id) == Some(i)
    ensures var rest := t.rows[..i] + t.rows[i + 1..];
            && |rest| == |t.rows| - 1
            && (forall p :: p in rest <==> p in t.rows && p.id != id)
  {
    var rest := t.rows[..i] + t.rows[i + 1..];
    assert forall k :: 0 <= k < |rest| ==> rest[k] == t.rows[if k < i then k else k + 1];
    forall p | p in rest
      ensures p in t.rows && p.id != id
    {
      var k :| 0 <= k < |rest| && rest[k] == p;
      var j := if k < i then k else k + 1;
      assert KeysDistinct(t.rows, if j < i then j else i, if j < i then i else j);
    }
    forall p | p in t.rows && p.id != id
      ensures p in rest
    {
      var j :| 0 <= j < |t.rows| && t.rows[j] == p;
      assert rest[if j < i then j else j - 1] == p;
    }
  }

  /** The plant endpoints over the plants table. */
  class PlantController {
    const plants: PlantTable

    ghost predicate Valid()
      reads this, plants
    {
      plants.Valid()
    }

    constructor (plants: PlantTable)
      requires plants.Valid()
      ensures Valid() && this.plants == plants
    {
      this.plants := plants;
    }

    /**
     * `show`: the first plant, in table order, whose common name contains
     * `needle`; 404 when none does.
     */
    method Show(needle: string) returns (reply: Reply)
      ensures reply.NotFound? <==> forall j :: 0 <= j < |plants.rows| ==> !Contains(plants.rows[j].commonName, needle)
      ensures reply.Ok? ==>
                exists i :: (0 <= i < |plants.rows| && plants.rows[i] == reply.plant
                  && Contains(reply.plant.commonName, needle)
                  && forall j :: 0 <= j < i ==> !Contains(plants.rows[j].commonName, needle))
      ensures !reply.NoContent?
    {
      var found := FirstNameMatch(plants.rows, needle);
      if found.None? {
        return NotFound;
      }
      reply := Ok(plants.rows[found.value]);
    }

    /**
     * `update`: 404 with the table unchanged when no plant's name contains
     * `needle`; otherwise the first match gets the supplied fields, is
     * saved in place and is answered.
     */
    method Update(req: UpdateRequest, needle: string) returns (reply: Reply)
      requires Valid()
      modifies plants
      ensures Valid()
      ensures FirstNameMatch(old(plants.rows), needle).None? ==>
                reply == NotFound && plants.rows == old(plants.rows) && plants.nextId == old(plants.nextId)
      ensures FirstNameMatch(old(plants.rows), needle).Some? ==>
                var i := FirstNameMatch(old(plants.rows), needle).value;
                && reply == Ok(MergeUpdate(old(plants.rows)[i], req))
                && plants.rows == old(plants.rows)[i := MergeUpdate(old(plants.rows)[i], req)]
                && plants.nextId == old(plants.nextId)
    {
      var found := FirstNameMatch(plants.rows, needle);
      if found.None? {
        return NotFound;
      }
      var i := found.value;
      var plant := plants.rows[i];
      if req.commonName.Some? {
        plant := plant.(commonName := req.commonName.value);
      }
      if req.benchmark.Some? {
        var wateringBenchmark := plant.benchmark;
        if req.benchmark.value.value.Some? {
          wateringBenchmark := wateringBenchmark.(value := req.benchmark.value.value);
        }
        if req.benchmark.value.unit.Some? {
          wateringBenchmark := wateringBenchmark.(unit := req.benchmark.value.unit);
        }
        plant := plant.(benchmark := wateringBenchmark);
      }
      plants.Save(i, plant);
      reply := Ok(plant);
    }

    /**
     * `destroy`: 404 with the table unchanged when no plant has local id
     * `id`; otherwise that row is deleted, the others keep their order,
     * and the answer is 204.
     */
    method Destroy(id: int) returns (reply: Reply)
      requires Valid()
      modifies plants
      ensures Valid() && plants.nextId == old(plants.nextId)
      ensures forall p :: p in plants.rows <==> p in old(plants.rows) && p.id != id
      ensures reply.NotFound? <==> forall j :: 0 <= j < |old(plants.rows)| ==> old(plants.rows)[j].id != id
      ensures reply.NotFound? ==> plants.rows == old(plants.rows)
      ensures !reply.NotFound? ==>
                var i := IndexOfId(old(plants.rows), id).value;
                reply == NoContent && plants.rows == old(plants.rows)[..i] + old(plants.rows)[i + 1..]
    {
      var found := IndexOfId(plants.rows, id);
      if found.None? {
        return NotFound;
      }
      DeleteRemovesExactly(plants.Value(), id, found.value);
      plants.DeleteAt(found.value);
      reply := NoContent;
    }
  }
}
