/**
 * The daily-quota synchronisation of the Perenual species catalogue.
 *
 * The pure part (`FetchStore`, `Step`, `Iterate`) says what one attempt
 * and a run of attempts do to a value-level state; the `PlantService`
 * class is the imperative service, proved to follow it. The HTTP call is
 * an oracle `fetch` from species id to response.
 */
module PlantSync {

  import opened Wrappers
  import opened Php
  import opened Plants
  import opened ApiSyncTracking
  import opened Http

  /** The decoded body of a species-details response. */
  datatype Payload = Payload(id: Option<int>, commonName: Option<string>, benchmark: Benchmark, traits: Traits)

  /** One HTTP attempt: a status with a (possibly null) decoded body, or an exception such as a timeout. */
  datatype Response = Reply(status: int, json: Option<Payload>) | Thrown

  /**
   * `formatWateringBenchmark`: the payload's benchmark when it has both a
   * value and a unit, otherwise the watering period (default "7") in days.
   */
  function FormatWateringBenchmark(p: Payload): (b: Benchmark)
    ensures b.value.Some? && b.unit.Some?
    ensures p.benchmark.value.Some? && p.benchmark.unit.Some? ==> b == p.benchmark
    ensures !(p.benchmark.value.Some? && p.benchmark.unit.Some?) ==>
              b.unit == Some("days") && b.value == Some(p.traits.wateringPeriod.GetOr("7"))
  {
    if p.benchmark.value.Some? && p.benchmark.unit.Some? then p.benchmark
    else Benchmark(Some(p.traits.wateringPeriod.GetOr("7")), Some("days"))
  }

  /** The columns `storePlant` writes for a payload that has an `id`. */
  function PlantDataOf(p: Payload): (d: PlantData)
    requires p.id.Some?
    ensures d.apiId == p.id.value && d.traits == p.traits
    ensures d.commonName == (if p.commonName.Some? then p.commonName.value else "Unknown")
    ensures d.benchmark.value.Some? && d.benchmark.unit.Some?
  {
    PlantData(p.id.value, p.commonName.GetOr("Unknown"), FormatWateringBenchmark(p), p.traits)
  }

  /** What `fetchAndStorePlant` yields: a stored record, null, or an exception. */
  datatype FetchResult = Stored(created: bool) | NoRecord | Raised

  datatype Fetched = Fetched(result: FetchResult, table: Table)

  /** The response carries a storable record: 2xx, a body, and an `id` in it. */
  predicate Storable(resp: Response) {
    resp.Reply? && Successful(resp.status) && resp.json.Some? && resp.json.value.id.Some?
  }

  /**
   * `fetchAndStorePlant` after the HTTP call: a non-2xx status (404 or
   * any other) or a body without `id` yields null and leaves the table
   * alone; a storable body is upserted by its `id`.
   */
  function FetchStore(t: Table, resp: Response): (f: Fetched)
    ensures f.result.Raised? <==> resp.Thrown?
    ensures f.result.Stored? <==> Storable(resp)
    ensures !f.result.Stored? ==> f.table == t
    ensures f.result.Stored? ==>
              UpsertByApiId(t, PlantDataOf(resp.json.value)) == UpsertResult(f.table, f.result.created)
  {
    match resp
    case Thrown => Fetched(Raised, t)
    case Reply(status, json) =>
      if !Successful(status) then Fetched(NoRecord, t)
      else if json.None? || json.value.id.None? then Fetched(NoRecord, t)
      else
        var u := UpsertByApiId(t, PlantDataOf(json.value));
        Fetched(Stored(u.created), u.table)
  }

  /** Number of preceding ids the stop rule inspects. */
  const CheckRange := 10

  /**
   * The consecutive-error stop rule at candidate `n`: none of the ten
   * ids `n-10 .. n-1` is stored locally. The window starts at id 1, so it
   * never fires for `n <= 10`.
   */
  predicate StopRule(rows: seq<Plant>, n: int) {
    n > CheckRange && forall k :: n - CheckRange <= k < n ==> !HasApiId(rows, k)
  }

  /** The statistics counters of one run. */
  datatype Counters = Counters(processed: int, created: int, updated: int, errors: int)

  /**
   * The state a run acts on: the in-memory cursor, the cursor as last
   * saved, the plant table, the counters, and whether the stop rule fired.
   */
  datatype RunState = RunState(tracking: SyncRow, saved: SyncRow, table: Table, stats: Counters, stopped: bool)

  /** The end of every iteration that goes on: watermark to `id`, one more request today and in total. */
  function Advance(t: SyncRow, id: int): (r: SyncRow)
    ensures r.lastProcessedId == id
    ensures r.dailyRequestCount == t.dailyRequestCount + 1 && r.totalRequestsMade == t.totalRequestsMade + 1
    ensures r.apiName == t.apiName && r.lastSyncDate == t.lastSyncDate
    ensures r.successfulRequests == t.successfulRequests && r.failedRequests == t.failedRequests
  {
    t.(lastProcessedId := id, dailyRequestCount := t.dailyRequestCount + 1, totalRequestsMade := t.totalRequestsMade + 1)
  }

  /**
   * One iteration of the loop of `fetchAndStorePlants`, after the fetch
   * for candidate `id` gave `f`. A stored record counts as processed and
   * as created or updated; null counts as an error and may trip the stop
   * rule, in which case the loop ends before the cursor advances or is
   * saved; an exception counts as an error and always advances.
   */
  function AfterFetch(s: RunState, id: int, f: Fetched): (r: RunState)
    ensures r.table == f.table
    ensures r.stopped <==> f.result.NoRecord? && StopRule(f.table.rows, id)
    ensures !r.stopped ==> r.saved == r.tracking && r.tracking.lastProcessedId == id
    ensures r.stopped ==> r.saved == s.saved && r.tracking.lastProcessedId == s.tracking.lastProcessedId
    ensures r.stats.processed + r.stats.errors == s.stats.processed + s.stats.errors + 1
    ensures r.tracking.successfulRequests + r.tracking.failedRequests
            == s.tracking.successfulRequests + s.tracking.failedRequests + 1
    ensures f.result.Stored? ==>
              && r.stats == s.stats.(processed := s.stats.processed + 1,
                                     created := s.stats.created + (if f.result.created then 1 else 0),
                                     updated := s.stats.updated + (if f.result.created then 0 else 1))
              && r.tracking.successfulRequests == s.tracking.successfulRequests + 1
              && r.tracking.failedRequests == s.tracking.failedRequests
    ensures !f.result.Stored? ==>
              && r.stats == s.stats.(errors := s.stats.errors + 1)
              && r.tracking.failedRequests == s.tracking.failedRequests + 1
              && r.tracking.successfulRequests == s.tracking.successfulRequests
  {
    match f.result
    case Raised =>
      var t := Advance(s.tracking.(failedRequests := s.tracking.failedRequests + 1), id);
      RunState(t, t, f.table, s.stats.(errors := s.stats.errors + 1), false)
    case Stored(created) =>
      var t := Advance(s.tracking.(successfulRequests := s.tracking.successfulRequests + 1), id);
      var c := if created then s.stats.(created := s.stats.created + 1) else s.stats.(updated := s.stats.updated + 1);
      RunState(t, t, f.table, c.(processed := c.processed + 1), false)
    case NoRecord =>
      var t := s.tracking.(failedRequests := s.tracking.failedRequests + 1);
      var c := s.stats.(errors := s.stats.errors + 1);
      if StopRule(f.table.rows, id) then RunState(t, s.saved, f.table, c, true)
      else
        var t' := Advance(t, id);
        RunState(t', t', f.table, c, false)
  }

  /** One iteration: fetch the id after the watermark and account for it. A stopped run stays stopped. */
  function Step(s: RunState, fetch: int -> Response): (r: RunState)
    ensures s.stopped ==> r == s
    ensures !s.stopped && !r.stopped ==> r.tracking.lastProcessedId == s.tracking.lastProcessedId + 1
    ensures !s.stopped && r.stopped ==> r.tracking.lastProcessedId == s.tracking.lastProcessedId
  {
    if s.stopped then s
    else
      var id := s.tracking.lastProcessedId + 1;
      AfterFetch(s, id, FetchStore(s.table, fetch(id)))
  }

  /** `n` iterations. */
  function Iterate(s: RunState, fetch: int -> Response, n: nat): (r: RunState)
    ensures s.stopped ==> r == s
    ensures !r.stopped ==> r.tracking.lastProcessedId == s.tracking.lastProcessedId + n
  {
    if n == 0 then s else Step(Iterate(s, fetch, n - 1), fetch)
  }

  /** `Iterate` unfolded by one iteration. */
  lemma IterateSucc(s0: RunState, fetch: int -> Response, i: nat)
    ensures Iterate(s0, fetch, i + 1) == Step(Iterate(s0, fetch, i), fetch)
  {
  }

  /** An unstopped step fetches the id after the watermark. */
  lemma StepUnstopped(s: RunState, fetch: int -> Response)
    requires !s.stopped
    ensures var id := s.tracking.lastProcessedId + 1;
            Step(s, fetch) == AfterFetch(s, id, FetchStore(s.table, fetch(id)))
  {
  }

  /** Storing a response keeps the plants table invariant. */
  lemma FetchStoreKeepsValid(t: Table, resp: Response)
    requires ValidTable(t)
    ensures ValidTable(FetchStore(t, resp).table)
  {
    if Storable(resp) {
      UpsertKeepsValid(t, PlantDataOf(resp.json.value));
    }
  }

  /** One iteration keeps the plants table invariant. */
  lemma StepKeepsValid(s: RunState, fetch: int -> Response)
    requires ValidTable(s.table)
    ensures ValidTable(Step(s, fetch).table)
  {
    if !s.stopped {
      var id := s.tracking.lastProcessedId + 1;
      StepUnstopped(s, fetch);
      FetchStoreKeepsValid(s.table, fetch(id));
    }
  }

  /** The counters a run starts from. */
  const NoCounts := Counters(0, 0, 0, 0)

  /**
   * The bookkeeping a run of `n` iterations from `s0` keeps. `advanced`
   * is how far the watermark moved.
   */
  ghost predicate Accounted(s0: RunState, s: RunState, n: nat) {
    var advanced := s.tracking.lastProcessedId - s0.tracking.lastProcessedId;
    && 0 <= advanced <= n
    && s.tracking.apiName == s0.tracking.apiName && s.tracking.lastSyncDate == s0.tracking.lastSyncDate
    && s.tracking.dailyRequestCount - s0.tracking.dailyRequestCount == advanced
    && s.tracking.totalRequestsMade - s0.tracking.totalRequestsMade == advanced
    && 0 <= s.stats.created && 0 <= s.stats.updated
    && s.stats.processed == s.stats.created + s.stats.updated
    && s.tracking.successfulRequests - s0.tracking.successfulRequests == s.stats.processed
    && s.tracking.failedRequests - s0.tracking.failedRequests == s.stats.errors
    && s.stats.processed + s.stats.errors == advanced + (if s.stopped then 1 else 0)
    && (!s.stopped ==> advanced == n)
    && (s.stopped ==> StopRule(s.table.rows, s.tracking.lastProcessedId + 1))
    && (advanced == 0 ==> s.saved == s0.saved)
    && (advanced > 0 && !s.stopped ==> s.saved == s.tracking)
    && (advanced > 0 && s.stopped ==> s.saved == s.tracking.(failedRequests := s.tracking.failedRequests - 1))
  }

  /**
   * The accounting of a whole run: the watermark moves by at most the
   * budget, today's and the total request counts rise by exactly as much,
   * processed = created + updated, the success and failure counters follow
   * processed and errors, and every attempt but a stopping one advanced
   * the cursor. When the stop rule fired, the saved cursor lags the
   * in-memory one by exactly the failure that stopped the run.
   */
  lemma {:induction false} RunAccounting(s0: RunState, fetch: int -> Response, n: nat)
    requires s0.stats == NoCounts && !s0.stopped
    ensures Accounted(s0, Iterate(s0, fetch, n), n)
  {
    if n == 0 {
      assert Iterate(s0, fetch, n) == s0;
    } else {
      RunAccounting(s0, fetch, n - 1);
      IterateSucc(s0, fetch, n - 1);
      StepKeepsAccounted(s0, Iterate(s0, fetch, n - 1), n - 1, fetch);
    }
  }

  /** Any iteration, stopped or not, keeps the bookkeeping with one more iteration in the budget. */
  lemma StepKeepsAccounted(s0: RunState, s: RunState, n: nat, fetch: int -> Response)
    requires Accounted(s0, s, n)
    ensures Accounted(s0, Step(s, fetch), n + 1)
  {
    if !s.stopped {
      var id := s.tracking.lastProcessedId + 1;
      StepUnstopped(s, fetch);
      StepAccounted(s0, s, n, id, FetchStore(s.table, fetch(id)));
    }
  }

  /** One unstopped iteration keeps the bookkeeping, with one more iteration in the budget. */
  lemma StepAccounted(s0: RunState, s: RunState, n: nat, id: int, f: Fetched)
    requires Accounted(s0, s, n) && !s.stopped && id == s.tracking.lastProcessedId + 1
    ensures Accounted(s0, AfterFetch(s, id, f), n + 1)
  {
    var r := AfterFetch(s, id, f);
    match f.result
    case Raised =>
      assert r.tracking.lastProcessedId - s0.tracking.lastProcessedId == n + 1;
    case Stored(created) =>
      assert r.tracking.lastProcessedId - s0.tracking.lastProcessedId == n + 1;
    case NoRecord =>
      if r.stopped {
        assert r.tracking.lastProcessedId == s.tracking.lastProcessedId;
      } else {
        assert r.tracking.lastProcessedId - s0.tracking.lastProcessedId == n + 1;
      }
  }

  /** An unstopped run takes its next iteration on the id after its watermark. */
  lemma IterateNext(s0: RunState, fetch: int -> Response, i: nat, b: RunState, resp: Response)
    requires b == Iterate(s0, fetch, i) && !b.stopped
    requires resp == fetch(b.tracking.lastProcessedId + 1)
    ensures Iterate(s0, fetch, i + 1) == AfterFetch(b, b.tracking.lastProcessedId + 1, FetchStore(b.table, resp))
  {
    IterateSucc(s0, fetch, i);
    StepUnstopped(b, fetch);
  }

  /** Once the stop rule has fired, further iterations change nothing. */
  lemma {:induction false} StoppedStays(s0: RunState, fetch: int -> Response, m: nat, n: nat)
    requires m <= n && Iterate(s0, fetch, m).stopped
    ensures Iterate(s0, fetch, n) == Iterate(s0, fetch, m)
    decreases n - m
  {
    if m < n {
      StoppedStays(s0, fetch, m, n - 1);
      IterateSucc(s0, fetch, n - 1);
    }
  }

  /** A run that did all its iterations, or stopped early, is the run of the full budget. */
  lemma RunEnds(s0: RunState, fetch: int -> Response, k: nat, n: nat, s: RunState)
    requires s == Iterate(s0, fetch, k) && k <= n && (!s.stopped ==> k == n)
    ensures s == Iterate(s0, fetch, n)
  {
    if s.stopped {
      StoppedStays(s0, fetch, k, n);
    }
  }

  /**
   * The figures `fetchAndStorePlants` reports for a run that starts under
   * the daily limit: processed = created + updated, the watermark moves
   * by at most the budget actually used, today's count rises by exactly
   * as much, and never past the daily limit.
   */
  lemma QuotaRespected(s0: RunState, fetch: int -> Response, dailyLimit: int, requested: int)
    requires s0.stats == NoCounts && !s0.stopped
    requires s0.tracking.dailyRequestCount < dailyLimit
    ensures var limit := Min(requested, dailyLimit - s0.tracking.dailyRequestCount);
            var s := Iterate(s0, fetch, Max(0, limit));
            var advanced := s.tracking.lastProcessedId - s0.tracking.lastProcessedId;
            && s.stats.processed == s.stats.created + s.stats.updated
            && 0 <= advanced <= Max(0, limit)
            && s.tracking.dailyRequestCount - s0.tracking.dailyRequestCount == advanced
            && s.tracking.dailyRequestCount <= dailyLimit
  {
    RunAccounting(s0, fetch, Max(0, Min(requested, dailyLimit - s0.tracking.dailyRequestCount)));
  }

  /** `getStats()`. */
  datatype Snapshot = Snapshot(
    lastProcessedId: int,
    dailyRequestCount: int,
    dailyLimit: int,
    remainingRequests: int,
    successfulRequests: int,
    failedRequests: int,
    lastSyncDate: int,
    totalPlantsInDb: nat)

  /** What `fetchAndStorePlants` returns for a run that did work. */
  datatype RunStats = RunStats(
    processed: int,
    created: int,
    updated: int,
    errors: int,
    startingId: int,
    endingId: int,
    totalRequestsToday: int,
    actualLimitUsed: int)

  /** `fetchAndStorePlants` returns the `getStats()` snapshot when the quota is used up. */
  datatype SyncOutcome = QuotaReached(snapshot: Snapshot) | Synced(stats: RunStats)

  /** The service with its in-memory cursor row, the tracking table and the plants table. */
  class PlantService {
    const dailyLimit: int
    const tracker: TrackingTable
    const plants: PlantTable
    var tracking: SyncRow

    ghost predicate Valid()
      reads this, tracker, plants
    {
      tracker.Valid() && plants.Valid() && HasCursorRow()
    }

    /** Today's cursor row is in the tracking table. */
    ghost predicate HasCursorRow()
      reads this, tracker
    {
      FindRow(tracker.rows, tracking.apiName, tracking.lastSyncDate).Some?
    }

    /** Position of today's row in the tracking table. */
    ghost function Index(): (i: nat)
      reads this, tracker
      requires HasCursorRow()
      ensures i < |tracker.rows|
    {
      FindRow(tracker.rows, tracking.apiName, tracking.lastSyncDate).value
    }

    /** The state a run starts from. */
    ghost function Start(): RunState
      reads this, tracker, plants
      requires Valid()
    {
      RunState(tracking, tracker.rows[Index()], plants.Value(), NoCounts, false)
    }

    /** `new PlantService()` on day `today`: load or create today's cursor (daily limit configured, 100 by default). */
    constructor (dailyLimit: int, tracker: TrackingTable, plants: PlantTable, today: int)
      requires tracker.Valid() && plants.Valid()
      modifies tracker
      ensures Valid()
      ensures this.dailyLimit == dailyLimit && this.tracker == tracker && this.plants == plants
      ensures var r := FirstOrCreate(old(tracker.rows), "perenual", today);
              tracking == r.row && tracker.rows == r.rows
    {
      var row := tracker.GetTodaysTracking("perenual", today);
      this.dailyLimit := dailyLimit;
      this.tracker := tracker;
      this.plants := plants;
      tracking := row;
    }

    /** `getStats()`: a read-only projection of the cursor and the table size. */
    function GetStats(): (s: Snapshot)
      reads this, plants
      ensures s.remainingRequests >= 0
      ensures s.remainingRequests == 0 <==> tracking.dailyRequestCount >= dailyLimit
      ensures tracking.dailyRequestCount <= dailyLimit ==> s.dailyRequestCount + s.remainingRequests == dailyLimit
      ensures s.lastProcessedId == tracking.lastProcessedId && s.dailyRequestCount == tracking.dailyRequestCount
      ensures s.successfulRequests == tracking.successfulRequests && s.failedRequests == tracking.failedRequests
      ensures s.dailyLimit == dailyLimit && s.lastSyncDate == tracking.lastSyncDate
      ensures s.totalPlantsInDb == |plants.rows|
    {
      Snapshot(tracking.lastProcessedId, tracking.dailyRequestCount, dailyLimit,
               Max(0, dailyLimit - tracking.dailyRequestCount),
               tracking.successfulRequests, tracking.failedRequests, tracking.lastSyncDate, |plants.rows|)
    }

    /** `storePlant`: upsert the payload's columns by its `id`. */
    method StorePlant(data: Payload) returns (created: bool)
      requires plants.Valid() && data.id.Some?
      modifies plants
      ensures plants.Valid()
      ensures UpsertResult(plants.Value(), created) == UpsertByApiId(old(plants.Value()), PlantDataOf(data))
    {
      created := plants.UpdateOrCreate(PlantDataOf(data));
    }

    /** `fetchAndStorePlant($id)`: classify the response and store what is storable. */
    method FetchAndStorePlant(id: int, fetch: int -> Response) returns (r: FetchResult)
      requires plants.Valid()
      modifies plants
      ensures plants.Valid()
      ensures Fetched(r, plants.Value()) == FetchStore(old(plants.Value()), old(fetch(id)))
    {
      var response := fetch(id);
      match response {
        case Thrown =>
          r := Raised;
        case Reply(status, json) =>
          if !Successful(status) {
            // 404 and every other status alike: no record
            r := NoRecord;
          } else if json.None? || json.value.id.None? {
            r := NoRecord;
          } else {
            var created := StorePlant(json.value);
            r := Stored(created);
          }
      }
    }

    /**
     * `shouldStopOnConsecutiveErrors($currentId)`: scan the ids
     * `max(1, currentId - 10) .. currentId - 1`, counting missing ones and
     * resetting the count at every stored one; stop when the count reaches 10.
     */
    method ShouldStopOnConsecutiveErrors(currentId: int) returns (stop: bool)
      ensures stop <==> StopRule(plants.rows, currentId)
    {
      var consecutiveErrors := 0;
      var checkRange := CheckRange;
      var i := Max(1, currentId - checkRange);
      ghost var lo := i;
      while i < currentId
        invariant lo <= i <= Max(lo, currentId)
        invariant 0 <= consecutiveErrors <= i - lo
        invariant forall k :: i - consecutiveErrors <= k < i ==> !HasApiId(plants.rows, k)
        invariant consecutiveErrors < i - lo ==> HasApiId(plants.rows, i - consecutiveErrors - 1)
      {
        if !HasApiId(plants.rows, i) {
          consecutiveErrors := consecutiveErrors + 1;
        } else {
          consecutiveErrors := 0;
        }
        i := i + 1;
      }
      stop := consecutiveErrors >= checkRange;
      if currentId < lo {
        assert !stop && currentId <= CheckRange;
      } else {
        assert i == currentId;
        if stop {
          assert consecutiveErrors == CheckRange;
        }
      }
    }

    /**
     * `fetchAndStorePlants($maxRequests)`. With the quota used up it
     * returns the `getStats()` snapshot and changes nothing; otherwise it
     * runs `min(maxRequests ?? dailyLimit, dailyLimit - used)` iterations
     * of `Step`, or fewer when the stop rule fires.
     */
    method FetchAndStorePlants(maxRequests: Option<int>, fetch: int -> Response) returns (out: SyncOutcome)
      requires Valid()
      modifies this, tracker, plants
      ensures Valid()
      ensures old(dailyLimit - tracking.dailyRequestCount) <= 0 ==>
                && out == QuotaReached(old(GetStats()))
                && tracking == old(tracking) && tracker.rows == old(tracker.rows) && plants.Value() == old(plants.Value())
      ensures old(dailyLimit - tracking.dailyRequestCount) > 0 ==>
                var limit := Min(maxRequests.GetOr(dailyLimit), old(dailyLimit - tracking.dailyRequestCount));
                var s := Iterate(old(Start()), fetch, Max(0, limit));
                && tracking == s.tracking
                && tracker.rows == old(tracker.rows)[old(Index()) := s.saved]
                && plants.Value() == s.table
                && out == Synced(RunStats(s.stats.processed, s.stats.created, s.stats.updated, s.stats.errors,
                                          old(tracking.lastProcessedId), s.tracking.lastProcessedId,
                                          s.tracking.dailyRequestCount, limit))
    {
      var requestLimit := maxRequests.GetOr(dailyLimit);
      var remainingDailyRequests := dailyLimit - tracking.dailyRequestCount;
      if remainingDailyRequests <= 0 {
        return QuotaReached(GetStats());
      }
      var actualLimit := Min(requestLimit, remainingDailyRequests);
      ghost var s0 := Start();
      ghost var n: nat := Max(0, actualLimit);
      var startingId := tracking.lastProcessedId;
      var stats, stopped, k := RunIterations(actualLimit, fetch, s0);
      RunEnds(s0, fetch, k, n, RunState(tracking, tracker.rows[Index()], plants.Value(), stats, stopped));
      out := Synced(RunStats(stats.processed, stats.created, stats.updated, stats.errors, startingId,
                             tracking.lastProcessedId, tracking.dailyRequestCount, actualLimit));
    }

    /**
     * The loop of `fetchAndStorePlants`: up to `actualLimit` iterations,
     * ending early when the stop rule fires. After `k` iterations the state
     * is what `Iterate` gives for `k`; all of them ran unless the run stopped.
     */
    method RunIterations(actualLimit: int, fetch: int -> Response, ghost s0: RunState)
        returns (stats: Counters, stopped: bool, ghost k: nat)
      requires Valid() && s0 == Start()
      modifies this, tracker, plants
      ensures Valid() && Index() == old(Index())
      ensures tracker.rows == old(tracker.rows)[old(Index()) := tracker.rows[Index()]]
      ensures RunState(tracking, tracker.rows[Index()], plants.Value(), stats, stopped) == Iterate(s0, fetch, k)
      ensures k <= Max(0, actualLimit) && (!stopped ==> k == Max(0, actualLimit))
    {
      ghost var idx := Index();
      ghost var rows0 := tracker.rows;
      stats := NoCounts;
      stopped := false;
      var i := 0;
      k := 0;
      while i < actualLimit
        invariant 0 <= i <= Max(0, actualLimit) && k == i
        invariant Valid() && Index() == idx
        invariant tracker.rows == rows0[idx := tracker.rows[idx]]
        invariant RunState(tracking, tracker.rows[idx], plants.Value(), stats, false) == Iterate(s0, fetch, i)
      {
        var currentId := tracking.lastProcessedId + 1;
        stats, stopped := Attempt(currentId, stats, fetch, s0, i);
        k := i + 1;
        if stopped {
          return;
        }
        i := i + 1;
      }
    }

    /**
     * The body of the loop of `fetchAndStorePlants` for candidate
     * `currentId`: fetch, then account for the result. It follows `AfterFetch`.
     */
    method Attempt(currentId: int, stats: Counters, fetch: int -> Response, ghost s0: RunState, ghost i: nat)
        returns (stats': Counters, stop: bool)
      requires Valid() && currentId == tracking.lastProcessedId + 1
      requires RunState(tracking, tracker.rows[Index()], plants.Value(), stats, false) == Iterate(s0, fetch, i)
      modifies this, tracker, plants
      ensures Valid() && Index() == old(Index())
      ensures tracker.rows == old(tracker.rows)[old(Index()) := tracker.rows[Index()]]
      ensures RunState(tracking, tracker.rows[Index()], plants.Value(), stats', stop) == Iterate(s0, fetch, i + 1)
    {
      ghost var before := Iterate(s0, fetch, i);
      IterateNext(s0, fetch, i, before, fetch(currentId));
      var result := FetchAndStorePlant(currentId, fetch);
      stats', stop := Account(currentId, result, stats, before);
    }

    /**
     * Accounting for the result of the fetch of `currentId`: a stored
     * record counts as processed and as created or updated, anything else
     * as an error; a null result may trip the stop rule, which ends the
     * run before the cursor advances; otherwise the cursor advances and is saved.
     */
    method Account(currentId: int, result: FetchResult, stats: Counters, ghost pre: RunState)
        returns (stats': Counters, stop: bool)
      requires Valid()
      requires pre == RunState(tracking, tracker.rows[Index()], pre.table, stats, false)
      modifies this, tracker
      ensures Valid() && Index() == old(Index())
      ensures tracker.rows == old(tracker.rows)[old(Index()) := tracker.rows[Index()]]
      ensures RunState(tracking, tracker.rows[Index()], plants.Value(), stats', stop)
              == AfterFetch(pre, currentId, Fetched(result, plants.Value()))
    {
      stats' := stats;
      stop := false;
      if result.Raised? {
        stats' := stats'.(errors := stats'.errors + 1);
        tracking := tracking.(failedRequests := tracking.failedRequests + 1);
        AdvanceAndSave(currentId);
        return;
      }
      if result.Stored? {
        stats' := stats'.(processed := stats'.processed + 1);
        if result.created {
          stats' := stats'.(created := stats'.created + 1);
        } else {
          stats' := stats'.(updated := stats'.updated + 1);
        }
        tracking := tracking.(successfulRequests := tracking.successfulRequests + 1);
      } else {
        stats' := stats'.(errors := stats'.errors + 1);
        tracking := tracking.(failedRequests := tracking.failedRequests + 1);
        stop := ShouldStopOnConsecutiveErrors(currentId);
        if stop {
          return;
        }
      }
      AdvanceAndSave(currentId);
    }

    /** The end of an iteration that goes on: move the watermark to `currentId`, count the request, save. */
    method AdvanceAndSave(currentId: int)
      requires Valid()
      modifies this, tracker
      ensures Valid() && Index() == old(Index())
      ensures tracking == Advance(old(tracking), currentId)
      ensures tracker.rows == old(tracker.rows)[old(Index()) := tracking]
    {
      tracking := tracking.(lastProcessedId := currentId, dailyRequestCount := tracking.dailyRequestCount + 1,
                            totalRequestsMade := tracking.totalRequestsMade + 1);
      tracker.Save(tracking);
    }

    /** `resetProgress()`: zero the watermark and today's counters, and save. */
    method ResetProgress()
      requires Valid()
      modifies this, tracker
      ensures Valid()
      ensures tracking == old(tracking).(lastProcessedId := 0, dailyRequestCount := 0, successfulRequests := 0, failedRequests := 0)
      ensures tracker.rows == old(tracker.rows)[old(Index()) := tracking]
      ensures GetStats() == old(GetStats()).(lastProcessedId := 0, dailyRequestCount := 0,
                                             remainingRequests := Max(0, dailyLimit),
                                             successfulRequests := 0, failedRequests := 0)
    {
      tracking := tracking.(lastProcessedId := 0, dailyRequestCount := 0, successfulRequests := 0, failedRequests := 0);
      tracker.Save(tracking);
    }
  }
}
