/**
  The bookkeeping of the streaming strategy: one measurement store per
  measurement id, created on the first result for that id, the time of the
  last result, and the health decision built on it.

  Everything the strategy does under its mutex is one atomic step here.
  The lookup of a probe (`probeForID`) and the choice of a store for a
  result type (`measurementForType`) are outside the core: their outcomes
  are parameters.
 */
module StreamStrategy {
  import opened Wrappers
  import opened Results
  import opened Strconv
  import opened GoTime
  import opened Exporter

  /**
    What `measurementForType` would build for a result: the exporter and the
    options of a new store. None stands for its error.
   */
  datatype Recipe = Recipe(exporter: ExporterKind, opts: seq<MeasurementOpt>)

  /**
    `IsHealthy`: at least one connected worker and, when a maximum data age
    is configured, a result received no longer ago than that age.
    `lastDataTime` is in Unix seconds (0 for never), `now` in Unix
    nanoseconds, the maximum age in nanoseconds (0 for no limit).
   */
  function IsHealthy(connectedWorkers: int, maxDataAge: int, lastDataTime: int, now: int): bool {
    if connectedWorkers <= 0 then false
    else if maxDataAge > 0 then
      if lastDataTime == 0 then false
      else
        var age := now - lastDataTime * Second;
        !(age > maxDataAge)
    else true
  }

  /** Without a connected worker the exporter is never healthy, whatever the data. */
  lemma UnhealthyWithoutWorkers(connectedWorkers: int, maxDataAge: int, lastDataTime: int, now: int)
    requires connectedWorkers <= 0
    ensures !IsHealthy(connectedWorkers, maxDataAge, lastDataTime, now)
  {
  }

  /** Without an age limit, health is exactly having a connected worker. */
  lemma HealthWithoutAgeLimit(connectedWorkers: int, maxDataAge: int, lastDataTime: int, now: int)
    requires maxDataAge <= 0
    ensures IsHealthy(connectedWorkers, maxDataAge, lastDataTime, now) <==> connectedWorkers > 0
  {
  }

  /** With an age limit, no data received yet means unhealthy. */
  lemma UnhealthyWithoutData(connectedWorkers: int, maxDataAge: int, now: int)
    requires maxDataAge > 0
    ensures !IsHealthy(connectedWorkers, maxDataAge, 0, now)
  {
  }

  /**
    With an age limit, a connected worker and data received, health is
    exactly the data being no older than the limit.
   */
  lemma HealthWithAgeLimit(connectedWorkers: int, maxDataAge: int, lastDataTime: int, now: int)
    requires connectedWorkers > 0 && maxDataAge > 0 && lastDataTime != 0
    ensures IsHealthy(connectedWorkers, maxDataAge, lastDataTime, now) <==>
      now - lastDataTime * Second <= maxDataAge
  {
  }

  /**
    The health checks of the strategy's tests: connected without a limit is
    healthy; with a ten-second limit, no data is unhealthy, data of this
    second is healthy, and data eleven seconds old is not.
   */
  lemma HealthExamples(nowSec: int, nanos: int)
    requires nowSec > 11 && 0 <= nanos < Second
    ensures IsHealthy(1, 0, 0, nowSec * Second + nanos)
    ensures !IsHealthy(1, 10 * Second, 0, nowSec * Second + nanos)
    ensures IsHealthy(1, 10 * Second, nowSec, nowSec * Second + nanos)
    ensures !IsHealthy(1, 10 * Second, nowSec - 11, nowSec * Second + nanos)
  {
  }

  /**
    The stores `MeasurementResults` returns for `ids`: the store of each id
    that has one, in the order of `ids`, repeated for repeated ids and
    skipping ids without a store.
   */
  function Found(stores: map<string, Measurement>, ids: seq<string>): seq<Measurement> {
    if ids == [] then []
    else
      var last := ids[|ids| - 1];
      Found(stores, ids[..|ids| - 1]) + (if last in stores then [stores[last]] else [])
  }

  /** The stores found for two lists of ids one after the other. */
  lemma {:induction false} FoundAppend(stores: map<string, Measurement>, a: seq<string>, b: seq<string>)
    ensures Found(stores, a + b) == Found(stores, a) + Found(stores, b)
    decreases |b|
  {
    if b == [] {
      assert a + b == a;
    } else {
      var b' := b[..|b| - 1];
      assert (a + b)[..|a + b| - 1] == a + b';
      assert (a + b)[|a + b| - 1] == b[|b| - 1];
      FoundAppend(stores, a, b');
    }
  }

  /** Ids without a store contribute nothing; every store found is the store of a given id. */
  lemma {:induction false} FoundMembers(stores: map<string, Measurement>, ids: seq<string>)
    ensures |Found(stores, ids)| <= |ids|
    ensures forall x :: x in Found(stores, ids) <==>
      exists i :: 0 <= i < |ids| && ids[i] in stores && stores[ids[i]] == x
    decreases |ids|
  {
    if ids != [] {
      var init := ids[..|ids| - 1];
      FoundMembers(stores, init);
      forall x
        ensures x in Found(stores, ids) <==>
          exists i :: 0 <= i < |ids| && ids[i] in stores && stores[ids[i]] == x
      {
        if x in Found(stores, init) {
          var i :| 0 <= i < |init| && init[i] in stores && stores[init[i]] == x;
          assert ids[i] == init[i];
        }
        if exists i :: 0 <= i < |ids| && ids[i] in stores && stores[ids[i]] == x {
          var i :| 0 <= i < |ids| && ids[i] in stores && stores[ids[i]] == x;
          if i < |init| {
            assert init[i] == ids[i];
          }
        }
      }
    }
  }

  /** Asking twice for an id with a store gives that store twice; an unknown id is skipped. */
  lemma FoundExample(stores: map<string, Measurement>, known: string, unknown: string)
    requires known in stores && unknown !in stores
    ensures Found(stores, [known, unknown, known]) == [stores[known], stores[known]]
  {
    assert [known, unknown, known][..2] == [known, unknown];
    assert [known, unknown][..1] == [known];
    assert [known][..0] == [];
    assert Found(stores, [known]) == [stores[known]];
    assert Found(stores, [known, unknown]) == [stores[known]];
  }

  class StreamingStrategy {
    /** The stores, keyed by the decimal measurement id. */
    var measurements: map<string, Measurement>
    /** Unix seconds of the last result received; 0 until the first. */
    var lastDataTime: int

    /** Every store is valid, and no two ids share a store. */
    ghost predicate Valid()
      reads this, measurements.Values
    {
      && (forall id :: id in measurements ==> measurements[id].Valid())
      && (forall a, b :: a in measurements && b in measurements && a != b ==> measurements[a] != measurements[b])
    }

    /** The store a result for measurement id `key` may change. */
    function Touched(key: string): set<object>
      reads this
    {
      if key in measurements then {measurements[key]} else {}
    }

    /** `IsHealthy` over the strategy's last data time. */
    predicate Healthy(connectedWorkers: int, maxDataAge: int, now: int)
      reads this
    {
      IsHealthy(connectedWorkers, maxDataAge, lastDataTime, now)
    }

    /** `NewStreamingStrategy` before its workers start: no stores, no data. */
    constructor ()
      ensures Valid()
      ensures measurements == map[] && lastDataTime == 0
    {
      measurements := map[];
      lastDataTime := 0;
    }

    /**
      `add`: files `m` in the store of its measurement id, creating that
      store first if there is none. An existing store is reused and the map
      stays as it was; a new store is added under the id and nothing else
      changes; if the store cannot be built, the result is dropped and the
      map stays as it was. The store that receives the result keeps it
      unless its validator refuses it.
     */
    method Add(m: Result, probe: Probe, recipe: Option<Recipe>)
      requires Valid()
      modifies this, Touched(Itoa(m.msmId))
      ensures Valid()
      ensures lastDataTime == old(lastDataTime)
      ensures forall id :: id in old(measurements) ==> id in measurements && measurements[id] == old(measurements)[id]
      ensures Itoa(m.msmId) in old(measurements) || recipe.None? ==> measurements == old(measurements)
      ensures Itoa(m.msmId) !in old(measurements) && recipe.Some? ==>
        && measurements.Keys == old(measurements).Keys + {Itoa(m.msmId)}
        && fresh(measurements[Itoa(m.msmId)])
        && measurements[Itoa(m.msmId)].exporter == recipe.value.exporter
        && measurements[Itoa(m.msmId)].validator == ApplyOpts(Initial, recipe.value.opts).validator
        && measurements[Itoa(m.msmId)].maxResultAge == ApplyOpts(Initial, recipe.value.opts).maxResultAge
        && |measurements[Itoa(m.msmId)].histograms| == |ApplyOpts(Initial, recipe.value.opts).histograms|
      ensures Itoa(m.msmId) in old(measurements) ==>
        && measurements[Itoa(m.msmId)].Contents() ==
             AddedTo(old(measurements[Itoa(m.msmId)].Contents()), old(measurements[Itoa(m.msmId)].validator), m, probe)
        && measurements[Itoa(m.msmId)].validator == old(measurements[Itoa(m.msmId)].validator)
        && measurements[Itoa(m.msmId)].maxResultAge == old(measurements[Itoa(m.msmId)].maxResultAge)
      ensures Itoa(m.msmId) !in old(measurements) && recipe.Some? ==>
        measurements[Itoa(m.msmId)].Contents() ==
          AddedTo(Store(map[], map[], ApplyOpts(Initial, recipe.value.opts).histograms),
                  ApplyOpts(Initial, recipe.value.opts).validator, m, probe)
      ensures Itoa(m.msmId) in measurements && !measurements[Itoa(m.msmId)].Rejects(m, probe) ==>
        && m.prbId in measurements[Itoa(m.msmId)].latest
        && measurements[Itoa(m.msmId)].latest[m.prbId] == m
        && measurements[Itoa(m.msmId)].probes[m.prbId] == probe
    {
      var msm := Itoa(m.msmId);
      var mes: Measurement;
      if msm in measurements {
        mes := measurements[msm];
      } else {
        if recipe.None? {
          return;
        }
        mes := new Measurement(recipe.value.exporter, recipe.value.opts);
        measurements := measurements[msm := mes];
      }
      var _ := mes.Add(m, probe);
    }

    /**
      `processMeasurementResult`: records the arrival time, then looks up
      the probe; a failed lookup drops the result after the time has
      advanced.
     */
    method ProcessMeasurementResult(r: Result, now: int, probe: Option<Probe>, recipe: Option<Recipe>)
      requires Valid()
      modifies this, Touched(Itoa(r.msmId))
      ensures Valid()
      ensures lastDataTime == now
      ensures now != 0 ==> forall workers, maxDataAge, t ::
        workers > 0 && t - now * Second <= maxDataAge ==> Healthy(workers, maxDataAge, t)
      ensures forall id :: id in old(measurements) ==> id in measurements && measurements[id] == old(measurements)[id]
      ensures probe.None? ==> measurements == old(measurements) && unchanged(old(Touched(Itoa(r.msmId))))
      ensures probe.Some? && (Itoa(r.msmId) in old(measurements) || recipe.None?) ==> measurements == old(measurements)
      ensures probe.Some? && Itoa(r.msmId) !in old(measurements) && recipe.Some? ==>
        && measurements.Keys == old(measurements).Keys + {Itoa(r.msmId)}
        && fresh(measurements[Itoa(r.msmId)])
        && measurements[Itoa(r.msmId)].exporter == recipe.value.exporter
        && measurements[Itoa(r.msmId)].validator == ApplyOpts(Initial, recipe.value.opts).validator
        && measurements[Itoa(r.msmId)].maxResultAge == ApplyOpts(Initial, recipe.value.opts).maxResultAge
        && |measurements[Itoa(r.msmId)].histograms| == |ApplyOpts(Initial, recipe.value.opts).histograms|
        && measurements[Itoa(r.msmId)].Contents() ==
             AddedTo(Store(map[], map[], ApplyOpts(Initial, recipe.value.opts).histograms),
                     ApplyOpts(Initial, recipe.value.opts).validator, r, probe.value)
      ensures probe.Some? && Itoa(r.msmId) in old(measurements) ==>
        && measurements[Itoa(r.msmId)].Contents() ==
             AddedTo(old(measurements[Itoa(r.msmId)].Contents()), old(measurements[Itoa(r.msmId)].validator), r, probe.value)
        && measurements[Itoa(r.msmId)].validator == old(measurements[Itoa(r.msmId)].validator)
        && measurements[Itoa(r.msmId)].maxResultAge == old(measurements[Itoa(r.msmId)].maxResultAge)
      ensures probe.Some? && Itoa(r.msmId) in measurements && !measurements[Itoa(r.msmId)].Rejects(r, probe.value) ==>
        && r.prbId in measurements[Itoa(r.msmId)].latest
        && measurements[Itoa(r.msmId)].latest[r.prbId] == r
        && measurements[Itoa(r.msmId)].probes[r.prbId] == probe.value
    {
      lastDataTime := now;
      if probe.None? {
        return;
      }
      Add(r, probe.value, recipe);
    }

    /** `MeasurementResults`: the stores of the given ids, in order; the error is always nil. */
    method MeasurementResults(ids: seq<string>) returns (result: seq<Measurement>, err: Option<string>)
      ensures result == Found(measurements, ids)
      ensures err == None
    {
      result := [];
      for i := 0 to |ids|
        invariant result == Found(measurements, ids[..i])
      {
        assert ids[..i + 1][..i] == ids[..i];
        if ids[i] in measurements {
          result := result + [measurements[ids[i]]];
        }
      }
      assert ids[..|ids|] == ids;
      err := None;
    }
  }
}
