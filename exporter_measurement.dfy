/**
  The per-measurement result store (`exporter.Measurement`): the latest
  result and the latest probe per probe id, the histograms fed by every
  accepted result, an optional validator and an optional maximum result age.

  The per-protocol exporter and the histograms' Prometheus side are outside
  the core; `Collect` and `Describe` therefore return the sequence of calls
  they make on them, in order, instead of writing into a channel.
 */
module Exporter {
  import opened Wrappers
  import opened Results
  import opened Sets
  import opened GoTime

  /**
    A histogram accumulator: the family it belongs to, its buckets and the
    results fed to it so far through `ProcessResult`.
   */
  datatype Histogram = RttHistogram(
    subsystem: string,
    id: string,
    ipVersion: string,
    buckets: seq<real>,
    observed: seq<Result>)
  {
    /** `Histogram.ProcessResult`: records one more result. */
    function ProcessResult(m: Result): (h: Histogram)
      ensures |h.observed| == |observed| + 1
      ensures h.observed[..|observed|] == observed && h.observed[|observed|] == m
      ensures h.(observed := observed) == this
    {
      this.(observed := observed + [m])
    }
  }

  /** `ResultValidator.IsValid`: whether a result agrees with its probe. */
  type Validator = (Result, Probe) -> bool

  /** The closed set of per-protocol exporters, each naming its measurement. */
  datatype ExporterKind =
    | DnsExporter(id: string)
    | HttpExporter(id: string)
    | PingExporter(id: string)
    | SslCertExporter(id: string)
    | NtpExporter(id: string)

  /** The functional options accepted by `NewMeasurement`. */
  datatype MeasurementOpt =
    | WithHistograms(hs: seq<Histogram>)
    | WithValidator(v: Validator)
    | WithMaxResultAge(age: int)

  /** The part of a store that the options set. */
  datatype Settings = Settings(histograms: seq<Histogram>, validator: Option<Validator>, maxResultAge: int)

  /** A new store: no histograms, no validator, no age limit. */
  const Initial: Settings := Settings([], None, 0)

  /** The effect of one option on a store being built. */
  function ApplyOpt(s: Settings, o: MeasurementOpt): Settings {
    match o
    case WithHistograms(hs) => s.(histograms := s.histograms + hs)
    case WithValidator(v) => s.(validator := Some(v))
    case WithMaxResultAge(age) => s.(maxResultAge := age)
  }

  /** The options applied one after another, first to last. */
  function ApplyOpts(s: Settings, opts: seq<MeasurementOpt>): Settings {
    if opts == [] then s else ApplyOpt(ApplyOpts(s, opts[..|opts| - 1]), opts[|opts| - 1])
  }

  /** One more option acts on the store the earlier options built. */
  lemma ApplyOptsSnoc(s: Settings, opts: seq<MeasurementOpt>, o: MeasurementOpt)
    ensures ApplyOpts(s, opts + [o]) == ApplyOpt(ApplyOpts(s, opts), o)
  {
    assert (opts + [o])[..|opts|] == opts;
  }

  /** Every histogram the options name, in option order. */
  function OptHistograms(opts: seq<MeasurementOpt>): seq<Histogram> {
    if opts == [] then []
    else (if opts[0].WithHistograms? then opts[0].hs else []) + OptHistograms(opts[1..])
  }

  lemma {:induction false} OptHistogramsSnoc(opts: seq<MeasurementOpt>, o: MeasurementOpt)
    ensures OptHistograms(opts + [o]) == OptHistograms(opts) + (if o.WithHistograms? then o.hs else [])
  {
    if opts != [] {
      assert (opts + [o])[1..] == opts[1..] + [o];
      OptHistogramsSnoc(opts[1..], o);
    } else {
      assert [o][1..] == [];
    }
  }

  /** `WithHistograms` appends: the store keeps every histogram of every option, in order. */
  lemma {:induction false} ApplyOptsHistograms(s: Settings, opts: seq<MeasurementOpt>)
    ensures ApplyOpts(s, opts).histograms == s.histograms + OptHistograms(opts)
  {
    if opts != [] {
      var init, last := opts[..|opts| - 1], opts[|opts| - 1];
      assert opts == init + [last];
      ApplyOptsHistograms(s, init);
      OptHistogramsSnoc(init, last);
    }
  }

  /**
    `WithValidator` overwrites: the last one wins, and without any the
    validator stays what it was.
   */
  lemma {:induction false} ApplyOptsValidator(s: Settings, opts: seq<MeasurementOpt>)
    ensures (forall i :: 0 <= i < |opts| ==> !opts[i].WithValidator?) ==>
      ApplyOpts(s, opts).validator == s.validator
    ensures forall i :: 0 <= i < |opts| && opts[i].WithValidator? ==>
      ((forall j :: i < j < |opts| ==> !opts[j].WithValidator?) ==>
        ApplyOpts(s, opts).validator == Some(opts[i].v))
  {
    if opts != [] {
      var init := opts[..|opts| - 1];
      ApplyOptsValidator(s, init);
      forall i | 0 <= i < |init| ensures init[i] == opts[i] { }
    }
  }

  /**
    `WithMaxResultAge` overwrites: the last one wins, and without any the
    age stays what it was.
   */
  lemma {:induction false} ApplyOptsMaxResultAge(s: Settings, opts: seq<MeasurementOpt>)
    ensures (forall i :: 0 <= i < |opts| ==> !opts[i].WithMaxResultAge?) ==>
      ApplyOpts(s, opts).maxResultAge == s.maxResultAge
    ensures forall i :: 0 <= i < |opts| && opts[i].WithMaxResultAge? ==>
      ((forall j :: i < j < |opts| ==> !opts[j].WithMaxResultAge?) ==>
        ApplyOpts(s, opts).maxResultAge == opts[i].age)
  {
    if opts != [] {
      var init := opts[..|opts| - 1];
      ApplyOptsMaxResultAge(s, init);
      forall i | 0 <= i < |init| ensures init[i] == opts[i] { }
    }
  }

  /** One call that `Collect` makes, in the order it makes them. */
  datatype Emission =
    | Exported(result: Result, probe: Probe)   // `exporter.Export(result, probe, ch)`
    | HistogramCollected(index: nat)           // `histograms[index].Hist().Collect(ch)`

  /** One call that `Describe` makes, in the order it makes them. */
  datatype Description =
    | ExporterDescribed(exporter: ExporterKind) // `exporter.Describe(ch)`
    | HistogramDescribed(index: nat)            // `histograms[index].Hist().Describe(ch)`

  /** The oldest timestamp a result may have and still be exported. */
  function Cutoff(now: int, maxResultAge: int): int {
    now - maxResultAge / Second
  }

  /** Whether `Collect` exports a result at time `now` (seconds). */
  predicate Kept(r: Result, maxResultAge: int, now: int) {
    maxResultAge <= 0 || r.timestamp >= Cutoff(now, maxResultAge)
  }

  /** The probe ids whose stored result `Collect` exports. */
  function KeptIds(latest: map<int, Result>, maxResultAge: int, now: int): set<int> {
    set k | k in latest && Kept(latest[k], maxResultAge, now)
  }

  /** Without an age limit every stored probe id is exported. */
  lemma KeptIdsWithoutAgeLimit(latest: map<int, Result>, maxResultAge: int, now: int)
    requires maxResultAge == 0
    ensures KeptIds(latest, maxResultAge, now) == latest.Keys
  {
    assert forall k :: k in latest ==> Kept(latest[k], maxResultAge, now);
  }

  /**
    With an age limit, a result is exported exactly when its timestamp is
    at least `now` minus the whole seconds of the limit; a timestamp equal
    to that cut-off is kept.
   */
  lemma KeptIdsWithAgeLimit(latest: map<int, Result>, maxResultAge: int, now: int, k: int)
    requires maxResultAge > 0 && k in latest
    ensures k in KeptIds(latest, maxResultAge, now) <==>
      latest[k].timestamp >= now - maxResultAge / Second
  {
  }

  /** Thirty seconds of age limit: 40 seconds old is dropped, 10 seconds old is kept. */
  lemma KeptIdsThirtySeconds(now: int, a: Result, b: Result)
    requires a.timestamp == now - 40 && b.timestamp == now - 10
    ensures !Kept(a, 30 * Second, now) && Kept(b, 30 * Second, now)
  {
  }

  /** The probe ids of a sequence of exports. */
  function ExportedIds(e: seq<Emission>): set<int>
    requires forall i :: 0 <= i < |e| ==> e[i].Exported?
  {
    set i | 0 <= i < |e| :: e[i].result.prbId
  }

  /** The probe ids of a sequence of results. */
  function ResultIds(rs: seq<Result>): set<int> {
    set i | 0 <= i < |rs| :: rs[i].prbId
  }

  lemma ResultIdsSnoc(rs: seq<Result>, r: Result)
    ensures ResultIds(rs + [r]) == ResultIds(rs) + {r.prbId}
  {
    var rs' := rs + [r];
    forall x | x in ResultIds(rs') ensures x in ResultIds(rs) + {r.prbId} {
      var i :| 0 <= i < |rs'| && rs'[i].prbId == x;
      if i < |rs| { assert rs[i] == rs'[i]; }
    }
    forall x | x in ResultIds(rs) ensures x in ResultIds(rs') {
      var i :| 0 <= i < |rs| && rs[i].prbId == x;
      assert rs'[i] == rs[i];
    }
    assert rs'[|rs|] == r;
  }

  /** The probe ids among the first `n` results that pass the age limit. */
  function KeptPrefixIds(rs: seq<Result>, n: nat, maxResultAge: int, now: int): set<int>
    requires n <= |rs|
  {
    if n == 0 then {}
    else
      var last := if Kept(rs[n - 1], maxResultAge, now) then {rs[n - 1].prbId} else {};
      KeptPrefixIds(rs, n - 1, maxResultAge, now) + last
  }

  lemma {:induction false} KeptPrefixIdsMember(rs: seq<Result>, n: nat, maxResultAge: int, now: int, x: int)
    requires n <= |rs|
    ensures x in KeptPrefixIds(rs, n, maxResultAge, now) <==>
      exists j :: 0 <= j < n && Kept(rs[j], maxResultAge, now) && rs[j].prbId == x
  {
    if n > 0 {
      KeptPrefixIdsMember(rs, n - 1, maxResultAge, now, x);
    }
  }

  lemma ExportedIdsSnoc(e: seq<Emission>, x: Emission)
    requires forall i :: 0 <= i < |e| ==> e[i].Exported?
    requires x.Exported?
    ensures ExportedIds(e + [x]) == ExportedIds(e) + {x.result.prbId}
  {
    var e' := e + [x];
    forall y | y in ExportedIds(e') ensures y in ExportedIds(e) + {x.result.prbId} {
      var i :| 0 <= i < |e'| && e'[i].result.prbId == y;
      if i < |e| { assert e[i] == e'[i]; }
    }
    forall y | y in ExportedIds(e) ensures y in ExportedIds(e') {
      var i :| 0 <= i < |e| && e[i].result.prbId == y;
      assert e'[i] == e[i];
    }
    assert e'[|e|] == x;
  }

  /**
    The export loop of `Collect` over a snapshot: results that fail the age
    limit are skipped, every other one is exported with the probe of its
    probe id, in snapshot order.
   */
  method ExportFresh(results: seq<Result>, snapshot: map<int, Probe>, maxResultAge: int, now: int)
    returns (out: seq<Emission>)
    requires forall i :: 0 <= i < |results| ==> results[i].prbId in snapshot
    requires forall i, j :: 0 <= i < j < |results| ==> results[i].prbId != results[j].prbId
    ensures forall x :: 0 <= x < |out| ==>
      && out[x].Exported?
      && out[x].result in results
      && out[x].probe == snapshot[out[x].result.prbId]
      && Kept(out[x].result, maxResultAge, now)
    ensures forall x, y :: 0 <= x < y < |out| ==> out[x].result.prbId != out[y].result.prbId
    ensures ExportedIds(out) == KeptPrefixIds(results, |results|, maxResultAge, now)
  {
    out := [];
    for i := 0 to |results|
      invariant forall x :: 0 <= x < |out| ==>
        && out[x].Exported?
        && out[x].result in results[..i]
        && out[x].probe == snapshot[out[x].result.prbId]
        && Kept(out[x].result, maxResultAge, now)
      invariant forall x, y :: 0 <= x < y < |out| ==> out[x].result.prbId != out[y].result.prbId
      invariant ExportedIds(out) == KeptPrefixIds(results, i, maxResultAge, now)
    {
      var v := results[i];
      assert results[..i + 1] == results[..i] + [v];
      if maxResultAge > 0 {
        var cutoff := now - maxResultAge / Second;
        if v.timestamp < cutoff {
          continue;
        }
      }
      KeptPrefixIdsMember(results, i, maxResultAge, now, v.prbId);
      ExportedIdsSnoc(out, Exported(v, snapshot[v.prbId]));
      out := out + [Exported(v, snapshot[v.prbId])];
    }
    assert results[..|results|] == results;
  }

  /** The histogram flush at the end of `Collect`: one call per histogram, in order. */
  function HistogramFlush(n: nat): (f: seq<Emission>)
    ensures |f| == n && forall i :: 0 <= i < n ==> f[i] == HistogramCollected(i)
  {
    if n == 0 then [] else HistogramFlush(n - 1) + [HistogramCollected(n - 1)]
  }

  /** The indices 0 .. n - 1 in order. */
  function Indices(n: nat): (r: seq<nat>)
    ensures |r| == n && forall i :: 0 <= i < n ==> r[i] == i
  {
    if n == 0 then [] else Indices(n - 1) + [n - 1]
  }

  /** The part of a store that `Add` changes: results and probes by probe id, and the histograms. */
  datatype Store = Store(latest: map<int, Result>, probes: map<int, Probe>, histograms: seq<Histogram>)

  /** A result and a probe are kept for exactly the same probe ids, each result under its own probe id. */
  ghost predicate Consistent(st: Store) {
    && st.latest.Keys == st.probes.Keys
    && forall k :: k in st.latest ==> st.latest[k].prbId == k
  }

  /** Whether a store with validator `validator` refuses `(m, probe)`. */
  predicate Refuses(validator: Option<Validator>, m: Result, probe: Probe) {
    validator.Some? && !validator.value(m, probe)
  }

  /**
    A store after it accepts `m` for `probe`: the result and the probe of
    that probe id are replaced, every other id keeps its entries, and every
    histogram has processed `m`.
   */
  function Accepted(st: Store, m: Result, probe: Probe): (r: Store)
    ensures r.latest.Keys == st.latest.Keys + {m.prbId} && r.latest[m.prbId] == m
    ensures forall k :: k in st.latest && k != m.prbId ==> r.latest[k] == st.latest[k]
    ensures r.probes.Keys == st.probes.Keys + {m.prbId} && r.probes[m.prbId] == probe
    ensures forall k :: k in st.probes && k != m.prbId ==> r.probes[k] == st.probes[k]
    ensures |r.histograms| == |st.histograms|
    ensures forall i :: 0 <= i < |st.histograms| ==> r.histograms[i] == st.histograms[i].ProcessResult(m)
  {
    Store(st.latest[m.prbId := m], st.probes[m.prbId := probe],
          seq(|st.histograms|, i requires 0 <= i < |st.histograms| => st.histograms[i].ProcessResult(m)))
  }

  /** The store `Add` leaves: unchanged when the validator refuses the result, else the result accepted. */
  function AddedTo(st: Store, validator: Option<Validator>, m: Result, probe: Probe): Store {
    if Refuses(validator, m, probe) then st else Accepted(st, m, probe)
  }

  /** Adding keeps a store consistent. */
  lemma AddedToConsistent(st: Store, validator: Option<Validator>, m: Result, probe: Probe)
    requires Consistent(st)
    ensures Consistent(AddedTo(st, validator, m, probe))
  {
  }

  /**
    A new store over histograms `hs` that receives its first result holds
    exactly that result and its probe, its histograms having processed it;
    refused, it stays empty.
   */
  lemma AddedToEmpty(hs: seq<Histogram>, validator: Option<Validator>, m: Result, probe: Probe)
    ensures Refuses(validator, m, probe) ==> AddedTo(Store(map[], map[], hs), validator, m, probe) == Store(map[], map[], hs)
    ensures !Refuses(validator, m, probe) ==>
      && AddedTo(Store(map[], map[], hs), validator, m, probe).latest == map[m.prbId := m]
      && AddedTo(Store(map[], map[], hs), validator, m, probe).probes == map[m.prbId := probe]
      && |AddedTo(Store(map[], map[], hs), validator, m, probe).histograms| == |hs|
  {
  }

  /** Adding the same result twice leaves the same results and probes as adding it once. */
  lemma AddedToTwiceMaps(st: Store, validator: Option<Validator>, m: Result, probe: Probe)
    ensures AddedTo(AddedTo(st, validator, m, probe), validator, m, probe).latest == AddedTo(st, validator, m, probe).latest
    ensures AddedTo(AddedTo(st, validator, m, probe), validator, m, probe).probes == AddedTo(st, validator, m, probe).probes
  {
  }

  class Measurement {
    var latest: map<int, Result>
    var probes: map<int, Probe>
    var histograms: seq<Histogram>
    const exporter: ExporterKind
    var validator: Option<Validator>
    var maxResultAge: int

    /**
      The store's invariant: a result and a probe are kept for exactly the
      same probe ids, and each result is filed under its own probe id.
     */
    ghost predicate Valid()
      reads this
    {
      Consistent(Contents())
    }

    function Options(): Settings
      reads this
    {
      Settings(histograms, validator, maxResultAge)
    }

    /** The results, probes and histograms the store holds. */
    function Contents(): Store
      reads this
    {
      Store(latest, probes, histograms)
    }

    /** Whether the validator is set and refuses `(m, probe)`. */
    predicate Rejects(m: Result, probe: Probe)
      reads this
    {
      Refuses(validator, m, probe)
    }

    /** `NewMeasurement`: an empty store, then the options in order. */
    constructor (exporter: ExporterKind, opts: seq<MeasurementOpt>)
      ensures Valid()
      ensures latest == map[] && probes == map[]
      ensures this.exporter == exporter
      ensures Options() == ApplyOpts(Initial, opts)
    {
      latest := map[];
      probes := map[];
      histograms := [];
      this.exporter := exporter;
      validator := None;
      maxResultAge := 0;
      new;
      for i := 0 to |opts|
        invariant latest == map[] && probes == map[]
        invariant Options() == ApplyOpts(Initial, opts[..i])
      {
        assert opts[..i + 1][..i] == opts[..i];
        match opts[i]
        case WithHistograms(hs) => histograms := histograms + hs;
        case WithValidator(v) => validator := Some(v);
        case WithMaxResultAge(age) => maxResultAge := age;
      }
      assert opts[..|opts|] == opts;
    }

    /**
      `Add`: a result the validator refuses changes nothing. Any other
      result replaces the entries of its probe id in both maps and is fed to
      every histogram exactly once; `fed` lists the histograms it was fed
      to, in the order of the calls.
     */
    method Add(m: Result, probe: Probe) returns (fed: seq<nat>)
      requires Valid()
      modifies this
      ensures Valid()
      ensures validator == old(validator) && maxResultAge == old(maxResultAge)
      ensures old(Rejects(m, probe)) ==>
        latest == old(latest) && probes == old(probes) && histograms == old(histograms) && fed == []
      ensures !old(Rejects(m, probe)) ==>
        && latest == old(latest)[m.prbId := m]
        && probes == old(probes)[m.prbId := probe]
        && |histograms| == |old(histograms)|
        && (forall i :: 0 <= i < |histograms| ==> histograms[i] == old(histograms[i]).ProcessResult(m))
        && fed == Indices(|histograms|)
      ensures Contents() == AddedTo(old(Contents()), old(validator), m, probe)
    {
      if validator.Some? && !validator.value(m, probe) {
        return [];
      }
      latest := latest[m.prbId := m];
      probes := probes[m.prbId := probe];
      var hs := histograms;
      fed := [];
      for i := 0 to |hs|
        invariant |hs| == |histograms|
        invariant forall j :: 0 <= j < i ==> hs[j] == histograms[j].ProcessResult(m)
        invariant forall j :: i <= j < |hs| ==> hs[j] == histograms[j]
        invariant fed == Indices(i)
      {
        hs := hs[i := hs[i].ProcessResult(m)];
        fed := fed + [i];
      }
      histograms := hs;
    }

    /** `Describe`: the exporter's descriptors first, then one per histogram in order. */
    method Describe() returns (out: seq<Description>)
      ensures |out| == |histograms| + 1
      ensures out[0] == ExporterDescribed(exporter)
      ensures forall i :: 0 <= i < |histograms| ==> out[i + 1] == HistogramDescribed(i)
    {
      out := [ExporterDescribed(exporter)];
      for i := 0 to |histograms|
        invariant |out| == i + 1 && out[0] == ExporterDescribed(exporter)
        invariant forall j :: 0 <= j < i ==> out[j + 1] == HistogramDescribed(j)
      {
        out := out + [HistogramDescribed(i)];
      }
    }

    /** The first half of Collect's snapshot: every stored result once, in map iteration order. */
    method SnapshotResults() returns (results: seq<Result>)
      requires Valid()
      ensures forall i :: 0 <= i < |results| ==>
        results[i].prbId in latest && results[i] == latest[results[i].prbId]
      ensures forall i, j :: 0 <= i < j < |results| ==> results[i].prbId != results[j].prbId
      ensures ResultIds(results) == latest.Keys
    {
      results := [];
      var remaining := latest.Keys;
      while remaining != {}
        invariant remaining <= latest.Keys
        invariant forall i :: 0 <= i < |results| ==>
          results[i].prbId in latest.Keys - remaining && results[i] == latest[results[i].prbId]
        invariant forall i, j :: 0 <= i < j < |results| ==> results[i].prbId != results[j].prbId
        invariant ResultIds(results) == latest.Keys - remaining
        decreases remaining
      {
        ghost var some := NonEmptyHasMember(remaining);
        var k :| k in remaining;
        ResultIdsSnoc(results, latest[k]);
        results := results + [latest[k]];
        remaining := remaining - {k};
      }
    }

    /** The second half of Collect's snapshot: a copy of the probe map. */
    method SnapshotProbes() returns (snapshot: map<int, Probe>)
      ensures snapshot == probes
    {
      snapshot := map[];
      var left := probes.Keys;
      while left != {}
        invariant left <= probes.Keys
        invariant snapshot.Keys == probes.Keys - left
        invariant forall k :: k in snapshot ==> snapshot[k] == probes[k]
        decreases left
      {
        ghost var some := NonEmptyHasMember(left);
        var k :| k in left;
        snapshot := snapshot[k := probes[k]];
        left := left - {k};
      }
      assert left == {};
      assert snapshot.Keys == probes.Keys;
      assert forall k :: k in probes ==> snapshot[k] == probes[k];
    }

    /**
      `Collect` at time `now` (Unix seconds): every stored result that passes
      the age limit is exported exactly once, paired with the probe stored
      under the same probe id; the histograms are flushed after all exports.
      The store is not changed. The order of the exports is that of Go's map
      iteration, which is unspecified.
     */
    method Collect(now: int) returns (out: seq<Emission>)
      requires Valid()
      ensures |out| >= |histograms|
      ensures forall i :: 0 <= i < |out| - |histograms| ==>
        && out[i].Exported?
        && out[i].result.prbId in latest
        && out[i].result == latest[out[i].result.prbId]
        && out[i].probe == probes[out[i].result.prbId]
        && Kept(out[i].result, maxResultAge, now)
      ensures forall i, j :: 0 <= i < j < |out| - |histograms| ==>
        out[i].result.prbId != out[j].result.prbId
      ensures ExportedIds(out[..|out| - |histograms|]) == KeptIds(latest, maxResultAge, now)
      ensures out[|out| - |histograms|..] == HistogramFlush(|histograms|)
    {
      var results := SnapshotResults();
      var snapshot := SnapshotProbes();
      var exports := ExportFresh(results, snapshot, maxResultAge, now);
      forall x ensures x in KeptIds(latest, maxResultAge, now) <==> x in ExportedIds(exports) {
        KeptPrefixIdsMember(results, |results|, maxResultAge, now, x);
        if x in latest {
          assert x in ResultIds(results);
        }
      }
      out := exports;
      for i := 0 to |histograms|
        invariant out == exports + HistogramFlush(i)
      {
        out := out + [HistogramCollected(i)];
      }
      assert out[..|out| - |histograms|] == exports;
    }
  }
}
