/**
  The exporter's configuration after loading (config/types.go). Durations
  are Go `time.Duration` values: whole nanoseconds. Histogram bucket bounds
  are only ever compared, so they are kept as reals.
 */
module ConfigTypes {

  /** Config options of one measurement. */
  datatype MeasurementConfig = MeasurementConfig(id: string)

  /** Bucket bounds of the RTT histograms, per protocol. */
  datatype HistogramBuckets = HistogramBuckets(
    dns: seq<real>,
    http: seq<real>,
    ping: seq<real>,
    traceroute: seq<real>)

  datatype Config = Config(
    listenAddress: string,
    telemetryPath: string,
    cacheTtl: int,
    cacheCleanup: int,
    timeout: int,
    workerCount: nat,
    streamingEnabled: bool,
    bufferSize: nat,
    profilingEnabled: bool,
    goMetricsEnabled: bool,
    processMetricsEnabled: bool,
    logLevel: string,
    tlsEnabled: bool,
    certFile: string,
    keyFile: string,
    healthMaxDataAge: int,
    histogramBuckets: HistogramBuckets,
    measurements: seq<MeasurementConfig>,
    filterInvalidResults: bool,
    maxResultAge: int)

  /**
    `Config.MeasurementIDs`: the ids of the configured measurements, one per
    measurement and in configuration order.
   */
  method MeasurementIDs(c: Config) returns (ids: seq<string>)
    ensures |ids| == |c.measurements|
    ensures forall i :: 0 <= i < |ids| ==> ids[i] == c.measurements[i].id
  {
    var a := new string[|c.measurements|];
    for i := 0 to |c.measurements|
      invariant forall j :: 0 <= j < i ==> a[j] == c.measurements[j].id
    {
      a[i] := c.measurements[i].id;
    }
    ids := a[..];
  }
}
