/**
  Construction of a HTTP measurement store: which options
  `NewMeasurement` hands to the store. `defaultValidator` stands for
  `DefaultResultValidator`, whose checks are not part of this model.
 */
module HttpMeasurement {
  import opened Wrappers
  import opened ConfigTypes
  import opened Exporter

  /** The RTT histogram of a HTTP store (`newRttHistogram`). */
  function RttHistogramFor(id: string, ipVersion: string, cfg: Config): Histogram {
    RttHistogram("http", id, ipVersion, cfg.histogramBuckets.http, [])
  }

  /**
    The options, grown by conditional appends:
    exactly one RTT histogram, over the HTTP buckets, for this measurement id
    and IP version;
    the default validator exactly when invalid results are filtered; the
    configured maximum result age only when it is positive, so that an age
    of zero or less leaves the age filter off.
   */
  method Options(id: string, ipVersion: string, cfg: Config, defaultValidator: Validator) returns (opts: seq<MeasurementOpt>)
    ensures ApplyOpts(Initial, opts).histograms == [RttHistogramFor(id, ipVersion, cfg)]
    ensures ApplyOpts(Initial, opts).validator == (if cfg.filterInvalidResults then Some(defaultValidator) else None)
    ensures ApplyOpts(Initial, opts).maxResultAge == (if cfg.maxResultAge > 0 then cfg.maxResultAge else 0)
  {
    opts := [WithHistograms([RttHistogramFor(id, ipVersion, cfg)])];
    ApplyOptsSnoc(Initial, [], opts[0]);
    if cfg.filterInvalidResults {
      ApplyOptsSnoc(Initial, opts, WithValidator(defaultValidator));
      opts := opts + [WithValidator(defaultValidator)];
    }
    if cfg.maxResultAge > 0 {
      ApplyOptsSnoc(Initial, opts, WithMaxResultAge(cfg.maxResultAge));
      opts := opts + [WithMaxResultAge(cfg.maxResultAge)];
    }
  }

  /** `NewMeasurement`: an empty store for the HTTP exporter of this measurement id. */
  method NewMeasurement(id: string, ipVersion: string, cfg: Config, defaultValidator: Validator) returns (m: Measurement)
    ensures fresh(m) && m.Valid() && m.latest == map[] && m.probes == map[]
    ensures m.exporter == HttpExporter(id)
    ensures m.Options().histograms == [RttHistogramFor(id, ipVersion, cfg)]
    ensures m.Options().validator == (if cfg.filterInvalidResults then Some(defaultValidator) else None)
    ensures m.Options().maxResultAge == (if cfg.maxResultAge > 0 then cfg.maxResultAge else 0)
  {
    var opts := Options(id, ipVersion, cfg, defaultValidator);
    m := new Measurement(HttpExporter(id), opts);
  }
}
