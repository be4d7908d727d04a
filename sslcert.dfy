/**
  Construction of a SSL certificate measurement store: which options
  `NewMeasurement` hands to the store. `defaultValidator` stands for
  `DefaultResultValidator`, whose checks are not part of this model.
 */
module SslCertMeasurement {
  import opened Wrappers
  import opened ConfigTypes
  import opened Exporter

  /**
    The options, grown by conditional appends:
    no histogram;
    the default validator exactly when invalid results are filtered; the
    configured maximum result age only when it is positive, so that an age
    of zero or less leaves the age filter off.
   */
  method Options(id: string, cfg: Config, defaultValidator: Validator) returns (opts: seq<MeasurementOpt>)
    ensures ApplyOpts(Initial, opts).histograms == []
    ensures ApplyOpts(Initial, opts).validator == (if cfg.filterInvalidResults then Some(defaultValidator) else None)
    ensures ApplyOpts(Initial, opts).maxResultAge == (if cfg.maxResultAge > 0 then cfg.maxResultAge else 0)
  {
    opts := [];
    if cfg.filterInvalidResults {
      ApplyOptsSnoc(Initial, opts, WithValidator(defaultValidator));
      opts := opts + [WithValidator(defaultValidator)];
    }
    if cfg.maxResultAge > 0 {
      ApplyOptsSnoc(Initial, opts, WithMaxResultAge(cfg.maxResultAge));
      opts := opts + [WithMaxResultAge(cfg.maxResultAge)];
    }
  }

  /** `NewMeasurement`: an empty store for the SSL certificate exporter of this measurement id. */
  method NewMeasurement(id: string, cfg: Config, defaultValidator: Validator) returns (m: Measurement)
    ensures fresh(m) && m.Valid() && m.latest == map[] && m.probes == map[]
    ensures m.exporter == SslCertExporter(id)
    ensures m.Options().histograms == []
    ensures m.Options().validator == (if cfg.filterInvalidResults then Some(defaultValidator) else None)
    ensures m.Options().maxResultAge == (if cfg.maxResultAge > 0 then cfg.maxResultAge else 0)
  {
    var opts := Options(id, cfg, defaultValidator);
    m := new Measurement(SslCertExporter(id), opts);
  }
}
