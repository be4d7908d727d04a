# atlas_exporter ingestion core in Dafny

atlas_exporter is a Prometheus exporter for RIPE Atlas measurements. This
project models the core of how it ingests and serves results:

- **Configuration loading** (`ConfigLoader`, `ConfigTypes`). Four layers are merged:
  defaults, a YAML file, `ATLAS_` environment variables and command-line
  flags. Environment names are rewritten into dotted keys. Index-keyed
  measurement maps are normalised into arrays, and the result is validated.
- **The per-measurement result store** (`Exporter.Measurement`). It holds the
  latest result and probe per probe id. Its functional options are applied
  at construction. `Add` feeds the histograms. `Collect` exports the results
  inside the age limit and then flushes the histograms. `Describe` lists the
  descriptors.
- **The per-protocol constructors** (`DnsMeasurement`, `HttpMeasurement`,
  `PingMeasurement`, `SslCertMeasurement`, `NtpMeasurement`). Each chooses
  which options a new store gets. `DnsExporter` models the DNS exporter's
  metrics and NSID label.
- **The streaming strategy** (`StreamStrategy`). It keeps one store per
  measurement id, created lazily. It tracks the time of the last result and
  decides health from it.
- **The stream worker** (`StreamWorker`). It parses the measurement id and
  forwards stream events. It reconnects with a capped exponential backoff with
  jitter.

Supporting modules:

- `Strconv` models Go's `Atoi`/`Itoa`.
- `GoStrings` models the `strings` functions used, with ASCII case mapping.
- `GoTime` holds duration units in nanoseconds.
- `Results` holds the result and probe records.
- `Wrappers` holds Option and Outcome.
- `Sets` holds a witness lemma for iterating over map keys.

Conventions:

- Durations are Go `time.Duration` values in whole nanoseconds.
- Timestamps are Unix seconds, and 0 means "never".
- Every operation that runs under a mutex is one atomic step.

Foreign behaviour enters as parameters: I/O, randomness, the clock, the
client library and functions whose source is not part of this model.

- The probe lookup (`probeForID`) is an `Option<Probe>` parameter.
- The store factory (`measurementForType`) is an `Option<Recipe>` parameter.
- The random draw of `rand.Int63n(n)` is a `draw`, reduced to `draw % n`.
  Every value in `[0, n)` is such a draw.
- The YAML reading is a `readFile` function value.
- The mapstructure decoding is a `decode` function value.
- The subscribe call of the client library is a success flag.
- The stream is a sequence of events.
- The exporter's and the histograms' Prometheus calls are recorded as
  emitted values, in order: `Emission`, `Description` and `Metric`.

Details of the code that the model follows as written:

- **The delay after a dropped connection.** After a connection the counter
  is reset to 0 before listening and incremented when the stream ends, so
  the next delay uses k = 1 (`StreamWorker.AfterConnection`).
- **This source snapshot does not compile as a whole.** The model takes each
  file's logic as written:
  - `Config` is declared twice (config/config.go and config/types.go); the
    model follows config/types.go.
  - `IsHealthy` reads `cfg.HealthMaxDataAge` while the test sets
    `cfg.Health.MaxDataAge`. The maximum data age is one parameter
    (`maxDataAge`) in the model.
  - The worker literal sets a `strategy` field that the worker struct lacks, so
    the model's worker has no link to the strategy.
  - The DNS exporter literal sets `nsidEnabled` from `cfg.DNS.NSIDEnabled`;
    neither exists, so the NSID label is always computed.

## Model

| member | source | states |
|---|---|---|
| Strconv.Atoi | config/loader.go:135 | a parse succeeds only within the int64 range and only for a string that starts with a digit or a sign |
| Strconv.AtoiOfItoa | atlas/stream_strategy.go:111 | every int64 that Itoa prints parses back to itself, so the store key of a result names its measurement |
| Strconv.AtoiAcceptsNonCanonical | atlas/stream_strategy_worker.go:72 | "+7" and "007" parse to 7, while the store for measurement 7 is keyed "7": an id configured that way is subscribed, but its store is never found under the configured id |
| Strconv.AtoiRejectsNonDigit | atlas/stream_strategy_worker.go:72-75 | the empty id and any id with a non-digit after its first character do not parse |
| GoStrings.JoinSplit | config/loader.go:162-163 | joining the pieces of a split with the same separator restores the string |
| GoStrings.SplitJoin | config/loader.go:162-163 | splitting a join over a one-character separator that no piece contains restores the pieces |
| ConfigTypes.MeasurementIDs | config/types.go:81-87 | one id per configured measurement, the i-th id being the i-th measurement's id (empty for no measurements) |
| ConfigLoader.EnvTransform | config/loader.go:159-165 | the value is returned unchanged |
| ConfigLoader.EnvTransformReversible | config/loader.go:159-165 | for a name without '.', turning every '.' of the key back into "__" gives the upper-cased, prefix-stripped, lower-cased name: only separators are rewritten |
| ConfigLoader.EnvTransformKeepsSingleUnderscores | config/loader.go:156-164 | when the folded name has no "__", the key is that name, single underscores included |
| ConfigLoader.EnvSegmentsOfPrefixed | config/loader.go:160-161 | an ATLAS_ prefix in any letter case is removed once and the rest is lower-cased |
| ConfigLoader.EnvTransformTwoSegments | config/loader_test.go:58-73 | a name folding to first + "__" + second, with no underscore in first and no "__" in second, becomes first + "." + second (ATLAS_WEB__LISTEN_ADDRESS gives web.listen_address) |
| ConfigLoader.IndexOf | config/loader.go:133-140 | a key is an index exactly when Atoi parses it to a value of at least 0, and the index is that value |
| ConfigLoader.IndexedEntries | config/loader.go:131-141 | the pairs are exactly the (index, value) pairs of the index keys of the map; other keys are dropped |
| ConfigLoader.LargestIndex | config/loader.go:143-144 | the largest index among the pairs, which is also the index of one of them |
| ConfigLoader.FillSlots | config/loader.go:144-149 | a slice of the given length whose slots hold the value of a pair with that index, or nil when no pair has it |
| ConfigLoader.ToArray | config/loader.go:124-151 | an array is built exactly when some key is an index; its length is the largest index plus one, slot i holds the value of a key for index i, and indexes no key names are nil |
| ConfigLoader.IsNonDecreasingNonNegative | config/loader.go:195-207 | true exactly when every bound is at least 0 and no bound is below its predecessor; the empty list passes |
| ConfigLoader.NonDecreasingIsSorted | config/loader.go:195-207 | an accepted list is sorted throughout, not just between neighbours |
| ConfigLoader.BucketsByName | config/loader.go:178-183 | the four named bucket lists are exactly the four RTT lists of the configuration |
| ConfigLoader.FirstBadBuckets | config/loader.go:178-187 | the name returned is one of the given names and its list fails, and nothing is returned exactly when all given lists pass |
| ConfigLoader.Validate | config/loader.go:168-193 | no error if and only if the telemetry path starts with '/', TLS has both files, all four bucket lists pass and no duration is negative; the first failing check in that order decides the error |
| ConfigLoader.LayerPrecedence | config/loader.go:61-98 | for every key, the merged value is that of a given flag, else the environment, else the file, else the defaults, else a flag left at its default |
| ConfigLoader.PrecedenceExample | config/loader_test.go:34-56 | the precedence test: file over defaults, environment over file, given flags over both, and an unchanged flag does not override a key that is set |
| ConfigLoader.EnvTransformThreeSegments | config/loader.go:159-165 | a name folding to three segments joined by "__" becomes the three joined by "." (ATLAS_MEASUREMENTS__0__ID gives measurements.0.id) |
| ConfigLoader.EnvKeys | config/loader.go:84-88 | exactly the ATLAS_ variables whose rewritten key is not empty, each mapped to that key |
| ConfigLoader.EnvLayer | config/loader.go:84-91 | every ATLAS_ variable not rewritten to the empty key contributes its rewritten key, and every key of the layer holds the value of a variable rewritten to it |
| ConfigLoader.MeasurementsEnvLayer | config/loader_test.go:174-177 | with exactly ATLAS_MEASUREMENTS__0__ID=111 and ATLAS_MEASUREMENTS__1__ID=222 set, the env layer is exactly measurements.0.id = 111 and measurements.1.id = 222 |
| ConfigLoader.ConfigFilePath | config/loader.go:66-73 | a non-empty config.file flag wins; otherwise the path is ATLAS_CONFIG_FILE, or empty when that is unset |
| ConfigLoader.Head | config/loader.go:124 | the first segment of a dotted key: a dot-free prefix of the key, followed by a dot unless it is the whole key |
| ConfigLoader.Under | config/loader.go:124 | the keys below path p are exactly the r for which p.r is a key, each with that key's value |
| ConfigLoader.Nest | config/loader.go:124-125 | one entry per first segment of the flat keys; a first segment that is itself a key keeps its value; any other has keys below it and holds their nesting, recursively |
| ConfigLoader.NestReachesKey | config/loader.go:124-125 | for every flat key whose shorter dotted prefixes are not keys, descending the nested view along the key's segments reaches that key's value |
| ConfigLoader.NestLeafIsKey | config/loader.go:124-125 | conversely, every non-map value reached in the nested view lies in the value of a flat key: the first prefix of the path that is a key, descending into it along the rest of the path |
| ConfigLoader.GetOf | config/loader.go:124-125 | the key's own value; else, when keys lie below it, the nested map of those keys; else nil |
| ConfigLoader.GetOfReachesKey | config/loader.go:124-125 | `Get` of a path that is not a key shows every flat key below it: descending along the rest of such a key, unshadowed by a shorter key, reaches its value |
| ConfigLoader.GetOfLeafIsKey | config/loader.go:124-125 | every non-map value `Get` of a path shows lies in the value of a flat key below that path, the first along the way |
| ConfigLoader.SetOf | config/loader.go:150 | the key holds the new value, no key remains below it, and every key neither equal to it nor below it keeps its value |
| ConfigLoader.NestOfIndexedLeaves | config/loader.go:124-125 | the flat keys x.leaf and y.leaf of two distinct indexes read back as one map per index, {x: {leaf: ...}, y: {leaf: ...}} |
| ConfigLoader.EnvMeasurementsNormalized | config/loader_test.go:174-183 | the env measurements test: after merging the defaults, no file, that env layer and the flags at their defaults, normalisation makes measurements the list [{id: 111}, {id: 222}], in index order |
| ConfigLoader.Koanf.constructor | config/loader.go:59 | a new instance holds no keys |
| ConfigLoader.Koanf.Load | config/loader.go:62 | a loaded layer's keys override the keys already set, and the others remain |
| ConfigLoader.Koanf.LoadFlags | config/loader.go:95 | given flags override; flags left at their default fill only keys nobody set |
| ConfigLoader.Koanf.Get | config/loader.go:124 | koanf's `Get` of the instance's data is `GetOf`, which `GetOfReachesKey` and `GetOfLeafIsKey` tie to the flat keys |
| ConfigLoader.Koanf.Set | config/loader.go:150 | koanf's `Set`: the key takes the value and the keys below it are removed |
| ConfigLoader.Koanf.NormalizeArrays | config/loader.go:122-154 | when `Get("measurements")` is a map with an index key, also one nested from flat env keys, it is replaced by its array through `Set` and nothing else changes; any other value leaves the configuration unchanged |
| ConfigLoader.DecodeAndValidate | config/loader.go:103-118 | success exactly when decoding succeeds and the decoded configuration validates; otherwise the decoding error or the validation error |
| ConfigLoader.Load | config/loader.go:58-119 | an unreadable config file is an error naming it; otherwise the result is decoding and validating the normalised merge of defaults, file, environment layer and flags, in that order, the file path coming from the flag or the environment |
| ConfigLoader.DefaultsAreValid | config/defaults.go:6-29 | the defaults pass validation |
| ConfigLoader.ValidationExamples | config/loader_test.go:211-264 | the validation cases of the loader tests: a bad telemetry path, TLS missing one or both files, a negative timeout, a negative bound and a decreasing list are each rejected with their error, and TLS with both files passes |
| Exporter.Histogram.ProcessResult | exporter/measurement.go:76-78 | a histogram records exactly one more result and nothing else changes |
| Exporter.ApplyOptsSnoc | exporter/measurement.go:58-60 | each option acts on the store the earlier options built |
| Exporter.ApplyOptsHistograms | exporter/measurement.go:17-22 | the histograms of all options are appended, in option order |
| Exporter.ApplyOptsValidator | exporter/measurement.go:24-29 | the last validator option wins; without one the validator stays unset |
| Exporter.ApplyOptsMaxResultAge | exporter/measurement.go:31-36 | the last age option wins; without one the age stays 0 |
| Exporter.KeptIdsWithoutAgeLimit | exporter/measurement.go:104-113 | without an age limit every stored result is exported |
| Exporter.KeptIdsWithAgeLimit | exporter/measurement.go:105-111 | with an age limit a result is exported exactly when its timestamp is at least now minus the limit's whole seconds |
| Exporter.KeptIdsThirtySeconds | exporter/measurement.go:105-111 | with a 30 s limit a result 40 s old is dropped and one 10 s old is kept |
| Exporter.ExportFresh | exporter/measurement.go:104-113 | exactly the snapshot results inside the age limit are exported, each once and with the probe stored under its probe id |
| Exporter.HistogramFlush | exporter/measurement.go:115-117 | one collect per histogram, in order |
| Exporter.Accepted | exporter/measurement.go:73-78 | a store that accepts a result: its probe id's result and probe are replaced, every other id keeps its entries, and every histogram has processed the result |
| Exporter.AddedToConsistent | exporter/measurement.go:66-79 | adding keeps results and probes under the same probe ids, each result under its own id |
| Exporter.AddedToEmpty | exporter/measurement.go:50-79 | a new store's first accepted result leaves exactly that result and its probe; a refused one leaves the store empty |
| Exporter.AddedToTwiceMaps | exporter/measurement.go:73-74 | adding the same result twice leaves the same results and probes as adding it once |
| Exporter.Measurement.constructor | exporter/measurement.go:50-63 | empty maps, the given exporter, and the settings obtained by applying the options in order to an empty store |
| Exporter.Measurement.Add | exporter/measurement.go:66-79 | a result the validator refuses changes nothing; otherwise it replaces the result and probe of its probe id and is fed once to every histogram in order; the new contents are `AddedTo` of the old; the store stays consistent |
| Exporter.Measurement.Describe | exporter/measurement.go:82-88 | the exporter's descriptors first, then one per histogram, in order |
| Exporter.Measurement.SnapshotResults | exporter/measurement.go:94-97 | every stored result exactly once |
| Exporter.Measurement.SnapshotProbes | exporter/measurement.go:98-101 | a copy equal to the probe map |
| Exporter.Measurement.Collect | exporter/measurement.go:91-118 | every stored result inside the age limit is exported exactly once with the probe of its probe id, and the histograms are flushed after all exports |
| DnsExporter.HexDecode | dns/exporter.go:82 | a decoded payload has half as many bytes as the hex text; odd lengths fail |
| DnsExporter.HexEncode | dns/exporter.go:87 | two digits per byte |
| DnsExporter.HexRoundTrip | dns/exporter.go:82-87 | decoding the encoder's output gives the bytes back |
| DnsExporter.HexReencode | dns/exporter.go:82-87 | re-encoding a decoded payload gives its hex text in lower case |
| DnsExporter.IsAsciiPrintable | dns/exporter.go:96-103 | true exactly when every byte is within 32..126; the empty payload is printable |
| DnsExporter.BytesToString | dns/exporter.go:85 | one character per byte, with the byte's code |
| DnsExporter.RenderNsidDeterminesPayload | dns/exporter.go:84-87 | a printable payload is shown as its own characters, any other one as hex that decodes back to it |
| DnsExporter.RenderNsidAmbiguous | dns/exporter.go:84-87 | the payloads "00" as text and the single byte 0 render alike: the label does not always determine the payload |
| DnsExporter.NsidFirstUsable | dns/exporter.go:79-89 | the first NSID option with valid hex decides the label, whatever follows it |
| DnsExporter.NsidNoneUsable | dns/exporter.go:78-92 | without a usable NSID option the label is empty |
| DnsExporter.ExtractNsid | dns/exporter.go:72-93 | the label is empty when unpacking failed or there is no OPT record, and otherwise the rendering of the first usable NSID option |
| DnsExporter.LabelValues | dns/exporter.go:40-50 | nine values in label order: id, probe id, destination, ASN, IP version, country, latitude, longitude, NSID (empty without a DNS result) |
| DnsExporter.Export | dns/exporter.go:34-63 | success 1 then rtt when the rtt is positive; otherwise success 0 alone, also without a DNS result; every metric has one value per label |
| DnsExporter.Describe | dns/exporter.go:66-69 | atlas_dns_success, then atlas_dns_rtt |
| DnsMeasurement.Options | dns/dns.go:17-27 | exactly one RTT histogram over the DNS buckets for this id and IP version; the default validator if and only if invalid results are filtered; the configured age if it is positive, else no age limit |
| DnsMeasurement.NewMeasurement | dns/dns.go:16-30 | an empty store for the DNS exporter of this id, with exactly those settings |
| HttpMeasurement.Options | http/http.go:17-27 | as for DNS, over the HTTP buckets |
| HttpMeasurement.NewMeasurement | http/http.go:16-30 | an empty store for the HTTP exporter of this id, with those settings |
| PingMeasurement.Options | ping/ping.go:17-27 | as for DNS, over the ping buckets |
| PingMeasurement.NewMeasurement | ping/ping.go:16-30 | an empty store for the ping exporter of this id, with those settings |
| SslCertMeasurement.Options | sslcert/sslcert.go:17-25 | no histogram; the validator if and only if invalid results are filtered; the age only if positive |
| SslCertMeasurement.NewMeasurement | sslcert/sslcert.go:16-28 | an empty store for the SSL certificate exporter of this id, with those settings |
| NtpMeasurement.Options | ntp/ntp.go:17-25 | no histogram; the validator if and only if invalid results are filtered; the age only if positive |
| NtpMeasurement.NewMeasurement | ntp/ntp.go:16-28 | an empty store for the NTP exporter of this id, with those settings |
| StreamStrategy.UnhealthyWithoutWorkers | atlas/stream_strategy.go:161-165 | no connected worker is unhealthy, whatever the data age |
| StreamStrategy.HealthWithoutAgeLimit | atlas/stream_strategy.go:161-182 | without an age limit, healthy if and only if a worker is connected |
| StreamStrategy.UnhealthyWithoutData | atlas/stream_strategy.go:168-173 | with an age limit and no data yet, unhealthy |
| StreamStrategy.HealthWithAgeLimit | atlas/stream_strategy.go:175-180 | with an age limit, a worker and data, healthy if and only if the data is no older than the limit |
| StreamStrategy.HealthExamples | atlas/stream_strategy_health_test.go:11-40 | the health tests: connected without a limit is healthy; with 10 s, no data is not, fresh data is, and data 11 s old is not |
| StreamStrategy.FoundAppend | atlas/stream_strategy.go:145-156 | the stores for two id lists in a row are the stores for each, concatenated: input order is kept |
| StreamStrategy.FoundMembers | atlas/stream_strategy.go:145-156 | at most one store per id, and the stores returned are exactly the stores of the ids asked for that have one |
| StreamStrategy.FoundExample | atlas/stream_strategy.go:145-156 | an id asked for twice gives its store twice, and an unknown id is skipped |
| StreamStrategy.StreamingStrategy.constructor | atlas/stream_strategy.go:30-33 | no stores and no data yet |
| StreamStrategy.StreamingStrategy.Add | atlas/stream_strategy.go:107-129 | the map only grows and existing stores are reused, their settings unchanged; a store is created, with the recipe's exporter and settings, only for a new id, and the map is unchanged when that fails; the receiving store's results, probes and histograms are exactly what `Measurement.Add` makes of the old store, or of an empty store over the recipe's histograms |
| StreamStrategy.StreamingStrategy.ProcessMeasurementResult | atlas/stream_strategy.go:87-105 | the arrival time is recorded first, so a failed probe lookup still advances it but changes no store; with a probe the effect on the map, on the receiving store's contents and on its validator and age limit is that of `Add`; data so recorded keeps the strategy healthy for the whole age limit |
| StreamStrategy.StreamingStrategy.MeasurementResults | atlas/stream_strategy.go:139-157 | the stores of the ids in input order, absent ids skipped and repeats repeated, and never an error |
| StreamWorker.BaseDelay | atlas/stream_strategy_worker.go:31-35 | between one second and one minute; 2^k seconds below six retries, exactly one minute from six on |
| StreamWorker.RetryDelay | atlas/stream_strategy_worker.go:37-39 | within [d - d/4, d + d/2 - d/4) of the capped base delay d, hence always between 0.75 s and 75 s |
| StreamWorker.JitterIsTheDraw | atlas/stream_strategy_worker.go:38-39 | every jitter in [0, d/2) is reachable and gives d + j - d/4 |
| StreamWorker.AsWrittenAgreesBelowOverflow | atlas/stream_strategy_worker.go:32-39 | up to 33 retries the int64 computation as written equals the intended delay, for every draw |
| StreamWorker.OverflowAtThirtyFour | atlas/stream_strategy_worker.go:32-38 | at 34 retries the delay as written is -1266874889709551616 ns and the jitter call panics, for every draw |
| StreamWorker.MinAtFiftyFour | atlas/stream_strategy_worker.go:32-38 | at 54 retries the delay as written is MinInt64 ns and the jitter call panics, for every draw |
| StreamWorker.ZeroFromFiftyFive | atlas/stream_strategy_worker.go:32-38 | from 55 retries on the delay as written is 0 (one second is 1953125 * 2^9 ns) and the jitter call panics |
| StreamWorker.ListenNeverForwardsDisconnect | atlas/stream_strategy_worker.go:103-106 | no forwarded result carries a disconnect parse error |
| StreamWorker.ListenForwardsAll | atlas/stream_strategy_worker.go:95-108 | while nothing stops the listener, every non-nil result is forwarded unchanged and in order, including ones with other parse errors |
| StreamWorker.ListenIgnoresAfterStop | atlas/stream_strategy_worker.go:90-110 | a close, a cancellation or a disconnect result ends forwarding: only the results before it are forwarded |
| StreamWorker.ListenIsPrefixOfDelivered | atlas/stream_strategy_worker.go:90-108 | what is forwarded is a prefix of the non-nil results delivered |
| StreamWorker.RunWithUnparsableId | atlas/stream_strategy_worker.go:49-52 | with an id that does not parse, every round fails: nothing is sent, the counter grows by one per round, and round i waits on counter k + i + 1 |
| StreamWorker.UnparsableIdReachesOverflow | atlas/stream_strategy_worker.go:47-67 | from a fresh worker with an unparsable id, the first 33 waits agree with the code as written and the 34th is where the code as written panics |
| StreamWorker.AfterConnection | atlas/stream_strategy_worker.go:53-57 | after a connection the next delay uses counter 1 whatever came before, and the listener's results are sent |
| StreamWorker.CancelledEndsRun | atlas/stream_strategy_worker.go:60-63 | a done context ends the run in that round, after one delay is computed |
| StreamWorker.Worker.constructor | atlas/stream_strategy.go:43-47 | the worker of one measurement id starts with counter 0 and nothing sent |
| StreamWorker.Worker.Subscribe | atlas/stream_strategy_worker.go:69-85 | the measurement number exactly when the id parses as a decimal integer and the client's subscribe succeeds |
| StreamWorker.Worker.ListenForResults | atlas/stream_strategy_worker.go:87-113 | the results sent are those the listener forwards, and the reason it stopped is reported; the counter is untouched |
| StreamWorker.Worker.RunOnce | atlas/stream_strategy_worker.go:48-63 | one pass of the loop: a failed subscribe adds one to the counter, a connection leaves it at 1 after the stream ends and sends what the listener forwards; the delay is computed from the new counter |
| StreamWorker.Worker.RunRounds | atlas/stream_strategy_worker.go:47-67 | the delays, the final counter and the results sent are those of the run over the rounds |

## Left out

- StreamWorker.Worker.RunOnce: a round's events are a finite sequence. When
  they run out without a close, a cancellation or a disconnect (`Exhausted`),
  the round ends as if the stream had ended and the worker goes on to the
  delay and the next round. Go's `listenForResults`
  (atlas/stream_strategy_worker.go:88-112) never returns in that case.
- Goroutines, channels, `sync.Mutex`/`RWMutex` and atomics are not modelled.
  Each locked or atomic operation is one sequential step. The result channel
  is the worker's `sent` sequence.
- The `processMeasurementResults` recover/select loop (atlas/stream_strategy.go:58-85)
  is not modelled; it deals only with panics and channel closing. After a
  recovered panic, its `select` can take a queued result with `ok == true`
  and drop it silently.
- `NewStreamingStrategy`/`start` spawning one goroutine per worker is not
  modelled. The strategy constructor yields the state before the workers
  start.
- `connectedWorkers` is a parameter of `IsHealthy`, because nothing in the
  shown code updates it.
- The `LastDataTimestampGauge` update and all logging are not modelled:
  atlas/metrics.go is not part of this model.
- `probeForID`, `measurementForType`, `newRttHistogram`,
  `DefaultResultValidator` and the histogram internals are not part of this
  model. Probes and store recipes are Option parameters, and the validator
  is a function value. A histogram only records the results fed to it.
- The probe package is not part of this model.
  `Results.AsnForIpVersion` assumes its `ASNForIPVersion` gives the IPv4 ASN
  for address family 4 and the IPv6 ASN otherwise.
- Prometheus metric values, DNS round-trip times and histogram bounds are
  floats; the model uses reals, which are only compared.
- `maxResultAge.Seconds()` is modelled as whole seconds, by integer division.
- koanf is modelled as one flat map from dotted keys to values. `Get`
  presents the nested map of the keys below a path, and `Set` replaces a
  key and removes the keys below it. koanf itself stores nested maps: when
  one layer gives a key a plain value and a later one gives it keys below
  (or the reverse), koanf's merge keeps one shape, while the flat map keeps
  both and `Get` reads the plain value.
- The confmap, file, YAML, env and posflag providers are modelled only
  through what each contributes. YAML reading and mapstructure decoding
  (with duration strings) are function parameters.
- `filepath.Abs` expansion of the config path is not modelled. The file
  error carries the path as given.
- ConfigLoader.Validate: when several bucket lists fail, Go's random map
  order decides which one is reported. In contrast, the model checks them in
  a fixed order. Its contract only promises the name of some failing list.
- ConfigLoader.ToArray: `sort.Slice` is not modelled. Only its last element,
  the largest index, matters. When two keys name the same index ("1" and
  "01"), which value lands in the slot depends on an unstable sort and map
  order; the contract promises the value of one of those keys.
- Case mapping is ASCII only. Go's `strings.ToUpper`/`ToLower` also map
  non-ASCII letters.
- EDNS0 message unpacking (`UnpackAbuf`, miekg/dns) is not modelled. A DNS
  result carries the already unpacked answer, or None when unpacking failed.
- Integers are unbounded except in the retry delay, where the int64
  overflow is modelled. The counter increment, timestamps and `time.Since`
  saturation are not wrapped.
- ConfigLoader.ToArray: the array length, the largest index plus one, is
  unbounded. In Go an index of MaxInt64 makes `idx+1` wrap to a negative
  length and `make` panics (config/loader.go:144), and an index of some
  billions exhausts memory; the model builds the array in both cases.
- Exporter.Measurement.Collect: one `now` is used for the whole collection,
  whereas the code reads `time.Now()` again for each result
  (exporter/measurement.go:107), so a result near the cutoff can be judged
  against a slightly later time there.
- main.go, the probe cache, atlas/metrics.go, atlas/strategy.go and
  config/config.go are not part of this model. They hold HTTP serving,
  timers, gauge declarations, an interface and a YAML wrapper.
- The loader tests for invalid buckets (config/loader_test.go:247, 257) write
  YAML in raw strings containing a literal `\n`. They appear to fail at
  parsing rather than at validation. `ConfigLoader.ValidationExamples`
  states the validation those tests intend.

## Findings

| source | as written | input that shows it | evidently intended | confidence | as-written member | corrected member |
|---|---|---|---|---|---|---|
| atlas/stream_strategy_worker.go:32-38 | `minRetryDelay * time.Duration(1<<uint(w.retryAttempt))` is computed in int64 nanoseconds and wraps before the 60 s cap is applied; a non-positive delay makes `rand.Int63n(int64(delay / 2))` panic in the worker goroutine, which ends the process | retry counter 34, reached after 34 consecutive failed subscribes (for instance a configured measurement id like "abc", which never parses): the delay is -1266874889709551616 ns; at 54 retries it is MinInt64, and from 55 on it is 0 | the comment at line 31: the delay grows 1 s, 2 s, 4 s, … and is capped at 60 s for every retry count | not executed | StreamWorker.OverflowAtThirtyFour | StreamWorker.RetryDelay |

The as-written computation is `StreamWorker.DelayAsWritten`, with
`StreamWorker.RetryDelayAsWritten` returning None where the code panics.
`StreamWorker.UnparsableIdReachesOverflow` shows the failing run from a
fresh worker. The corrected `StreamWorker.RetryDelay` caps the exponent's
effect before any overflow can occur. `StreamWorker.AsWrittenAgreesBelowOverflow`
shows that it agrees with the code for every counter the code handles
correctly. The worker's run (`StreamWorker.Run`, `StreamWorker.Worker.RunRounds`)
uses the corrected delay.
