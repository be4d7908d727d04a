/**
  The values that flow through the exporter: one measurement result as the
  RIPE Atlas client library delivers it, and the metadata of the probe that
  produced it. Both come from libraries outside the core; only the fields
  the core reads are kept.
 */
module Results {
  import opened Wrappers

  type byte = b: int | 0 <= b < 256

  /** One EDNS0 option of a DNS answer; only the NSID kind is told apart. */
  datatype Edns0Option = NsidOption(nsid: string) | OtherOption(code: int)

  /**
    An unpacked DNS answer. `edns0` is the option list of its OPT record,
    or None when the message carries no OPT record.
   */
  datatype DnsMessage = DnsMessage(edns0: Option<seq<Edns0Option>>)

  /**
    The DNS part of a result: the round-trip time in milliseconds and the
    answer buffer, already unpacked (None when unpacking fails).
   */
  datatype DnsResult = DnsResult(rt: real, abuf: Option<DnsMessage>)

  /** One measurement result (`measurement.Result`). */
  datatype Result = Result(
    msmId: int,
    prbId: int,
    af: int,
    timestamp: int,
    resultType: string,
    dstAddr: string,
    parseError: Option<string>,
    dnsResult: Option<DnsResult>)

  /**
    Probe metadata (`probe.Probe`). Latitude and longitude are kept in the
    text form the probe package renders them in.
   */
  datatype Probe = Probe(
    id: int,
    asnV4: int,
    asnV6: int,
    countryCode: string,
    latitude: string,
    longitude: string)

  /** The autonomous system of the probe for an address family. */
  function AsnForIpVersion(p: Probe, af: int): int {
    if af == 4 then p.asnV4 else p.asnV6
  }
}
