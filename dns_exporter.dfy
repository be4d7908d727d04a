/**
  The DNS exporter (dns/exporter.go): which metrics one DNS result turns
  into, with which label values, and how the answer's NSID (the EDNS0
  option of RFC 5001) becomes the `nsid` label.

  Section 2.4 of RFC 5001 presents an NSID payload as hexadecimal; the
  exporter prints the payload as text instead whenever every byte of it is
  printable ASCII.
 */
module DnsExporter {
  import opened Wrappers
  import opened Results
  import opened Strconv
  import opened GoStrings

  // ---------------------------------------------------------------------
  // Hexadecimal (encoding/hex)

  const HexDigits: string := "0123456789abcdef"

  /** The value of one hexadecimal digit; both letter cases are accepted. */
  function HexValue(c: char): (r: Option<nat>)
    ensures r.Some? ==> r.value < 16
  {
    if '0' <= c <= '9' then Some((c as int) - ('0' as int))
    else if 'a' <= c <= 'f' then Some((c as int) - ('a' as int) + 10)
    else if 'A' <= c <= 'F' then Some((c as int) - ('A' as int) + 10)
    else None
  }

  function DecodePairs(s: string): (r: Option<seq<byte>>)
    requires |s| % 2 == 0
    ensures r.Some? ==> 2 * |r.value| == |s|
  {
    if s == [] then Some([])
    else
      match (HexValue(s[0]), HexValue(s[1]), DecodePairs(s[2..]))
      case (Some(hi), Some(lo), Some(rest)) => Some([(hi * 16 + lo) as byte] + rest)
      case _ => None
  }

  /**
    `hex.DecodeString`: two digits per byte, high digit first. An odd
    length or a character that is not a digit is an error.
   */
  function HexDecode(s: string): (r: Option<seq<byte>>)
    ensures r.Some? ==> 2 * |r.value| == |s|
  {
    if |s| % 2 == 1 then None else DecodePairs(s)
  }

  /** `hex.EncodeToString`: two lower-case digits per byte. */
  function HexEncode(b: seq<byte>): (s: string)
    ensures |s| == 2 * |b|
  {
    if b == [] then "" else [HexDigits[b[0] / 16], HexDigits[b[0] % 16]] + HexEncode(b[1..])
  }

  lemma HexValueOfDigit(d: nat)
    requires d < 16
    ensures HexValue(HexDigits[d]) == Some(d)
  {
  }

  /** `DecodePairs` of a string whose first two characters are digits. */
  lemma DecodePairsCons(s: string)
    requires |s| >= 2 && |s| % 2 == 0
    requires HexValue(s[0]).Some? && HexValue(s[1]).Some? && DecodePairs(s[2..]).Some?
    ensures DecodePairs(s) ==
      Some([(HexValue(s[0]).value * 16 + HexValue(s[1]).value) as byte] + DecodePairs(s[2..]).value)
  {
  }

  /** Decoding what the encoder prints gives the bytes back. */
  lemma {:induction false} HexRoundTrip(b: seq<byte>)
    ensures HexDecode(HexEncode(b)) == Some(b)
  {
    if b != [] {
      var s := HexEncode(b);
      var hi: nat, lo: nat := b[0] as int / 16, b[0] as int % 16;
      HexRoundTrip(b[1..]);
      HexValueOfDigit(hi);
      HexValueOfDigit(lo);
      assert s[0] == HexDigits[hi] && s[1] == HexDigits[lo];
      assert s[2..] == HexEncode(b[1..]);
      DecodePairsCons(s);
      assert (hi * 16 + lo) as byte == b[0];
      assert [b[0]] + b[1..] == b;
    }
  }

  lemma HexDigitOfValue(c: char)
    requires HexValue(c).Some?
    ensures HexDigits[HexValue(c).value] == LowerChar(c)
  {
  }

  /**
    Re-encoding decoded bytes gives the input back with its letters in lower
    case: the encoder never loses or invents a digit.
   */
  lemma {:induction false} HexReencode(s: string)
    requires |s| % 2 == 0 && DecodePairs(s).Some?
    ensures HexEncode(DecodePairs(s).value) == ToLower(s)
  {
    if s != [] {
      var b := DecodePairs(s).value;
      var hi := HexValue(s[0]).value;
      var lo := HexValue(s[1]).value;
      HexReencode(s[2..]);
      assert b[0] == hi * 16 + lo && b[1..] == DecodePairs(s[2..]).value;
      assert b[0] / 16 == hi && b[0] % 16 == lo;
      HexDigitOfValue(s[0]);
      HexDigitOfValue(s[1]);
      assert ToLower(s) == [LowerChar(s[0]), LowerChar(s[1])] + ToLower(s[2..]);
    }
  }

  // ---------------------------------------------------------------------
  // NSID

  /** Every byte is printable ASCII (32 to 126). */
  predicate Printable(data: seq<byte>) {
    forall i :: 0 <= i < |data| ==> 32 <= data[i] <= 126
  }

  /** `isASCIIPrintable`: stops at the first byte outside 32..126. */
  method IsAsciiPrintable(data: seq<byte>) returns (ok: bool)
    ensures ok == Printable(data)
  {
    for i := 0 to |data|
      invariant forall j :: 0 <= j < i ==> 32 <= data[j] <= 126
    {
      if data[i] < 32 || data[i] > 126 {
        return false;
      }
    }
    return true;
  }

  /** Go's `string(raw)`: one character per byte. */
  function BytesToString(raw: seq<byte>): (s: string)
    ensures |s| == |raw|
    ensures forall i :: 0 <= i < |raw| ==> s[i] as int == raw[i]
  {
    seq(|raw|, i requires 0 <= i < |raw| => raw[i] as char)
  }

  /** How a decoded NSID payload is shown: as text when printable, else as hex. */
  function RenderNsid(raw: seq<byte>): string {
    if Printable(raw) then BytesToString(raw) else HexEncode(raw)
  }

  /**
    The label determines the payload within each of the two forms: a
    printable payload is its label's characters, any other payload is what
    the label decodes to as hex.
   */
  lemma RenderNsidDeterminesPayload(raw: seq<byte>)
    ensures Printable(raw) ==> |RenderNsid(raw)| == |raw| && forall i :: 0 <= i < |raw| ==> RenderNsid(raw)[i] as int == raw[i]
    ensures !Printable(raw) ==> HexDecode(RenderNsid(raw)) == Some(raw)
  {
    if !Printable(raw) {
      HexRoundTrip(raw);
    }
  }

  /**
    Across the two forms the label is ambiguous: the printable payload "00"
    (bytes 0x30 0x30) and the payload made of the single byte 0x00 both
    show as "00".
   */
  lemma RenderNsidAmbiguous()
    ensures RenderNsid([0x30, 0x30]) == RenderNsid([0x00]) == "00"
  {
    assert !Printable([0x00]) by {
      assert [0x00 as byte][0] < 32;
    }
    assert HexEncode([0x00]) == "00" by {
      assert HexEncode([0x00 as byte][1..]) == "";
    }
  }

  /** An option the search stops at: an NSID whose payload is valid hex. */
  predicate Usable(o: Edns0Option) {
    o.NsidOption? && HexDecode(o.nsid).Some?
  }

  /** The search over the EDNS0 options: the first usable NSID, rendered. */
  function NsidFromOptions(opts: seq<Edns0Option>): string {
    if opts == [] then ""
    else if Usable(opts[0]) then RenderNsid(HexDecode(opts[0].nsid).value)
    else NsidFromOptions(opts[1..])
  }

  /** The `nsid` label of a DNS result: empty when unpacking failed or the answer has no OPT record. */
  function NsidOf(res: DnsResult): string {
    match res.abuf
    case None => ""
    case Some(msg) =>
      match msg.edns0
      case None => ""
      case Some(opts) => NsidFromOptions(opts)
  }

  /** The first usable option decides the label, whatever follows it. */
  lemma {:induction false} NsidFirstUsable(opts: seq<Edns0Option>, i: nat)
    requires i < |opts| && Usable(opts[i])
    requires forall j :: 0 <= j < i ==> !Usable(opts[j])
    ensures NsidFromOptions(opts) == RenderNsid(HexDecode(opts[i].nsid).value)
  {
    if i > 0 {
      NsidFirstUsable(opts[1..], i - 1);
    }
  }

  /** Without a usable option the label is empty. */
  lemma {:induction false} NsidNoneUsable(opts: seq<Edns0Option>)
    requires forall j :: 0 <= j < |opts| ==> !Usable(opts[j])
    ensures NsidFromOptions(opts) == ""
  {
    if opts != [] {
      NsidNoneUsable(opts[1..]);
    }
  }

  /** `extractNsid`: one pass over the options, returning at the first usable NSID. */
  method ExtractNsid(res: DnsResult) returns (nsid: string)
    ensures nsid == NsidOf(res)
  {
    if res.abuf.None? {
      return "";
    }
    var msg := res.abuf.value;
    if msg.edns0.None? {
      return "";
    }
    var opts := msg.edns0.value;
    for i := 0 to |opts|
      invariant NsidFromOptions(opts[i..]) == NsidFromOptions(opts)
    {
      assert opts[i..][1..] == opts[i + 1..];
      if opts[i].NsidOption? {
        var raw := HexDecode(opts[i].nsid);
        if raw.Some? {
          var printable := IsAsciiPrintable(raw.value);
          if printable {
            return BytesToString(raw.value);
          }
          return HexEncode(raw.value);
        }
      }
    }
    return "";
  }

  // ---------------------------------------------------------------------
  // Metrics

  /** The label names, in order. */
  const Labels: seq<string> := ["measurement", "probe", "dst_addr", "asn", "ip_version", "country_code", "lat", "long", "nsid"]

  /** A Prometheus metric descriptor. */
  datatype Desc = Desc(fqName: string, help: string, variableLabels: seq<string>)

  /** A constant gauge sample. */
  datatype Metric = GaugeMetric(desc: Desc, value: real, labelValues: seq<string>)

  /** `prometheus.BuildFQName` for three non-empty parts. */
  function BuildFqName(namespace: string, subsystem: string, name: string): string {
    namespace + "_" + subsystem + "_" + name
  }

  const SuccessDesc: Desc := Desc(BuildFqName("atlas", "dns", "success"), "Destination was reachable", Labels)
  const RttDesc: Desc := Desc(BuildFqName("atlas", "dns", "rtt"), "Roundtrip time in ms", Labels)

  /** The round-trip time of a result, 0 when it has no DNS part. */
  function Rtt(res: Result): real {
    if res.dnsResult.Some? then res.dnsResult.value.rt else 0.0
  }

  /** The label values of a result, in the order of `Labels`. */
  function LabelValues(id: string, res: Result, probe: Probe): (values: seq<string>)
    ensures |values| == |Labels|
    ensures values[0] == id && values[1] == Itoa(probe.id) && values[2] == res.dstAddr
    ensures values[3] == Itoa(AsnForIpVersion(probe, res.af)) && values[4] == Itoa(res.af)
    ensures values[5] == probe.countryCode && values[6] == probe.latitude && values[7] == probe.longitude
    ensures values[8] == (if res.dnsResult.Some? then NsidOf(res.dnsResult.value) else "")
  {
    var nsid := if res.dnsResult.Some? then NsidOf(res.dnsResult.value) else "";
    [id, Itoa(probe.id), res.dstAddr, Itoa(AsnForIpVersion(probe, res.af)), Itoa(res.af),
     probe.countryCode, probe.latitude, probe.longitude, nsid]
  }

  /**
    `dnsExporter.Export`: a reachable destination (positive round-trip
    time) gives success = 1 and then the round-trip time; otherwise, also
    when there is no DNS part, only success = 0. Every sample carries as
    many label values as its descriptor has label names.
   */
  method Export(id: string, res: Result, probe: Probe) returns (out: seq<Metric>)
    ensures Rtt(res) > 0.0 ==> out == [GaugeMetric(SuccessDesc, 1.0, LabelValues(id, res, probe)),
                                       GaugeMetric(RttDesc, Rtt(res), LabelValues(id, res, probe))]
    ensures Rtt(res) <= 0.0 ==> out == [GaugeMetric(SuccessDesc, 0.0, LabelValues(id, res, probe))]
    ensures forall m :: m in out ==> |m.labelValues| == |m.desc.variableLabels|
  {
    var nsid := "";
    if res.dnsResult.Some? {
      nsid := ExtractNsid(res.dnsResult.value);
    }
    var labelValues := [id, Itoa(probe.id), res.dstAddr, Itoa(AsnForIpVersion(probe, res.af)), Itoa(res.af),
                        probe.countryCode, probe.latitude, probe.longitude, nsid];
    var rtt := 0.0;
    if res.dnsResult.Some? {
      rtt := res.dnsResult.value.rt;
    }
    if rtt > 0.0 {
      out := [GaugeMetric(SuccessDesc, 1.0, labelValues), GaugeMetric(RttDesc, rtt, labelValues)];
    } else {
      out := [GaugeMetric(SuccessDesc, 0.0, labelValues)];
    }
  }

  /** `dnsExporter.Describe`: the success descriptor, then the rtt descriptor. */
  method Describe() returns (out: seq<Desc>)
    ensures out == [SuccessDesc, RttDesc]
    ensures out[0].fqName == "atlas_dns_success" && out[1].fqName == "atlas_dns_rtt"
  {
    out := [SuccessDesc, RttDesc];
  }
}
