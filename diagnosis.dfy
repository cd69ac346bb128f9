/** The NAT diagnosis of diagnosis.go: two Binding requests to the same public
    STUN server from the first local IPv4 address.  A reflexive address that
    is one of the local addresses means there is no NAT; two equal reflexive
    addresses mean Endpoint-Independent Mapping (section 4.1 of RFC 4787).
    The network is an oracle: what dialling, exchanging and closing do on
    each successive probe is fixed in advance, and the calls made are logged. */
module Diagnosis {
  import opened StunErrors
  import opened Binary
  import opened StunAttributes
  import opened StunMessage
  import opened StunUrl

  /** A net.IP: 4 bytes for IPv4, 16 for IPv6 (other lengths are possible). */
  type IP = seq<byte>

  /** The server DiagnoseWithPublicSTUN asks. */
  const DefaultX: string := "stun.l.google.com:19302"

  // ---------------------------------------------------------------- net.IP.Equal

  /** The twelve bytes that put an IPv4 address inside an IPv6 one. */
  const V4InV6Prefix: seq<byte> := [0, 0, 0, 0, 0, 0, 0, 0, 0, 0, 0xff, 0xff]

  /** net.IP.Equal: the same bytes, or an IPv4 address and its IPv4-mapped
      IPv6 form. */
  predicate IpEqual(a: IP, b: IP) {
    if |a| == |b| then a == b
    else if |a| == 4 && |b| == 16 then b[..12] == V4InV6Prefix && a == b[12..]
    else if |a| == 16 && |b| == 4 then a[..12] == V4InV6Prefix && a[12..] == b
    else false
  }

  /** net.IP.To16 for the two proper lengths. */
  function To16(a: IP): (r: IP)
    requires |a| == 4 || |a| == 16
    ensures |r| == 16
  {
    if |a| == 4 then V4InV6Prefix + a else a
  }

  /** For proper addresses, Equal is equality of the 16-byte forms. */
  lemma IpEqualIsSame16(a: IP, b: IP)
    requires |a| == 4 || |a| == 16
    requires |b| == 4 || |b| == 16
    ensures IpEqual(a, b) <==> To16(a) == To16(b)
  {
    if |a| == 4 && |b| == 4 && To16(a) == To16(b) {
      assert a == To16(a)[12..] && b == To16(b)[12..];
    } else if |a| == 4 && |b| == 16 {
      assert To16(a)[..12] == V4InV6Prefix && To16(a)[12..] == a;
    } else if |a| == 16 && |b| == 4 {
      assert To16(b)[..12] == V4InV6Prefix && To16(b)[12..] == b;
    }
  }

  lemma IpEqualSymmetric(a: IP, b: IP)
    ensures IpEqual(a, b) <==> IpEqual(b, a)
  {
  }

  // ---------------------------------------------------------------- containIP

  /** containIP: whether some address of the list is Equal to the target. */
  method ContainIp(comparator: seq<IP>, target: IP) returns (contained: bool)
    ensures contained <==> exists i :: 0 <= i < |comparator| && IpEqual(comparator[i], target)
  {
    for i := 0 to |comparator|
      invariant forall j :: 0 <= j < i ==> !IpEqual(comparator[j], target)
    {
      if IpEqual(comparator[i], target) {
        return true;
      }
    }
    return false;
  }

  // ---------------------------------------------------------------- the network

  /** How a call that can only fail ends. */
  datatype Outcome = Fine | Fails(error: Error)

  /** The calls doSTUNRequest makes on the network, in order. */
  datatype Event = Dialed(server: Url, local: IP) | Sent(request: MessageValue) | Closed

  /** The network as an oracle.  Probe `k` (counted from zero over the life of
      the object) dials with outcome `dial(k)`, exchanges with result
      `exchange(k)` and closes with outcome `close(k)`; `trace` logs the calls
      and `probes` counts the dials. */
  class Network {
    const dial: nat -> Outcome
    const exchange: nat -> Result<MessageValue>
    const close: nat -> Outcome
    var probes: nat
    var trace: seq<Event>

    constructor (dial: nat -> Outcome, exchange: nat -> Result<MessageValue>, close: nat -> Outcome)
      ensures this.dial == dial && this.exchange == exchange && this.close == close
      ensures probes == 0 && trace == []
    {
      this.dial, this.exchange, this.close := dial, exchange, close;
      probes, trace := 0, [];
    }

    /** stun.NewClient: resolve and dial the server from the local address. */
    method NewClient(server: Url, local: IP) returns (client: nat, o: Outcome)
      modifies this
      ensures client == old(probes) && o == dial(client)
      ensures probes == old(probes) + 1 && trace == old(trace) + [Dialed(server, local)]
    {
      client := probes;
      o := dial(client);
      probes := probes + 1;
      trace := trace + [Dialed(server, local)];
    }

    /** Client.Do: send the request, receive and decode the response. */
    method Do(client: nat, request: MessageValue) returns (r: Result<MessageValue>)
      modifies this
      ensures r == exchange(client)
      ensures probes == old(probes) && trace == old(trace) + [Sent(request)]
    {
      r := exchange(client);
      trace := trace + [Sent(request)];
    }

    /** Client.Close. */
    method Close(client: nat) returns (o: Outcome)
      modifies this
      ensures o == close(client)
      ensures probes == old(probes) && trace == old(trace) + [Closed]
    {
      o := close(client);
      trace := trace + [Closed];
    }
  }

  /** What doSTUNRequest returns for probe `k`: the first error of dialling,
      exchanging and closing, or the response. */
  function Probe(net: Network, k: nat): Result<MessageValue> {
    match net.dial(k)
    case Fails(e) => Failure(e)
    case Fine =>
      match net.exchange(k)
      case Failure(e) => Failure(e)
      case Success(res) =>
        match net.close(k)
        case Fails(e) => Failure(e)
        case Fine => Success(res)
  }

  /** The calls probe `k` makes: Close comes only after a successful Do. */
  function ProbeEvents(net: Network, k: nat, server: Url, local: IP, request: MessageValue): seq<Event> {
    if net.dial(k).Fails? then [Dialed(server, local)]
    else if net.exchange(k).Failure? then [Dialed(server, local), Sent(request)]
    else [Dialed(server, local), Sent(request), Closed]
  }

  /** doSTUNRequest. */
  method DoStunRequest(server: Url, local: IP, request: MessageValue, net: Network) returns (r: Result<MessageValue>)
    modifies net
    ensures r == Probe(net, old(net.probes))
    ensures net.probes == old(net.probes) + 1
    ensures net.trace == old(net.trace) + ProbeEvents(net, old(net.probes), server, local, request)
  {
    var client, o := net.NewClient(server, local);
    if o.Fails? {
      return Failure(o.error);
    }
    r := net.Do(client, request);
    if r.Failure? {
      return r;
    }
    o := net.Close(client);
    if o.Fails? {
      return Failure(o.error);
    }
  }

  // ---------------------------------------------------------------- the decision

  /** What the diagnosis reports on its normal return. */
  datatype Verdict =
    | NoNat                 // "There is no NAT"
    | EndpointIndependent   // "NAT Mapping Type: Endpoint-Independent Mapping(EIM)"
    | Undetermined          // nothing printed

  /** How DiagnoseWithPublicSTUN ends. */
  datatype Diagnosis = Reported(verdict: Verdict) | Failed(error: Error) | Panicking

  /** The reflexive address of a probe, or how the diagnosis ends instead. */
  datatype Reflexive = Address(ip: IP) | Stop(end: Diagnosis)

  /** The end a status of XORMappedAddress.Parse leads to. */
  function AfterParse(s: Status, address: IP): Reflexive {
    match s
    case Ok => Address(address)
    case Err(e) => Stop(Failed(e))
    case Panic => Stop(Panicking)
  }

  /** From a probe's result to the reflexive address: the error of the probe,
      no XOR-MAPPED-ADDRESS, or the outcome of parsing the first one. */
  function ReflexiveOf(probe: Result<MessageValue>): Reflexive {
    match probe
    case Failure(e) => Stop(Failed(e))
    case Success(res) =>
      var lookup := Extract(res.attributes, AttrXorMappedAddress);
      if !lookup.exist then Stop(Failed(NoXorMappedAddress))
      else
        var s := XorParseStatus(lookup.attr);
        AfterParse(s, if s == Ok then XorDecode(lookup.attr.value, res.tid).address else [])
  }

  /** The decision ladder of DiagnoseWithPublicSTUN, given the parsed server
      URL, the local IPv4 addresses (or the error enumerating them) and what
      the two probes yield. */
  function Classify(url: Result<Url>, ips: Result<seq<IP>>, first: Reflexive, second: Reflexive): Diagnosis {
    match url
    case Failure(e) => Failed(e)
    case Success(_) =>
      match ips
      case Failure(e) => Failed(e)
      case Success(ip4) => if ip4 == [] then Failed(NoIpv4OnInterface) else Decide(ip4, first, second)
  }

  /** The decisions once there is a local address: the first probe's error,
      no NAT when its reflexive address is a local one, or the comparison. */
  function Decide(ip4: seq<IP>, first: Reflexive, second: Reflexive): Diagnosis {
    match first
    case Stop(end) => end
    case Address(a1) =>
      if exists i :: 0 <= i < |ip4| && IpEqual(ip4[i], a1) then Reported(NoNat)
      else Compare(a1, second)
  }

  /** The last step: the second probe's error, or whether its reflexive
      address is Equal to the first one. */
  function Compare(a1: IP, second: Reflexive): Diagnosis {
    match second
    case Stop(end) => end
    case Address(a2) => if IpEqual(a1, a2) then Reported(EndpointIndependent) else Reported(Undetermined)
  }

  /** How many probes the diagnosis issues: none when it stops before probing,
      one when the first probe decides, two otherwise. */
  function ProbesIssued(url: Result<Url>, ips: Result<seq<IP>>, first: Reflexive): (n: nat)
    ensures n <= 2
  {
    if url.Failure? || ips.Failure? || ips.value == [] then 0 else ProbesAfter(ips.value, first)
  }

  function ProbesAfter(ip4: seq<IP>, first: Reflexive): (n: nat)
    ensures 1 <= n <= 2
  {
    match first
    case Stop(_) => 1
    case Address(a1) => if exists i :: 0 <= i < |ip4| && IpEqual(ip4[i], a1) then 1 else 2
  }

  /** The calls the diagnosis makes on the network whose next probe is `k`. */
  function DiagnosisEvents(url: Result<Url>, ips: Result<seq<IP>>, net: Network, k: nat, tid1: TransactionId, tid2: TransactionId): seq<Event> {
    if url.Failure? || ips.Failure? || ips.value == [] then []
    else ProbingEvents(url.value, ips.value, net, k, tid1, tid2)
  }

  function ProbingEvents(server: Url, ip4: seq<IP>, net: Network, k: nat, tid1: TransactionId, tid2: TransactionId): seq<Event>
    requires ip4 != []
  {
    ProbeEvents(net, k, server, ip4[0], NewMessage(BindingReq, tid1))
    + if ProbesAfter(ip4, ReflexiveOf(Probe(net, k))) == 2
      then ProbeEvents(net, k + 1, server, ip4[0], NewMessage(BindingReq, tid2)) else []
  }

  /** DiagnoseWithPublicSTUN.  The interface's IPv4 addresses are an input;
      the two transaction ids are those the two NewMessage calls would draw. */
  method DiagnoseWithPublicStun(ips: Result<seq<IP>>, tid1: TransactionId, tid2: TransactionId, net: Network)
    returns (d: Diagnosis)
    modifies net
    ensures d == Classify(ParseStunUrl(DefaultX), ips,
      ReflexiveOf(Probe(net, old(net.probes))), ReflexiveOf(Probe(net, old(net.probes) + 1)))
    ensures net.probes == old(net.probes) + ProbesIssued(ParseStunUrl(DefaultX), ips, ReflexiveOf(Probe(net, old(net.probes))))
    ensures net.trace == old(net.trace) + DiagnosisEvents(ParseStunUrl(DefaultX), ips, net, old(net.probes), tid1, tid2)
  {
    d := DiagnoseWithServer(DefaultX, ips, tid1, tid2, net);
  }

  /** The body of DiagnoseWithPublicSTUN for any server string in place of
      the built-in one. */
  method DiagnoseWithServer(raw: string, ips: Result<seq<IP>>, tid1: TransactionId, tid2: TransactionId, net: Network)
    returns (d: Diagnosis)
    modifies net
    ensures d == Classify(ParseStunUrl(raw), ips,
      ReflexiveOf(Probe(net, old(net.probes))), ReflexiveOf(Probe(net, old(net.probes) + 1)))
    ensures net.probes == old(net.probes) + ProbesIssued(ParseStunUrl(raw), ips, ReflexiveOf(Probe(net, old(net.probes))))
    ensures net.trace == old(net.trace) + DiagnosisEvents(ParseStunUrl(raw), ips, net, old(net.probes), tid1, tid2)
  {
    var parsed := ParseStunUrl(raw);
    if parsed.Failure? {
      return Failed(parsed.error);
    }
    var server := parsed.value;
    if ips.Failure? {
      return Failed(ips.error);
    }
    var ip4 := ips.value;
    if |ip4| == 0 {
      return Failed(NoIpv4OnInterface);
    }
    d := Probing(server, ip4, tid1, tid2, net);
  }

  /** The part of DiagnoseWithPublicSTUN after the local address is known:
      the first probe, the no-NAT check, then the second probe. */
  method Probing(server: Url, ip4: seq<IP>, tid1: TransactionId, tid2: TransactionId, net: Network) returns (d: Diagnosis)
    requires ip4 != []
    modifies net
    ensures d == Decide(ip4, ReflexiveOf(Probe(net, old(net.probes))), ReflexiveOf(Probe(net, old(net.probes) + 1)))
    ensures net.probes == old(net.probes) + ProbesAfter(ip4, ReflexiveOf(Probe(net, old(net.probes))))
    ensures net.trace == old(net.trace) + ProbingEvents(server, ip4, net, old(net.probes), tid1, tid2)
  {
    var res1 := DoStunRequest(server, ip4[0], NewMessage(BindingReq, tid1), net);
    var first := Reflect(res1);
    ghost var middle := net.trace;
    d := AfterFirstProbe(server, ip4, first, tid2, net);
    assert net.trace == old(net.trace) + (middle[|old(net.trace)|..] + net.trace[|middle|..]);
  }

  /** What follows the first probe: stop on its failure, report no NAT when
      its reflexive address is local, otherwise probe again and compare. */
  method AfterFirstProbe(server: Url, ip4: seq<IP>, first: Reflexive, tid2: TransactionId, net: Network) returns (d: Diagnosis)
    requires ip4 != []
    modifies net
    ensures d == Decide(ip4, first, ReflexiveOf(Probe(net, old(net.probes))))
    ensures net.probes == old(net.probes) + ProbesAfter(ip4, first) - 1
    ensures net.trace == old(net.trace) +
      if ProbesAfter(ip4, first) == 2
      then ProbeEvents(net, old(net.probes), server, ip4[0], NewMessage(BindingReq, tid2)) else []
  {
    if first.Stop? {
      return first.end;
    }
    var contained := ContainIp(ip4, first.ip);
    if contained {
      return Reported(NoNat);
    }
    d := SecondProbe(server, ip4[0], first.ip, tid2, net);
  }

  /** The second probe and the comparison of the two reflexive addresses. */
  method SecondProbe(server: Url, local: IP, first: IP, tid2: TransactionId, net: Network) returns (d: Diagnosis)
    modifies net
    ensures d == Compare(first, ReflexiveOf(Probe(net, old(net.probes))))
    ensures net.probes == old(net.probes) + 1
    ensures net.trace == old(net.trace) + ProbeEvents(net, old(net.probes), server, local, NewMessage(BindingReq, tid2))
  {
    var res2 := DoStunRequest(server, local, NewMessage(BindingReq, tid2), net);
    var second := Reflect(res2);
    if second.Stop? {
      return second.end;
    }
    if IpEqual(first, second.ip) {
      return Reported(EndpointIndependent);
    }
    return Reported(Undetermined);
  }

  /** The Extract-then-Parse step that follows each probe. */
  method Reflect(res: Result<MessageValue>) returns (r: Reflexive)
    ensures r == ReflexiveOf(res)
  {
    if res.Failure? {
      return Stop(Failed(res.error));
    }
    var lookup := Extract(res.value.attributes, AttrXorMappedAddress);
    if !lookup.exist {
      return Stop(Failed(NoXorMappedAddress));
    }
    var xadd := new XorMappedAddress();
    var s := xadd.Parse(lookup.attr, res.value.tid);
    return AfterParse(s, xadd.address);
  }

  // ---------------------------------------------------------------- properties

  /** The default server is a "host:port" string, so its parse never stops
      the diagnosis. */
  lemma DefaultServerIsHostPort()
    ensures ParseStunUrl(DefaultX) == Success(Url("stun", DefaultX))
  {
    DefaultServerParses();
  }

  /** doSTUNRequest returns the first error of dialling, exchanging and
      closing, and the response only when all three succeed. */
  lemma ProbeFirstError(net: Network, k: nat)
    ensures net.dial(k).Fails? ==> Probe(net, k) == Failure(net.dial(k).error)
    ensures net.dial(k) == Fine && net.exchange(k).Failure? ==> Probe(net, k) == net.exchange(k)
    ensures net.dial(k) == Fine && net.exchange(k).Success? && net.close(k).Fails? ==>
      Probe(net, k) == Failure(net.close(k).error)
    ensures Probe(net, k).Success? <==>
      net.dial(k) == Fine && net.exchange(k).Success? && net.close(k) == Fine
    ensures Probe(net, k).Success? ==> Probe(net, k) == net.exchange(k)
  {
  }

  /** A probe dials first, and closes the client only after Do succeeded. */
  lemma CloseOnlyAfterExchange(net: Network, k: nat, server: Url, local: IP, request: MessageValue)
    ensures var ev := ProbeEvents(net, k, server, local, request);
      1 <= |ev| <= 3 && ev[0] == Dialed(server, local)
      && (Closed in ev <==> net.dial(k) == Fine && net.exchange(k).Success?)
      && (Sent(request) in ev <==> net.dial(k) == Fine)
  {
  }

  /** The reflexive address of a probe is the decoded address of the first
      XOR-MAPPED-ADDRESS of its response; a failed probe or a response
      without one ends the diagnosis with the matching error. */
  lemma ReflexiveIsFirstXorAddress(probe: Result<MessageValue>)
    ensures probe.Failure? ==> ReflexiveOf(probe) == Stop(Failed(probe.error))
    ensures probe.Success? && !Extract(probe.value.attributes, AttrXorMappedAddress).exist ==>
      ReflexiveOf(probe) == Stop(Failed(NoXorMappedAddress))
    ensures ReflexiveOf(probe).Address? ==> probe.Success? && exists i ::
      FirstOfType(probe.value.attributes, AttrXorMappedAddress, i)
      && XorParseStatus(probe.value.attributes[i]) == Ok
      && ReflexiveOf(probe).ip == XorDecode(probe.value.attributes[i].value, probe.value.tid).address
  {
  }

  /** No local IPv4 address: an error, and no probe. */
  lemma EmptyInterfaceNoProbe(server: Url, first: Reflexive, second: Reflexive)
    ensures Classify(Success(server), Success([]), first, second) == Failed(NoIpv4OnInterface)
    ensures ProbesIssued(Success(server), Success([]), first) == 0
  {
  }

  /** A response without XOR-MAPPED-ADDRESS stops the diagnosis with an error;
      when it answers the first probe, the second is never issued. */
  lemma MissingAddressStops(server: Url, ips: seq<IP>, res: MessageValue, second: Reflexive)
    requires ips != []
    requires forall i :: 0 <= i < |res.attributes| ==> res.attributes[i].typ != AttrXorMappedAddress
    ensures ReflexiveOf(Success(res)) == Stop(Failed(NoXorMappedAddress))
    ensures Classify(Success(server), Success(ips), ReflexiveOf(Success(res)), second) == Failed(NoXorMappedAddress)
    ensures ProbesIssued(Success(server), Success(ips), ReflexiveOf(Success(res))) == 1
  {
  }

  /** Any error of a probe is what the diagnosis returns. */
  lemma ProbeErrorsPassThrough(server: Url, ips: seq<IP>, e1: Error, e2: Error, first: Reflexive)
    requires ips != []
    ensures Classify(Success(server), Success(ips), ReflexiveOf(Failure(e1)), ReflexiveOf(Failure(e2))) == Failed(e1)
    ensures first.Address? && !(exists i :: 0 <= i < |ips| && IpEqual(ips[i], first.ip))
      ==> Classify(Success(server), Success(ips), first, ReflexiveOf(Failure(e2))) == Failed(e2)
  {
  }

  /** A reflexive address that is a local address means no NAT, decided by the
      first probe alone. */
  lemma LocalReflexiveMeansNoNat(server: Url, ips: seq<IP>, first: Reflexive, second: Reflexive, i: nat)
    requires i < |ips| && first.Address? && IpEqual(ips[i], first.ip)
    ensures Classify(Success(server), Success(ips), first, second) == Reported(NoNat)
    ensures ProbesIssued(Success(server), Success(ips), first) == 1
  {
  }

  /** Past the first probe, Endpoint-Independent Mapping is reported exactly
      when the two reflexive addresses are Equal; the ports play no part. */
  lemma EndpointIndependentIff(server: Url, ips: seq<IP>, first: Reflexive, second: Reflexive)
    requires ips != [] && first.Address? && second.Address?
    requires forall i :: 0 <= i < |ips| ==> !IpEqual(ips[i], first.ip)
    ensures ProbesIssued(Success(server), Success(ips), first) == 2
    ensures Classify(Success(server), Success(ips), first, second) == Reported(EndpointIndependent)
      <==> IpEqual(first.ip, second.ip)
    ensures Classify(Success(server), Success(ips), first, second) != Reported(EndpointIndependent)
      ==> Classify(Success(server), Success(ips), first, second) == Reported(Undetermined)
  {
  }

  /** Every probe goes to the same server from the first local address. */
  lemma ProbesShareServerAndAddress(server: Url, ips: Result<seq<IP>>, net: Network, k: nat, tid1: TransactionId, tid2: TransactionId)
    ensures forall e :: e in DiagnosisEvents(Success(server), ips, net, k, tid1, tid2) && e.Dialed? ==>
      ips.Success? && ips.value != [] && e == Dialed(server, ips.value[0])
  {
    if ips.Success? && ips.value != [] {
      var local := ips.value[0];
      var first := ProbeEvents(net, k, server, local, NewMessage(BindingReq, tid1));
      var second := ProbeEvents(net, k + 1, server, local, NewMessage(BindingReq, tid2));
      ProbeDialsOnce(net, k, server, local, NewMessage(BindingReq, tid1));
      ProbeDialsOnce(net, k + 1, server, local, NewMessage(BindingReq, tid2));
      assert DiagnosisEvents(Success(server), ips, net, k, tid1, tid2) <= first + second;
    }
  }

  /** A probe dials once, first, and only the server and address it is given. */
  lemma ProbeDialsOnce(net: Network, k: nat, server: Url, local: IP, request: MessageValue)
    ensures var ev := ProbeEvents(net, k, server, local, request);
      ev[0] == Dialed(server, local) && forall i :: 0 < i < |ev| ==> !ev[i].Dialed?
  {
  }
}
