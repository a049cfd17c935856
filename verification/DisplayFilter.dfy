/** Display filters on decoded layers and on index columns, and exactly when the columns tell the truth. */
module DisplayFilter {
  import opened Bytes
  import opened Conversation
  import opened JsStrings

  /** One term of a filter: a protocol name, or `selector == value`. */
  datatype Term = Protocol(name: string) | Field(selector: string, value: string)

  predicate IsTcp(id: string) { id == "tcp" }

  predicate IsUdp(id: string) { id == "udp" }

  // ---- on decoded layers ----

  function FieldOf(l: Option<Layer>, name: string): Option<string>
  {
    if l.Some? && name in l.value.data then Some(l.value.data[name]) else None
  }

  predicate AnyEquals(value: string, a: Option<string>, b: Option<string>)
  {
    a == Some(value) || b == Some(value)
  }

  predicate Has(layers: seq<Layer>, id: string) { exists k :: 0 <= k < |layers| && layers[k].id == id }

  predicate Matches(layers: seq<Layer>, t: Term)
  {
    if t.Protocol? then Has(layers, t.name)
    else
      var ip, tcp, udp, eth := Find(layers, IsIp), Find(layers, IsTcp), Find(layers, IsUdp), Find(layers, IsEth);
      match t.selector
      case "ip.addr" => AnyEquals(t.value, FieldOf(ip, "sip"), FieldOf(ip, "dip"))
      case "ip.src" => FieldOf(ip, "sip") == Some(t.value)
      case "ip.dst" => FieldOf(ip, "dip") == Some(t.value)
      case "tcp.port" => AnyEquals(t.value, FieldOf(tcp, "srcport"), FieldOf(tcp, "dstport"))
      case "tcp.srcport" => FieldOf(tcp, "srcport") == Some(t.value)
      case "tcp.dstport" => FieldOf(tcp, "dstport") == Some(t.value)
      case "udp.port" => AnyEquals(t.value, FieldOf(udp, "srcport"), FieldOf(udp, "dstport"))
      case "udp.srcport" => FieldOf(udp, "srcport") == Some(t.value)
      case "udp.dstport" => FieldOf(udp, "dstport") == Some(t.value)
      case "eth.addr" => AnyEquals(t.value, FieldOf(eth, "smac"), FieldOf(eth, "dmac"))
      case "eth.src" => FieldOf(eth, "smac") == Some(t.value)
      case "eth.dst" => FieldOf(eth, "dmac") == Some(t.value)
      case _ => false
  }

  predicate MatchesFilter(layers: seq<Layer>, expression: seq<Term>)
  {
    forall k :: 0 <= k < |expression| ==> Matches(layers, expression[k])
  }

  // ---- on index columns ----

  function IpOf(endpoint: string, proto: string): string
  {
    if proto == "ip" then endpoint
    else
      var colon := LastIndexOf(endpoint, ':');
      if colon < 0 then endpoint else endpoint[..colon]
  }

  function PortOf(endpoint: string): string
  {
    var colon := LastIndexOf(endpoint, ':');
    if colon < 0 then "" else endpoint[colon + 1..]
  }

  predicate CarriesIp(proto: string) { proto == "tcp" || proto == "udp" || proto == "ip" }

  function IfProto(applies: bool, holds: bool): Option<bool>
  {
    Some(applies && holds)
  }

  /** A field term from the key's parts and the direction bit. */
  function FieldEval(selector: string, value: string, parts: Parts, direction: int): Option<bool>
  {
    var proto, source, destination := parts.protocol, SourceOf(parts, direction), DestinationOf(parts, direction);
    match selector
    case "ip.addr" => IfProto(CarriesIp(proto), IpOf(parts.a, proto) == value || IpOf(parts.b, proto) == value)
    case "ip.src" => IfProto(CarriesIp(proto), IpOf(source, proto) == value)
    case "ip.dst" => IfProto(CarriesIp(proto), IpOf(destination, proto) == value)
    case "tcp.port" => IfProto(proto == "tcp", PortOf(parts.a) == value || PortOf(parts.b) == value)
    case "tcp.srcport" => IfProto(proto == "tcp", PortOf(source) == value)
    case "tcp.dstport" => IfProto(proto == "tcp", PortOf(destination) == value)
    case "udp.port" => IfProto(proto == "udp", PortOf(parts.a) == value || PortOf(parts.b) == value)
    case "udp.srcport" => IfProto(proto == "udp", PortOf(source) == value)
    case "udp.dstport" => IfProto(proto == "udp", PortOf(destination) == value)
    case "eth.addr" => IfProto(proto == "eth", parts.a == value || parts.b == value)
    case "eth.src" => IfProto(proto == "eth", source == value)
    case "eth.dst" => IfProto(proto == "eth", destination == value)
    case _ => None
  }

  /** A verdict from the columns alone, or None when the frame has to be decoded. */
  function IndexableEval(t: Term, key: Option<string>, topProtocol: string, direction: int): Option<bool>
  {
    if t.Protocol? then
      if t.name == "tcp" || t.name == "udp" then Some(key.Some? && ParseKey(key.value).protocol == t.name)
      else if t.name == "arp" then Some(topProtocol == "arp")
      else None
    else if key.None? then Some(false)
    else FieldEval(t.selector, t.value, ParseKey(key.value), direction)
  }

  /** The AND of the verdicts: false wins, then doubt. */
  function IndexVerdict(expression: seq<Term>, key: Option<string>, topProtocol: string, direction: int): Option<bool>
  {
    if exists k ::
      0 <= k < |expression| && IndexableEval(expression[k], key, topProtocol, direction) == Some(false) then Some(false)
    else if exists k ::
      0 <= k < |expression| && IndexableEval(expression[k], key, topProtocol, direction) == None then None
    else Some(true)
  }

  method MatchesIndexed(expression: seq<Term>, key: Option<string>, topProtocol: string, direction: int)
    returns (r: Option<bool>)
    ensures r == IndexVerdict(expression, key, topProtocol, direction)
  {
    hide IndexableEval;
    var needsDecode, k := false, 0;
    while k < |expression|
      invariant k <= |expression|
      invariant forall j :: 0 <= j < k ==> IndexableEval(expression[j], key, topProtocol, direction) != Some(false)
      invariant needsDecode
        <==> exists j :: 0 <= j < k && IndexableEval(expression[j], key, topProtocol, direction) == None
    {
      var decided := IndexableEval(expression[k], key, topProtocol, direction);
      if decided == Some(false) { return Some(false); }
      if decided == None { needsDecode := true; }
      k := k + 1;
    }
    r := if needsDecode then None else Some(true);
  }

  // ---- when the columns are exact ----

  function KeyOf(layers: seq<Layer>): Option<string>
  {
    var f := FlowOf(layers);
    if f.Some? then Some(CanonicalKey(f.value)) else None
  }

  function Verdict(t: Term, layers: seq<Layer>): Option<bool>
  {
    IndexableEval(t, KeyOf(layers), TopProtocol(layers), Direction(FlowOf(layers)))
  }

  /** A layer carries two address fields, free of the key's separator. */
  predicate CarriesPair(l: Layer, a: string, b: string)
  {
    a in l.data && b in l.data && '|' !in l.data[a] && '|' !in l.data[b]
  }

  predicate Colonless(l: Layer)
    requires "srcport" in l.data && "dstport" in l.data
  {
    ':' !in l.data["srcport"] && ':' !in l.data["dstport"]
  }

  /** What decoders always produce: addresses and ports present, printed without the separators. */
  predicate Legible(layers: seq<Layer>)
  {
    var ip, transport, eth := Find(layers, IsIp), Find(layers, IsTransport), Find(layers, IsEth);
    && (ip.Some? ==> CarriesPair(ip.value, "sip", "dip"))
    && (eth.Some? ==> CarriesPair(eth.value, "smac", "dmac"))
    && (transport.Some? ==> CarriesPair(transport.value, "srcport", "dstport") && Colonless(transport.value))
  }

  /** The innermost protocol layer, or for want of one the innermost layer, has this id. */
  predicate TopIs(layers: seq<Layer>,
                  id: string) { exists k :: 0 <= k < |layers| && Top(layers, k) && layers[k].id == id }

  /** Transport only above IP, not both transports, and ARP present exactly when it is innermost. */
  predicate Regular(layers: seq<Layer>)
  {
    && (Has(layers, "tcp") || Has(layers, "udp") ==> Has(layers, "ipv4") || Has(layers, "ipv6"))
    && !(Has(layers, "tcp") && Has(layers, "udp"))
    && (Has(layers, "arp") <==> TopIs(layers, "arp"))
  }

  lemma TopIsIff(layers: seq<Layer>, id: string)
    requires id != "unknown"
    ensures TopIs(layers, id) <==> TopProtocol(layers) == id
  {
    hide TopProtocol, Top;
    TopProtocolIs(layers);
  }

  /** Everything but the Ethernet selectors, which the two filters read differently on IP frames. */
  predicate InScope(t: Term)
  {
    t.Field? ==> t.selector != "eth.addr" && t.selector != "eth.src" && t.selector != "eth.dst"
  }

  lemma EndpointReads(ip: string, port: string)
    requires ':' !in port
    ensures PortOf(ip + ":" + port) == port
    ensures forall proto :: proto != "ip" ==> IpOf(ip + ":" + port, proto) == ip
  {
    var s := ip + ":" + port;
    assert s[|ip|] == ':';
    assert forall k :: |ip| < k < |s| ==> s[k] == port[k - |ip| - 1] && port[k - |ip| - 1] in port;
    assert LastIndexOf(s, ':') == |ip|;
    assert s[..|ip|] == ip && s[|ip| + 1..] == port;
  }

  lemma PlainPair(a: string, b: string)
    requires '|' !in a && '|' !in b
    ensures '|' !in a + ":" + b
  {
  }

  lemma LegibleIsPlain(layers: seq<Layer>)
    requires Legible(layers) && FlowOf(layers).Some?
    ensures Plain(FlowOf(layers).value)
  {
    var ip, transport := Find(layers, IsIp), Find(layers, IsTransport);
    if ip.Some? && transport.Some? {
      PlainPair(ip.value.data["sip"], transport.value.data["srcport"]);
      PlainPair(ip.value.data["dip"], transport.value.data["dstport"]);
    }
  }

  lemma {:induction false} FindFinds(layers: seq<Layer>, test: string -> bool)
    ensures Find(layers, test).Some? <==> exists k :: 0 <= k < |layers| && test(layers[k].id)
    decreases |layers|
  {
    if layers != [] {
      FindFinds(layers[1..], test);
      assert forall k :: 0 <= k < |layers| - 1 ==> layers[1..][k] == layers[k + 1];
      if exists k :: 0 <= k < |layers| && test(layers[k].id) {
        var k :| 0 <= k < |layers| && test(layers[k].id);
        if k > 0 { assert test(layers[1..][k - 1].id); }
      }
    }
  }

  /** The flow of a regular frame tells which transport it has. */
  lemma TransportShows(layers: seq<Layer>)
    ensures var f := FlowOf(layers);
      && (f.Some? && CarriesIp(f.value.protocol) <==> Has(layers, "ipv4") || Has(layers, "ipv6"))
      && (f.Some? && f.value.protocol == "tcp" ==> Has(layers, "tcp"))
      && (f.Some? && f.value.protocol == "udp" ==> Has(layers, "udp"))
      && (Has(layers, "tcp") && !Has(layers, "udp") && f.Some? && CarriesIp(f.value.protocol) ==>
            f.value.protocol == "tcp")
      && (Has(layers, "udp") && !Has(layers, "tcp") && f.Some? && CarriesIp(f.value.protocol) ==>
            f.value.protocol == "udp")
  {
    hide Find;
    FindFinds(layers, IsIp);
    FindFinds(layers, IsTransport);
    var transport := Find(layers, IsTransport);
    if transport.Some? {
      var k :| 0 <= k < |layers| && layers[k] == transport.value;
      assert Has(layers, transport.value.id);
    }
    if k :| 0 <= k < |layers| && IsIp(layers[k].id) {
      assert Has(layers, layers[k].id);
    }
  }

  /** Without the other transport, the first transport layer is the first of its kind. */
  lemma {:induction false} FirstOfKind(layers: seq<Layer>)
    ensures !Has(layers, "udp") ==> Find(layers, IsTcp) == Find(layers, IsTransport)
    ensures !Has(layers, "tcp") ==> Find(layers, IsUdp) == Find(layers, IsTransport)
    decreases |layers|
  {
    if layers != [] {
      FirstOfKind(layers[1..]);
      HasTail(layers, "udp");
      HasTail(layers, "tcp");
    }
  }

  lemma HasTail(layers: seq<Layer>, id: string)
    requires layers != []
    ensures Has(layers, id) <==> layers[0].id == id || Has(layers[1..], id)
  {
    if Has(layers[1..], id) {
      var k :| 0 <= k < |layers[1..]| && layers[1..][k].id == id;
      assert layers[k + 1].id == id;
    }
    if k :| 0 <= k < |layers| && layers[k].id == id {
      if k > 0 { assert layers[1..][k - 1].id == id; }
    }
  }

  /** Which endpoint is listed first does not matter once the direction is known. */
  lemma EvalByFlow(selector: string, value: string, parts: Parts, direction: int)
    ensures FieldEval(selector, value, parts, direction)
         == FieldEval(selector, value,
                      Parts(parts.protocol, SourceOf(parts, direction), DestinationOf(parts, direction)), 1)
  {
    hide IpOf, PortOf;
  }

  predicate IpSelector(s: string) { s == "ip.addr" || s == "ip.src" || s == "ip.dst" }

  predicate TcpSelector(s: string) { s == "tcp.port" || s == "tcp.srcport" || s == "tcp.dstport" }

  predicate UdpSelector(s: string) { s == "udp.port" || s == "udp.srcport" || s == "udp.dstport" }

  lemma IpEndpoints(layers: seq<Layer>)
    requires Legible(layers) && FlowOf(layers).Some? && CarriesIp(FlowOf(layers).value.protocol)
    ensures var f, ip := FlowOf(layers).value, Find(layers, IsIp);
      && FieldOf(ip, "sip") == Some(IpOf(f.source, f.protocol))
        && FieldOf(ip, "dip") == Some(IpOf(f.destination, f.protocol))
  {
    hide Find, IpOf, PortOf;
    var ip, transport := Find(layers, IsIp), Find(layers, IsTransport);
    if transport.Some? {
      EndpointReads(ip.value.data["sip"], transport.value.data["srcport"]);
      EndpointReads(ip.value.data["dip"], transport.value.data["dstport"]);
    } else {
      BareIp(ip.value.data["sip"]);
      BareIp(ip.value.data["dip"]);
    }
  }

  lemma BareIp(endpoint: string)
    ensures IpOf(endpoint, "ip") == endpoint
  {
  }

  lemma PortEndpoints(layers: seq<Layer>)
    requires Legible(layers) && FlowOf(layers).Some? && IsTransport(FlowOf(layers).value.protocol)
    ensures var f, transport := FlowOf(layers).value, Find(layers, IsTransport);
      && FieldOf(transport, "srcport") == Some(PortOf(f.source))
        && FieldOf(transport, "dstport") == Some(PortOf(f.destination))
  {
    hide Find, IpOf, PortOf;
    var ip, transport := Find(layers, IsIp), Find(layers, IsTransport);
    EndpointReads(ip.value.data["sip"], transport.value.data["srcport"]);
    EndpointReads(ip.value.data["dip"], transport.value.data["dstport"]);
  }

  lemma IpTermExact(layers: seq<Layer>, selector: string, value: string)
    requires Legible(layers) && IpSelector(selector) && FlowOf(layers).Some?
    ensures var f := FlowOf(layers).value;
      FieldEval(selector, value, Parts(f.protocol, f.source, f.destination), 1)
        == Some(Matches(layers, Field(selector, value)))
  {
    hide Find, IpOf, PortOf, Legible, FlowOf;
    var f := FlowOf(layers).value;
    if CarriesIp(f.protocol) {
      IpEndpoints(layers);
    } else {
      TransportShows(layers);
      NoSuch(layers, IsIp);
    }
  }

  lemma NoSuch(layers: seq<Layer>, test: string -> bool)
    requires forall k :: 0 <= k < |layers| ==> !test(layers[k].id)
    ensures Find(layers, test) == None
  {
    FindFinds(layers, test);
  }

  lemma TcpTermExact(layers: seq<Layer>, selector: string, value: string)
    requires Legible(layers) && Regular(layers) && TcpSelector(selector) && FlowOf(layers).Some?
    ensures var f := FlowOf(layers).value;
      FieldEval(selector, value, Parts(f.protocol, f.source, f.destination), 1)
        == Some(Matches(layers, Field(selector, value)))
  {
    hide Find, IpOf, PortOf, Legible, FlowOf, TopProtocol;
    TransportShows(layers);
    if FlowOf(layers).value.protocol == "tcp" {
      PortEndpoints(layers);
      FirstOfKind(layers);
    } else {
      NoSuch(layers, IsTcp);
    }
  }

  lemma UdpTermExact(layers: seq<Layer>, selector: string, value: string)
    requires Legible(layers) && Regular(layers) && UdpSelector(selector) && FlowOf(layers).Some?
    ensures var f := FlowOf(layers).value;
      FieldEval(selector, value, Parts(f.protocol, f.source, f.destination), 1)
        == Some(Matches(layers, Field(selector, value)))
  {
    hide Find, IpOf, PortOf, Legible, FlowOf, TopProtocol;
    TransportShows(layers);
    if FlowOf(layers).value.protocol == "udp" {
      PortEndpoints(layers);
      FirstOfKind(layers);
    } else {
      NoSuch(layers, IsUdp);
    }
  }

  /** On a frame without a flow no field term holds. */
  lemma NoFlowNoField(layers: seq<Layer>, selector: string, value: string)
    requires FlowOf(layers).None? && Regular(layers) && InScope(Field(selector, value))
    ensures !Matches(layers, Field(selector, value))
  {
    hide Find, TopProtocol;
    TransportShows(layers);
    NoSuch(layers, IsIp);
    NoSuch(layers, IsTcp);
    NoSuch(layers, IsUdp);
  }

  /** On a regular frame a verdict from the columns is what the decoded layers say. */
  lemma VerdictIsRight(layers: seq<Layer>, t: Term)
    requires Legible(layers) && Regular(layers) && InScope(t) && Verdict(t, layers).Some?
    ensures Verdict(t, layers) == Some(Matches(layers, t))
  {
    hide Find, IpOf, PortOf, Legible, FlowOf, TopProtocol, ParseKey, CanonicalKey, Regular, FieldEval, Matches;
    var f := FlowOf(layers);
    if f.Some? {
      LegibleIsPlain(layers);
      KeyAndDirection(f.value);
      KeyParses(f.value);
    }
    if t.Protocol? {
      ProtocolVerdict(layers, t.name);
    } else if f.None? {
      NoFlowNoField(layers, t.selector, t.value);
    } else {
      EvalByFlow(t.selector, t.value, ParseKey(CanonicalKey(f.value)), Direction(f));
      KnownSelector(t.selector, t.value, ParseKey(CanonicalKey(f.value)), Direction(f));
      if IpSelector(t.selector) { IpTermExact(layers, t.selector, t.value); }
      else if TcpSelector(t.selector) { TcpTermExact(layers, t.selector, t.value); }
      else if UdpSelector(t.selector) { UdpTermExact(layers, t.selector, t.value); }
    }
  }

  lemma KnownSelector(selector: string, value: string, parts: Parts, direction: int)
    requires FieldEval(selector, value, parts, direction).Some? && InScope(Field(selector, value))
    ensures IpSelector(selector) || TcpSelector(selector) || UdpSelector(selector)
  {
  }

  lemma ProtocolVerdict(layers: seq<Layer>, name: string)
    requires Legible(layers) && Regular(layers) && Verdict(Protocol(name), layers).Some?
    ensures Verdict(Protocol(name), layers) == Some(Matches(layers, Protocol(name)))
  {
    hide Find, Legible, FlowOf, TopProtocol, ParseKey, CanonicalKey, TopIs;
    TransportShows(layers);
    TopIsIff(layers, "arp");
    var f := FlowOf(layers);
    if f.Some? {
      LegibleIsPlain(layers);
      KeyParses(f.value);
    }
  }

  /** Column verdicts are right for every term in scope exactly on regular frames. */
  lemma ColumnsExactIff(layers: seq<Layer>)
    requires Legible(layers)
    ensures Regular(layers)
       <==> forall t :: InScope(t) && Verdict(t, layers).Some? ==> Verdict(t, layers) == Some(Matches(layers, t))
  {
    hide Find, Legible, FlowOf, TopProtocol, Verdict, Matches, Regular;
    if Regular(layers) {
      forall t | InScope(t) && Verdict(t, layers).Some? ensures Verdict(t, layers) == Some(Matches(layers, t)) {
        VerdictIsRight(layers, t);
      }
    }
    if forall t :: InScope(t) && Verdict(t, layers).Some? ==> Verdict(t, layers) == Some(Matches(layers, t)) {
      assert InScope(Protocol("tcp")) && InScope(Protocol("udp")) && InScope(Protocol("arp"));
      RightMeansRegular(layers);
    }
  }

  lemma RightMeansRegular(layers: seq<Layer>)
    requires Legible(layers)
    requires forall name ::
      (name == "tcp" || name == "udp" || name == "arp") && Verdict(Protocol(name), layers).Some? ==>
      Verdict(Protocol(name), layers) == Some(Matches(layers, Protocol(name)))
    ensures Regular(layers)
  {
    hide Find, Legible, FlowOf, TopProtocol, ParseKey, CanonicalKey, TopIs;
    TransportShows(layers);
    TopIsIff(layers, "arp");
    var f := FlowOf(layers);
    if f.Some? {
      LegibleIsPlain(layers);
      KeyParses(f.value);
    }
    assert Verdict(Protocol("tcp"), layers).Some? && Verdict(Protocol("udp"), layers).Some?
      && Verdict(Protocol("arp"), layers).Some?;
  }

  /** Hence a filter decided from the columns is decided as the decoded layers decide it. */
  lemma IndexedIsRight(layers: seq<Layer>, expression: seq<Term>)
    requires Legible(layers) && Regular(layers) && forall k :: 0 <= k < |expression| ==> InScope(expression[k])
    ensures var r := IndexVerdict(expression, KeyOf(layers), TopProtocol(layers), Direction(FlowOf(layers)));
      r.Some? ==> r.value == MatchesFilter(layers, expression)
  {
    hide Find, Legible, FlowOf, TopProtocol, Matches, Regular, IndexableEval, KeyOf;
    forall k | 0 <= k < |expression| && Verdict(expression[k], layers).Some?
      ensures Verdict(expression[k], layers) == Some(Matches(layers, expression[k]))
    {
      VerdictIsRight(layers, expression[k]);
    }
  }

  // ---- what the selectors mean ----

  predicate Carries(l: Layer, name: string, value: string) { name in l.data && l.data[name] == value }

  /** The first layer of a family carries this value in this field. */
  predicate Says(layers: seq<Layer>, test: string -> bool, name: string, value: string)
  {
    exists k :: 0 <= k < |layers| && First(layers, test, k) && Carries(layers[k], name, value)
  }

  /** The selectors of a family read the fields of its first layer, and hold of no frame without one. */
  lemma FamilyRead(layers: seq<Layer>, test: string -> bool, name: string, value: string)
    ensures FieldOf(Find(layers, test), name) == Some(value) <==> Says(layers, test, name, value)
  {
    hide Find;
    if k :| 0 <= k < |layers| && First(layers, test, k) && Carries(layers[k], name, value) {
      FindSkips(layers, test, k);
    }
    if FieldOf(Find(layers, test), name) == Some(value) {
      var k := FirstIndex(layers, test);
      FindSkips(layers, test, k);
      assert First(layers, test, k) && Carries(layers[k], name, value);
    }
  }

  /** What each selector asks of the decoded layers: source and destination of the first layer of its family. */
  lemma SelectorsMean(layers: seq<Layer>, v: string)
    ensures Matches(layers, Field("ip.src", v)) <==> Says(layers, IsIp, "sip", v)
    ensures Matches(layers, Field("ip.dst", v)) <==> Says(layers, IsIp, "dip", v)
    ensures Matches(layers, Field("ip.addr", v)) <==> Says(layers, IsIp, "sip", v) || Says(layers, IsIp, "dip", v)
    ensures Matches(layers, Field("tcp.srcport", v)) <==> Says(layers, IsTcp, "srcport", v)
    ensures Matches(layers, Field("tcp.dstport", v)) <==> Says(layers, IsTcp, "dstport", v)
    ensures Matches(layers, Field("tcp.port", v))
       <==> Says(layers, IsTcp, "srcport", v) || Says(layers, IsTcp, "dstport", v)
    ensures Matches(layers, Field("udp.srcport", v)) <==> Says(layers, IsUdp, "srcport", v)
    ensures Matches(layers, Field("udp.dstport", v)) <==> Says(layers, IsUdp, "dstport", v)
    ensures Matches(layers, Field("udp.port", v))
       <==> Says(layers, IsUdp, "srcport", v) || Says(layers, IsUdp, "dstport", v)
    ensures Matches(layers, Field("eth.src", v)) <==> Says(layers, IsEth, "smac", v)
    ensures Matches(layers, Field("eth.dst", v)) <==> Says(layers, IsEth, "dmac", v)
    ensures Matches(layers, Field("eth.addr", v)) <==> Says(layers, IsEth, "smac", v) || Says(layers, IsEth, "dmac", v)
  {
    hide Find, FieldOf, Says;
    FamilyRead(layers, IsIp, "sip", v);
    FamilyRead(layers, IsIp, "dip", v);
    FamilyRead(layers, IsTcp, "srcport", v);
    FamilyRead(layers, IsTcp, "dstport", v);
    FamilyRead(layers, IsUdp, "srcport", v);
    FamilyRead(layers, IsUdp, "dstport", v);
    FamilyRead(layers, IsEth, "smac", v);
    FamilyRead(layers, IsEth, "dmac", v);
  }

  // ---- Ethernet selectors ----

  predicate EthSelector(s: string) { s == "eth.addr" || s == "eth.src" || s == "eth.dst" }

  /** From the columns an Ethernet selector is right on frames without IP, and false on all others. */
  lemma EthVerdict(layers: seq<Layer>, selector: string, value: string)
    requires Legible(layers) && EthSelector(selector)
    ensures Verdict(Field(selector, value), layers)
      == Some(!Has(layers, "ipv4") && !Has(layers, "ipv6") && Matches(layers, Field(selector, value)))
  {
    hide Find, IpOf, PortOf, Legible, TopProtocol, ParseKey, CanonicalKey;
    TransportShows(layers);
    var f := FlowOf(layers);
    if f.Some? {
      LegibleIsPlain(layers);
      KeyAndDirection(f.value);
      KeyParses(f.value);
      EvalByFlow(selector, value, ParseKey(CanonicalKey(f.value)), Direction(f));
      EthEndpoints(layers);
    }
  }

  lemma EthEndpoints(layers: seq<Layer>)
    requires Legible(layers)
    ensures var f, ip, eth := FlowOf(layers), Find(layers, IsIp), Find(layers, IsEth);
      && (f.Some? && f.value.protocol == "eth" ==> ip.None? && eth.Some?)
      && (ip.None? && eth.Some? ==>
            f == Some(Flow("eth", eth.value.data["smac"], eth.value.data["dmac"]))
            && FieldOf(eth, "smac") == Some(f.value.source) && FieldOf(eth, "dmac") == Some(f.value.destination))
  {
    hide Find;
  }

  /** Hence it is decided wrongly exactly on IP frames that match. */
  lemma EthWrongIff(layers: seq<Layer>, selector: string, value: string)
    requires Legible(layers) && EthSelector(selector)
    ensures Verdict(Field(selector, value), layers) != Some(Matches(layers, Field(selector, value)))
       <==> (Has(layers, "ipv4") || Has(layers, "ipv6")) && Matches(layers, Field(selector, value))
  {
    hide Find, Legible, Verdict, Matches;
    EthVerdict(layers, selector, value);
  }

  /** An IPv4 frame from station "m" matches `eth.src == m` when decoded, and its columns say that it does not. */
  lemma EthSelectorMisses() returns (layers: seq<Layer>)
    ensures Legible(layers) && Matches(layers, Field("eth.src", "m"))
    ensures Verdict(Field("eth.src", "m"), layers) == Some(false)
  {
    var eth := Layer("eth", true, map["smac" := "m", "dmac" := "n"]);
    var ip := Layer("ipv4", true, map["sip" := "1", "dip" := "2"]);
    layers := [eth, ip];
    FindSkips(layers, IsEth, 0);
    FindSkips(layers, IsIp, 1);
    FindNone(layers, IsTransport);
    assert layers[1].id == "ipv4";
    EthVerdict(layers, "eth.src", "m");
  }

  // ---- which terms the columns decide ----

  /** Three protocols, and the fields of four families. */
  predicate OnColumns(t: Term)
  {
    match t
    case Protocol(name) => name == "tcp" || name == "udp" || name == "arp"
    case Field(selector, _) =>
      IpSelector(selector) || TcpSelector(selector) || UdpSelector(selector) || EthSelector(selector)
  }

  /** A term is decided without decoding exactly when it is one of those, or a field term on a frame without a flow. */
  lemma DecidedIff(layers: seq<Layer>, t: Term)
    ensures Verdict(t, layers).Some? <==> OnColumns(t) || (t.Field? && FlowOf(layers).None?)
  {
    hide FlowOf, TopProtocol, ParseKey, CanonicalKey, IpOf, PortOf;
  }
}
