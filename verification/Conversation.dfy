/** Flows, canonical conversation keys, and layers rebuilt from a key and a direction bit. */
module Conversation {
  import opened Bytes
  import opened JsStrings

  /** A decoded layer, its fields in printed form; an absent field prints as JavaScript prints undefined. */
  datatype Layer = Layer(id: string, isProtocol: bool, data: map<string, string>)

  function Printed(l: Layer, name: string): string
  {
    if name in l.data then l.data[name] else "undefined"
  }

  datatype Flow = Flow(protocol: string, source: string, destination: string)

  predicate IsIp(id: string) { id == "ipv4" || id == "ipv6" }

  predicate IsTransport(id: string) { id == "tcp" || id == "udp" }

  predicate IsEth(id: string) { id == "eth" }

  /** `layers.find` by a test on the id. */
  function Find(layers: seq<Layer>, test: string -> bool): (r: Option<Layer>)
    ensures r.Some? ==> r.value in layers && test(r.value.id)
    ensures r.None? ==> forall l :: l in layers ==> !test(l.id)
  {
    if layers == [] then None else if test(layers[0].id) then Some(layers[0]) else Find(layers[1..], test)
  }

  function FlowOf(layers: seq<Layer>): Option<Flow>
  {
    var ip := Find(layers, IsIp);
    if ip.Some? then
      var source, destination := Printed(ip.value, "sip"), Printed(ip.value, "dip");
      var transport := Find(layers, IsTransport);
      if transport.Some? then
        Some(Flow(transport.value.id, source + ":" + Printed(transport.value, "srcport"),
                  destination + ":" + Printed(transport.value, "dstport")))
      else Some(Flow("ip", source, destination))
    else
      var eth := Find(layers, IsEth);
      if eth.Some? then Some(Flow("eth", Printed(eth.value, "smac"), Printed(eth.value, "dmac"))) else None
  }

  predicate Forward(f: Flow) { Leq(f.source, f.destination) }

  function EndpointA(f: Flow): string { if Forward(f) then f.source else f.destination }

  function EndpointB(f: Flow): string { if Forward(f) then f.destination else f.source }

  function CanonicalKey(f: Flow): string
  {
    f.protocol + "|" + EndpointA(f) + "|" + EndpointB(f)
  }

  /** The index's direction bit. */
  function Direction(f: Option<Flow>): int
  {
    if f.Some? then (if Forward(f.value) then 1 else 0) else 1
  }

  /** The innermost layer that is a protocol, else the innermost layer. */
  function TopProtocol(layers: seq<Layer>): string
  {
    var i := LastProtocol(layers);
    if i.Some? then i.value else if layers != [] then layers[|layers| - 1].id else "unknown"
  }

  function LastProtocol(layers: seq<Layer>): Option<string>
  {
    if layers == [] then None
    else if layers[|layers| - 1].isProtocol then Some(layers[|layers| - 1].id)
    else LastProtocol(layers[..|layers| - 1])
  }

  /** Layer `k` is the innermost that is a protocol; where none is, the innermost. */
  predicate Top(layers: seq<Layer>, k: nat)
    requires k < |layers|
  {
    && (forall j :: k < j < |layers| ==> !layers[j].isProtocol)
    && (layers[k].isProtocol || (k == |layers| - 1 && forall j :: 0 <= j < |layers| ==> !layers[j].isProtocol))
  }

  lemma {:induction false} LastProtocolIs(layers: seq<Layer>)
    ensures LastProtocol(layers).None? ==> forall j :: 0 <= j < |layers| ==> !layers[j].isProtocol
    ensures LastProtocol(layers).Some? ==>
      exists k ::
        0 <= k < |layers| && layers[k].isProtocol && layers[k].id == LastProtocol(layers).value
        && forall j :: k < j < |layers| ==> !layers[j].isProtocol
    decreases |layers|
  {
    if layers != [] && !layers[|layers| - 1].isProtocol {
      var front := layers[..|layers| - 1];
      LastProtocolIs(front);
      assert forall j :: 0 <= j < |front| ==> front[j] == layers[j];
    }
  }

  /** The top protocol is the id of the top layer; only a frame without layers has none. */
  lemma TopProtocolIs(layers: seq<Layer>)
    ensures forall k :: 0 <= k < |layers| && Top(layers, k) ==> TopProtocol(layers) == layers[k].id
    ensures if layers == [] then TopProtocol(layers) == "unknown" else exists k :: 0 <= k < |layers| && Top(layers, k)
  {
    LastProtocolIs(layers);
    if LastProtocol(layers).Some? {
      var k :| 0 <= k < |layers| && layers[k].isProtocol && layers[k].id == LastProtocol(layers).value
        && forall j :: k < j < |layers| ==> !layers[j].isProtocol;
      assert Top(layers, k);
      assert forall m :: 0 <= m < |layers| && Top(layers, m) ==> m == k;
    } else if layers != [] {
      assert Top(layers, |layers| - 1);
    }
  }

  // ---- reading a key ----

  datatype Parts = Parts(protocol: string, a: string, b: string)

  /** `slice(from, to)`, clamped as JavaScript clamps it for non-negative bounds. */
  function Slice(s: string, from: nat, to: int): string
  {
    var end := Min(to, |s|);
    if from <= end then s[from..end] else ""
  }

  /** What a slice up to a `-1` index gives: everything but the last character. */
  function SliceTo(s: string, from: nat, to: int): string
  {
    if to >= 0 then Slice(s, from, to) else Slice(s, from, |s| - 1)
  }

  function ParseKey(key: string): Parts
  {
    var bar1 := IndexOf(key, '|', 0);
    var bar2 := IndexOf(key, '|', bar1 + 1);
    Parts(SliceTo(key, 0, bar1), SliceTo(key, bar1 + 1, bar2), Slice(key, bar2 + 1, |key|))
  }

  /** Neither endpoint contains the separator of the key. */
  predicate Plain(f: Flow) { '|' !in f.source && '|' !in f.destination && '|' !in f.protocol }

  lemma NextBar(prefix: string, mid: string, rest: string)
    requires '|' !in mid
    ensures IndexOf(prefix + mid + "|" + rest, '|', |prefix|) == |prefix| + |mid|
  {
    var s := prefix + mid + "|" + rest;
    assert s[|prefix| + |mid|] == '|';
    assert forall k :: |prefix| <= k < |prefix| + |mid| ==> s[k] == mid[k - |prefix|] && mid[k - |prefix|] in mid;
  }

  lemma ThreeParts(p: string, a: string, b: string)
    ensures var s := p + "|" + a + "|" + b;
      s[0..|p|] == p && s[|p| + 1..|p| + 1 + |a|] == a && s[|p| + 1 + |a| + 1..|s|] == b
  {
  }

  lemma KeyParses(f: Flow)
    requires Plain(f)
    ensures ParseKey(CanonicalKey(f)) == Parts(f.protocol, EndpointA(f), EndpointB(f))
  {
    hide Leq, IndexOf;
    var p, a, b := f.protocol, EndpointA(f), EndpointB(f);
    assert p + "|" + a + "|" + b == "" + p + "|" + (a + "|" + b);
    NextBar("", p, a + "|" + b);
    NextBar(p + "|", a, b);
    ThreeParts(p, a, b);
  }

  /** The flow a key and its direction bit stand for. */
  function SourceOf(parts: Parts, direction: int): string { if direction != 0 then parts.a else parts.b }

  function DestinationOf(parts: Parts, direction: int): string { if direction != 0 then parts.b else parts.a }

  /** Key and direction bit recover the flow. */
  lemma KeyAndDirection(f: Flow)
    requires Plain(f)
    ensures var parts := ParseKey(CanonicalKey(f));
      Flow(parts.protocol, SourceOf(parts, Direction(Some(f))), DestinationOf(parts, Direction(Some(f)))) == f
  {
    hide Leq, ParseKey;
    KeyParses(f);
  }

  // ---- synthesized layers ----

  datatype Split = Split(ip: string, port: string)

  function SplitEndpoint(endpoint: string): Split
  {
    var colon := LastIndexOf(endpoint, ':');
    if colon < 0 then Split(endpoint, "") else Split(endpoint[..colon], endpoint[colon + 1..])
  }

  function IpId(ip: string): string { if ':' in ip then "ipv6" else "ipv4" }

  function Synthetic(id: string, data: map<string, string>): Layer { Layer(id, true, data) }

  function SynthesizeLayers(key: string, direction: int): seq<Layer>
  {
    var parts := ParseKey(key);
    var source, destination := SourceOf(parts, direction), DestinationOf(parts, direction);
    if IsTransport(parts.protocol) then
      var s, d := SplitEndpoint(source), SplitEndpoint(destination);
      [Synthetic("eth", map[]), Synthetic(IpId(s.ip), map["sip" := s.ip, "dip" := d.ip]),
       Synthetic(parts.protocol, map["srcport" := s.port, "dstport" := d.port])]
    else if parts.protocol == "ip" then
      [Synthetic("eth", map[]), Synthetic(IpId(source), map["sip" := source, "dip" := destination])]
    else if parts.protocol == "eth" then [Synthetic("eth", map["smac" := source, "dmac" := destination])]
    else [Synthetic("eth", map[])]
  }

  lemma SplitRejoins(endpoint: string)
    requires ':' in endpoint
    ensures SplitEndpoint(endpoint).ip + ":" + SplitEndpoint(endpoint).port == endpoint
  {
    var colon := LastIndexOf(endpoint, ':');
    assert endpoint == endpoint[..colon] + [endpoint[colon]] + endpoint[colon + 1..];
  }

  /** Flows come with one of four protocols, and transport endpoints carry a port. */
  lemma FlowShape(layers: seq<Layer>)
    requires FlowOf(layers).Some?
    ensures var f := FlowOf(layers).value;
      && (IsTransport(f.protocol) || f.protocol == "ip" || f.protocol == "eth")
      && (IsTransport(f.protocol) ==> ':' in f.source && ':' in f.destination)
  {
    var ip, transport := Find(layers, IsIp), Find(layers, IsTransport);
    if ip.Some? && transport.Some? {
      var s, p := Printed(ip.value, "sip"), Printed(transport.value, "srcport");
      var d, q := Printed(ip.value, "dip"), Printed(transport.value, "dstport");
      assert (s + ":" + p)[|s|] == ':' && (d + ":" + q)[|d|] == ':';
    }
  }

  lemma FlowOfThree(protocol: string, s: Split, d: Split)
    requires IsTransport(protocol)
    ensures FlowOf([Synthetic("eth", map[]), Synthetic(IpId(s.ip), map["sip" := s.ip, "dip" := d.ip]),
                    Synthetic(protocol, map["srcport" := s.port, "dstport" := d.port])])
         == Some(Flow(protocol, s.ip + ":" + s.port, d.ip + ":" + d.port))
  {
    var l0, l1 := Synthetic("eth", map[]), Synthetic(IpId(s.ip), map["sip" := s.ip, "dip" := d.ip]);
    var l2 := Synthetic(protocol, map["srcport" := s.port, "dstport" := d.port]);
    FindSkips([l0, l1, l2], IsIp, 1);
    FindSkips([l0, l1, l2], IsTransport, 2);
  }

  lemma {:induction false} FindSkips(layers: seq<Layer>, test: string -> bool, k: nat)
    requires k < |layers| && test(layers[k].id) && forall j :: 0 <= j < k ==> !test(layers[j].id)
    ensures Find(layers, test) == Some(layers[k])
    decreases k
  {
    if k > 0 { FindSkips(layers[1..], test, k - 1); }
  }

  lemma FindNone(layers: seq<Layer>, test: string -> bool)
    requires forall j :: 0 <= j < |layers| ==> !test(layers[j].id)
    ensures Find(layers, test) == None
  {
  }

  /** The layers rebuilt from a frame's key and direction have the frame's flow. */
  lemma FlowSurvives(layers: seq<Layer>)
    requires FlowOf(layers).Some? && Plain(FlowOf(layers).value)
    ensures var f := FlowOf(layers); FlowOf(SynthesizeLayers(CanonicalKey(f.value), Direction(f))) == f
  {
    hide Find, ParseKey, Leq, CanonicalKey;
    var f := FlowOf(layers).value;
    FlowShape(layers);
    KeyAndDirection(f);
    var synthetic := SynthesizeLayers(CanonicalKey(f), Direction(Some(f)));
    if IsTransport(f.protocol) {
      SplitRejoins(f.source);
      SplitRejoins(f.destination);
      FlowOfThree(f.protocol, SplitEndpoint(f.source), SplitEndpoint(f.destination));
    } else if f.protocol == "ip" {
      FindSkips(synthetic, IsIp, 1);
      FindNone(synthetic, IsTransport);
    } else {
      FindNone(synthetic, IsIp);
      FindSkips(synthetic, IsEth, 0);
    }
  }

  // ---- where a flow is read ----

  /** Layer `k` is the first whose id passes the test. */
  predicate First(layers: seq<Layer>, test: string -> bool, k: nat)
    requires k < |layers|
  {
    test(layers[k].id) && forall j :: 0 <= j < k ==> !test(layers[j].id)
  }

  lemma {:induction false} FirstIndex(layers: seq<Layer>, test: string -> bool) returns (k: nat)
    requires Find(layers, test).Some?
    ensures k < |layers| && First(layers, test, k)
    decreases |layers|
  {
    if test(layers[0].id) {
      k := 0;
    } else {
      k := FirstIndex(layers[1..], test);
      assert forall j :: 0 < j < |layers| ==> layers[j] == layers[1..][j - 1];
      k := k + 1;
    }
  }

  /**
   * The flow runs from the source to the destination of the first IP layer, at the ports of the first transport layer;
   * without transport between the addresses, without IP between the stations of the first Ethernet layer.
   */
  lemma FlowIs(layers: seq<Layer>, i: nat, t: nat)
    requires i < |layers| && t < |layers|
    ensures First(layers, IsIp, i) && First(layers, IsTransport, t) ==>
      var a, b := Printed(layers[i], "sip"), Printed(layers[i], "dip");
      var p, q := Printed(layers[t], "srcport"), Printed(layers[t], "dstport");
      FlowOf(layers) == Some(Flow(layers[t].id, a + ":" + p, b + ":" + q))
    ensures First(layers, IsIp, i) && (forall k :: 0 <= k < |layers| ==> !IsTransport(layers[k].id)) ==>
      FlowOf(layers) == Some(Flow("ip", Printed(layers[i], "sip"), Printed(layers[i], "dip")))
    ensures First(layers, IsEth, i) && (forall k :: 0 <= k < |layers| ==> !IsIp(layers[k].id)) ==>
      FlowOf(layers) == Some(Flow("eth", Printed(layers[i], "smac"), Printed(layers[i], "dmac")))
    ensures (forall k :: 0 <= k < |layers| ==> !IsIp(layers[k].id) && !IsEth(layers[k].id)) ==> FlowOf(layers) == None
  {
    hide Find, Printed;
    forall test, k | 0 <= k < |layers| && First(layers, test, k) ensures Find(layers, test) == Some(layers[k]) {
      FindSkips(layers, test, k);
    }
    forall test: string -> bool | forall k :: 0 <= k < |layers| ==> !test(layers[k].id)
      ensures Find(layers, test) == None
    {
      FindNone(layers, test);
    }
  }

  function Reversed(f: Flow): Flow { Flow(f.protocol, f.destination, f.source) }

  /** Both directions of a conversation have one key, no others do, and the lesser endpoint comes first in it. */
  lemma KeyIsCanonical(f: Flow, g: Flow)
    requires Plain(f) && Plain(g)
    ensures CanonicalKey(f) == CanonicalKey(g) <==> f == g || f == Reversed(g)
    ensures Leq(EndpointA(f), EndpointB(f))
    ensures Direction(Some(f)) == 1 <==> EndpointA(f) == f.source
    ensures Direction(Some(f)) in {0, 1} && Direction(None) == 1
  {
    hide Leq, ParseKey;
    LeqTotal(f.source, f.destination);
    LeqTotal(g.source, g.destination);
    KeyParses(f);
    KeyParses(g);
  }
}
