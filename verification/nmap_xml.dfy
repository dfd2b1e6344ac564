/**
 * `parse_nmap_ports` (src/nmap.rs:118): the (port, state, service) records of
 * an Nmap XML report. The XML tokenizer is not modelled; the report arrives as
 * the sequence of reader events the parser reacts to, and the end of the
 * sequence stands for end of file.
 */
module NmapXml {
  import opened Wrappers
  import opened Text
  import opened Models

  datatype XmlEvent =
    | PortOpen(portid: Option<string>)   // start tag `<port ...>`, with the value of its `portid` attribute
    | StateTag(state: Option<string>)    // `<state .../>` or `<state ...>`, with its `state` attribute
    | ServiceTag(name: Option<string>)   // `<service .../>` or `<service ...>`, with its `name` attribute
    | PortClose                          // end tag `</port>`
    | OtherEvent                         // anything else, an empty `<port/>` element included
    | ReadError(message: string)         // the reader failed

  /** The port number being collected after the events `ev`: set by `<port>`, cleared by `</port>`. */
  function OpenPort(ev: seq<XmlEvent>): Option<U16>
    decreases |ev|
  {
    if ev == [] then None
    else match ev[|ev| - 1]
      case PortOpen(id) => if id.Some? then ParseU16(id.value) else None
      case PortClose => None
      case _ => OpenPort(ev[..|ev| - 1])
  }

  /** The state being collected: the last `state` attribute since the last `<port>` or `</port>`. */
  function OpenState(ev: seq<XmlEvent>): Option<string>
    decreases |ev|
  {
    if ev == [] then None
    else match ev[|ev| - 1]
      case PortOpen(_) => None
      case PortClose => None
      case StateTag(Some(s)) => Some(s)
      case _ => OpenState(ev[..|ev| - 1])
  }

  /** The service being collected: the last `name` of a `<service>` since the last `<port>` or `</port>`. */
  function OpenService(ev: seq<XmlEvent>): Option<string>
    decreases |ev|
  {
    if ev == [] then None
    else match ev[|ev| - 1]
      case PortOpen(_) => None
      case PortClose => None
      case ServiceTag(Some(s)) => Some(s)
      case _ => OpenService(ev[..|ev| - 1])
  }

  /**
   * The records the events emit: every `</port>` closing a port whose `portid`
   * parsed yields one, in document order, with state "unknown" when none was seen.
   */
  function Records(ev: seq<XmlEvent>): seq<PortDetail>
    decreases |ev|
  {
    if ev == [] then []
    else
      var pre := ev[..|ev| - 1];
      if ev[|ev| - 1].PortClose? && OpenPort(pre).Some? then
        Records(pre) + [PortDetail(OpenPort(pre).value, OpenState(pre).GetOr("unknown"), OpenService(pre))]
      else Records(pre)
  }

  /** The message of the first reader error, if any. */
  function FirstError(ev: seq<XmlEvent>): (r: Option<string>)
    ensures r.None? <==> forall k :: 0 <= k < |ev| ==> !ev[k].ReadError?
  {
    if ev == [] then None
    else if ev[0].ReadError? then Some(ev[0].message)
    else
      assert forall k :: 1 <= k < |ev| ==> ev[k] == ev[1..][k - 1];
      FirstError(ev[1..])
  }

  /** What `parse_nmap_ports` returns: the records, or the first reader error and no partial result. */
  function Decode(ev: seq<XmlEvent>): Outcome<seq<PortDetail>>
  {
    match FirstError(ev)
    case Some(m) => Err(XmlError(m))
    case None => Ok(Records(ev))
  }

  lemma {:induction false} FirstErrorAt(ev: seq<XmlEvent>, k: nat)
    requires k < |ev| && ev[k].ReadError?
    requires forall j :: 0 <= j < k ==> !ev[j].ReadError?
    ensures FirstError(ev) == Some(ev[k].message)
    decreases k
  {
    if k > 0 {
      FirstErrorAt(ev[1..], k - 1);
    }
  }

  /** `parse_nmap_ports`: one pass over the events, keeping the port, state and service being collected. */
  method ParseNmapPorts(events: seq<XmlEvent>) returns (r: Outcome<seq<PortDetail>>)
    ensures r == Decode(events)
  {
    var port: Option<U16> := None;
    var state: Option<string> := None;
    var service: Option<string> := None;
    var out: seq<PortDetail> := [];
    var i := 0;
    while i < |events|
      invariant 0 <= i <= |events|
      invariant port == OpenPort(events[..i])
      invariant state == OpenState(events[..i])
      invariant service == OpenService(events[..i])
      invariant out == Records(events[..i])
      invariant forall j :: 0 <= j < i ==> !events[j].ReadError?
    {
      PrefixFront(events, i);
      match events[i] {
      case PortOpen(id) =>
        port, state, service := if id.Some? then ParseU16(id.value) else None, None, None;
      case StateTag(s) =>
        if s.Some? {
          state := s;
        }
      case ServiceTag(n) =>
        if n.Some? {
          service := n;
        }
      case PortClose =>
        if port.Some? {
          out := out + [PortDetail(port.value, if state.Some? then state.value else "unknown", service)];
        }
        port, state, service := None, None, None;
      case OtherEvent =>
      case ReadError(m) =>
        FirstErrorAt(events, i);
        return Err(XmlError(m));
      }
      i := i + 1;
    }
    assert events[..i] == events;
    r := Ok(out);
  }

  /** The events of one record as Nmap writes it: `<port portid>`, `<state>`, `<service>` if named, `</port>`. */
  function EncodeOne(p: PortDetail): seq<XmlEvent>
  {
    [PortOpen(Some(NatToString(p.port))), StateTag(Some(p.state))]
    + (if p.service.Some? then [ServiceTag(p.service)] else [])
    + [PortClose]
  }

  function Encode(ps: seq<PortDetail>): seq<XmlEvent>
    decreases |ps|
  {
    if ps == [] then [] else Encode(ps[..|ps| - 1]) + EncodeOne(ps[|ps| - 1])
  }

  /** What one more event does to the collected port, state, service and records. */
  lemma Step(x: seq<XmlEvent>, e: XmlEvent)
    ensures !e.PortClose? ==> Records(x + [e]) == Records(x)
    ensures e.PortOpen? ==> OpenPort(x + [e]) == (if e.portid.Some? then ParseU16(e.portid.value) else None)
    ensures e.PortOpen? ==> OpenState(x + [e]) == None && OpenService(x + [e]) == None
    ensures e.StateTag? || e.ServiceTag? ==> OpenPort(x + [e]) == OpenPort(x)
    ensures e.StateTag? && e.state.Some? ==> OpenState(x + [e]) == e.state
    ensures e.ServiceTag? ==> OpenState(x + [e]) == OpenState(x)
    ensures e.ServiceTag? && e.name.Some? ==> OpenService(x + [e]) == e.name
    ensures e.StateTag? ==> OpenService(x + [e]) == OpenService(x)
    ensures e.PortClose? ==> (Records(x + [e]) == Records(x) +
      (if OpenPort(x).Some? then [PortDetail(OpenPort(x).value, OpenState(x).GetOr("unknown"), OpenService(x))] else []))
  {
    SnocFront(x, e);
  }

  lemma RecordsAppendOne(a: seq<XmlEvent>, p: PortDetail)
    ensures Records(a + EncodeOne(p)) == Records(a) + [p]
  {
    var po := a + [PortOpen(Some(NatToString(p.port)))];
    var st := po + [StateTag(Some(p.state))];
    var pre := if p.service.Some? then st + [ServiceTag(p.service)] else st;
    assert a + EncodeOne(p) == pre + [PortClose];
    ParseRendered(p.port);
    Step(a, PortOpen(Some(NatToString(p.port))));
    Step(po, StateTag(Some(p.state)));
    if p.service.Some? {
      Step(st, ServiceTag(p.service));
    }
    Step(pre, PortClose);
  }

  lemma {:induction false} EncodeHasNoError(ps: seq<PortDetail>)
    ensures forall k :: 0 <= k < |Encode(ps)| ==> !Encode(ps)[k].ReadError?
    decreases |ps|
  {
    if ps != [] {
      EncodeHasNoError(ps[..|ps| - 1]);
    }
  }

  /** Reading back the events of a list of records gives that list: `parse_nmap_ports` inverts the report layout. */
  lemma {:induction false} DecodeEncode(ps: seq<PortDetail>)
    ensures Decode(Encode(ps)) == Ok(ps)
    decreases |ps|
  {
    EncodeHasNoError(ps);
    RecordsOfEncode(ps);
  }

  lemma {:induction false} RecordsOfEncode(ps: seq<PortDetail>)
    ensures Records(Encode(ps)) == ps
    decreases |ps|
  {
    if ps != [] {
      var init := ps[..|ps| - 1];
      RecordsOfEncode(init);
      RecordsAppendOne(Encode(init), ps[|ps| - 1]);
      InitLast(ps);
    }
  }

  /** A reader error anywhere makes the whole parse an error: no partial list escapes. */
  lemma ErrorIsNotPartial(ev: seq<XmlEvent>, k: nat)
    requires k < |ev| && ev[k].ReadError?
    ensures Decode(ev).Err? && Decode(ev).error.XmlError?
  {
  }

  /** Every record comes from a `</port>`: there are never more records than closing tags. */
  lemma {:induction false} RecordsBoundedByCloses(ev: seq<XmlEvent>)
    ensures |Records(ev)| <= |set k | 0 <= k < |ev| && ev[k].PortClose?|
    decreases |ev|
  {
    if ev != [] {
      var pre := ev[..|ev| - 1];
      RecordsBoundedByCloses(pre);
      var before := set k | 0 <= k < |pre| && pre[k].PortClose?;
      var after := set k | 0 <= k < |ev| && ev[k].PortClose?;
      if ev[|ev| - 1].PortClose? {
        assert after == before + {|ev| - 1};
        assert |ev| - 1 !in before;
        assert |Records(ev)| <= |Records(pre)| + 1;
      } else {
        assert after == before;
        assert Records(ev) == Records(pre);
      }
    }
  }
}
