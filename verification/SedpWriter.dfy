/** Building the parameter list of a discovered reader or writer, parameter by parameter. */
module SedpWriter {
  import opened Basics
  import opened Wire
  import opened ParameterLists
  import opened FixedCodec
  import opened Qos
  import opened Sedp
  import CF = ContentFilters
  import Q = Qos

  /** What is left to push from the i-th field on. */
  ghost function Left(order: seq<u16>, e: Endian, r: Endpoint, i: nat): seq<Parameter>
    requires i <= |order|
  {
    Fields(order[i..], EndpointField(e, r))
  }

  lemma LeftStep(order: seq<u16>, e: Endian, r: Endpoint, pl: seq<Parameter>, pid: u16, i: nat)
    requires i < |order| && order[i] == pid
    ensures pl + Left(order, e, r, i) == pl + Emit(pid, EndpointValues(e, r, pid)) + Left(order, e, r, i + 1)
  {
    hide EndpointValues, Emit;
    assert order[i..][0] == pid && order[i..][1..] == order[i + 1..];
    var now, rest := Emit(pid, EndpointValues(e, r, pid)), Left(order, e, r, i + 1);
    assert pl + (now + rest) == pl + now + rest;
  }

  lemma LeftAll(order: seq<u16>, e: Endian, r: Endpoint)
    ensures Left(order, e, r, 0) == Fields(order, EndpointField(e, r)) && Left(order, e, r, |order|) == []
  {
    hide EndpointField, Emit;
    assert order[0..] == order && order[|order|..] == [];
  }

  method EmitLocators(e: Endian, start: seq<Parameter>, pid: u16, ls: seq<Locator>) returns (pl: seq<Parameter>)
    ensures pl == start + Emit(pid, LocatorValues(e, ls))
  {
    hide FixedBytes, LocatorFixed;
    pl := start;
    assert ls[0..] == ls;
    for i := 0 to |ls|
      invariant pl + Emit(pid, LocatorValues(e, ls[i..])) == start + Emit(pid, LocatorValues(e, ls))
    {
      assert ls[i..][0] == ls[i] && ls[i..][1..] == ls[i + 1..];
      var v := WriteFixed(e, LocatorFixed(ls[i]));
      EmitOne(pid, v, LocatorValues(e, ls[i + 1..]), pl);
      pl := pl + [Parameter(pid, v)];
    }
    assert ls[|ls|..] == [] && pl + [] == pl;
  }

  lemma EmitOne(pid: u16, v: Bytes, rest: seq<Bytes>, pl: seq<Parameter>)
    ensures pl + Emit(pid, [v] + rest) == pl + [Parameter(pid, v)] + Emit(pid, rest)
  {
    assert ([v] + rest)[0] == v && ([v] + rest)[1..] == rest;
    assert pl + ([Parameter(pid, v)] + Emit(pid, rest)) == pl + [Parameter(pid, v)] + Emit(pid, rest);
  }

  method EmitTexts(e: Endian, start: seq<Parameter>, pid: u16, ss: seq<Bytes>) returns (pl: seq<Parameter>)
    requires CF.AllFit(ss)
    ensures pl == start + Emit(pid, TextValues(e, ss))
  {
    hide Cell, FitsWord;
    pl := start;
    assert ss[0..] == ss;
    for i := 0 to |ss|
      invariant pl + Emit(pid, TextValues(e, ss[i..])) == start + Emit(pid, TextValues(e, ss))
    {
      assert ss[i..][0] == ss[i] && ss[i..][1..] == ss[i + 1..];
      var v := WriteOneText(e, ss[i]);
      EmitOne(pid, v, TextValues(e, ss[i + 1..]), pl);
      pl := pl + [Parameter(pid, v)];
    }
    assert ss[|ss|..] == [] && pl + [] == pl;
  }

  method WriteOneText(e: Endian, s: Bytes) returns (v: Bytes)
    requires FitsWord(s)
    ensures v == Cell(e, Text(s))
  {
    StartsInStep();
    hide InStep, FitsWord, Cell;
    v := WriteText(e, [], 0, s);
  }

  method EmitFilter(e: Endian, start: seq<Parameter>, x: Extras) returns (pl: seq<Parameter>)
    requires x.ReaderExtras? && x.contentFilter.Some? ==> CF.Writable(x.contentFilter.value)
    ensures pl == start + Emit(CONTENT_FILTER, FilterValues(e, x))
  {
    hide CF.Writable, CF.Encoded;
    pl := start;
    if x.ReaderExtras? && x.contentFilter.Some? {
      var v := CF.WriteTo(e, x.contentFilter.value);
      EmitOne(CONTENT_FILTER, v, [], pl);
      assert [v] + [] == [v];
      pl := pl + [Parameter(CONTENT_FILTER, v)];
    }
  }

  method WriteProxy(e: Endian, r: Endpoint) returns (pl: seq<Parameter>)
    requires Writable(r)
    ensures pl == Fields(HEAD_ORDER, EndpointField(e, r))
  {
    hide Fields, Emit, EndpointValues, Left, AtMostOne, LocatorValues, TextValues, FilterValues, FitsWord;
    NamedValues(e, r);
    LeftAll(HEAD_ORDER, e, r);
    pl := [];
    ghost var whole := Fields(HEAD_ORDER, EndpointField(e, r));
    assert pl + whole == whole;
    LeftStep(HEAD_ORDER, e, r, pl, EXPECTS_INLINE_QOS, 0);
    pl := EmitOption(e, pl, EXPECTS_INLINE_QOS, ExpectsFixed(r.extras));
    LeftStep(HEAD_ORDER, e, r, pl, TYPE_MAX_SIZE, 1);
    pl := EmitOption(e, pl, TYPE_MAX_SIZE, MaxSizeFixed(r.extras));
    LeftStep(HEAD_ORDER, e, r, pl, ENDPOINT_GUID, 2);
    pl := EmitOption(e, pl, ENDPOINT_GUID, OctetsFixed(Some(r.guid)));
    LeftStep(HEAD_ORDER, e, r, pl, UNICAST_LOCATOR, 3);
    pl := EmitLocators(e, pl, UNICAST_LOCATOR, r.unicast);
    LeftStep(HEAD_ORDER, e, r, pl, MULTICAST_LOCATOR, 4);
    pl := EmitLocators(e, pl, MULTICAST_LOCATOR, r.multicast);
    LeftStep(HEAD_ORDER, e, r, pl, PARTICIPANT_GUID, 5);
    pl := EmitOption(e, pl, PARTICIPANT_GUID, OctetsFixed(r.participantKey));
    LeftStep(HEAD_ORDER, e, r, pl, TOPIC_NAME, 6);
    pl := EmitTexts(e, pl, TOPIC_NAME, [r.topicName]);
    LeftStep(HEAD_ORDER, e, r, pl, TYPE_NAME, 7);
    pl := EmitTexts(e, pl, TYPE_NAME, [r.typeName]);
    assert pl + [] == pl;
  }

  method WriteRest(e: Endian, r: Endpoint) returns (pl: seq<Parameter>)
    requires Writable(r)
    ensures pl == Fields(TAIL_ORDER, EndpointField(e, r))
  {
    hide Fields, Emit, EndpointValues, Left, AtMostOne, LocatorValues, TextValues, FilterValues, FitsWord, CF.Writable;
    NamedValues(e, r);
    NamedRpcValues(e, r);
    LeftAll(TAIL_ORDER, e, r);
    pl := [];
    ghost var whole := Fields(TAIL_ORDER, EndpointField(e, r));
    assert pl + whole == whole;
    LeftStep(TAIL_ORDER, e, r, pl, SERVICE_INSTANCE_NAME, 0);
    pl := EmitTexts(e, pl, SERVICE_INSTANCE_NAME, if r.serviceInstanceName.Some? then [r.serviceInstanceName.value] else []);
    LeftStep(TAIL_ORDER, e, r, pl, RELATED_ENTITY_GUID, 1);
    pl := EmitOption(e, pl, RELATED_ENTITY_GUID, OctetsFixed(r.relatedEntityKey));
    LeftStep(TAIL_ORDER, e, r, pl, TOPIC_ALIASES, 2);
    pl := EmitTexts(e, pl, TOPIC_ALIASES, if r.topicAliases.Some? then r.topicAliases.value else []);
    LeftStep(TAIL_ORDER, e, r, pl, CONTENT_FILTER, 3);
    pl := EmitFilter(e, pl, r.extras);
    LeftStep(TAIL_ORDER, e, r, pl, SECURITY_INFO, 4);
    pl := EmitOption(e, pl, SECURITY_INFO, SecurityFixed(r.security));
    assert pl + [] == pl;
  }

  /** The whole parameter list of a record. */
  method ToParameterList(e: Endian, r: Endpoint) returns (pl: seq<Parameter>)
    requires Writable(r)
    ensures pl == EndpointParameters(e, r)
  {
    hide Fields, Writable, QosParameters;
    pl := WriteProxy(e, r);
    var qos := Q.ToParameterList(e, QosIn(r.policies));
    pl := pl + qos;
    var rest := WriteRest(e, r);
    pl := pl + rest;
  }
}
