/** The table of managed sinks, `handled_sinks` in snapclient_automatic/run.py:
    handle_sink_added starts a snapclient process for every accepted sink and
    records it under the sink's index; handle_sink_removed stops the process
    of a managed sink and forgets it. The launcher and the stop signal are
    external: a launch is recorded in a log and returns a fresh handle, a stop
    signal is recorded in another log. */
module Lifecycle {
  import opened Results
  import opened Conditions
  import opened Filters

  /** An opaque handle of a started snapclient process. */
  datatype Handle = Handle(pid: nat)

  /** The arguments of one snapclient launch: `--hostID`, `--latency`,
      `--card` and the snapserver URL. */
  datatype Launch = Launch(hostId: string, latency: int, card: int, url: string)

  /** The sink property that names the device; its value is passed as `--hostID`. */
  const DeviceString: string := "device.string"

  /** The message of the TypeError raised by `stop_snapclient(config)`. */
  const MissingSinkIndex: string := "stop_snapclient() missing 1 required positional argument: 'sink_index'"

  /** `latency or 0`: the latency argument of a launch. */
  function LatencyArgument(latency: Option<int>): int {
    match latency
    case Some(l) => l
    case None => 0
  }

  /** What handle_sink_added does with a sink: raise, ignore it (`None`) or
      launch snapclient with the given arguments. */
  function PlanAdd(properties: Properties, filters: seq<Filter>, sinkIndex: int, url: string): Result<Option<Launch>> {
    var d :- Decide(ConditionTest(properties), filters);
    if !d.accept then Ok(None)
    else if DeviceString !in properties then Err(KeyError(DeviceString))
    else Ok(Some(Launch(properties[DeviceString], LatencyArgument(d.latency), sinkIndex, url)))
  }

  /** The filters accept the sink: there are none, or the last matching filter
      that defines `accept` sets it to true. */
  ghost predicate AcceptedByFilters(eval: Evaluator, filters: seq<Filter>) {
    filters == [] || exists i :: LastToSetAccept(eval, filters, i) && filters[i].accept == Some(true)
  }

  /** Which way handle_sink_added goes, in terms of the filters: an error of
      the filter walk propagates unchanged; a sink the filters do not accept is
      ignored; an accepted sink without `device.string` raises `KeyError`; every
      other sink is launched. With no filters, every sink is accepted. */
  lemma PlanAddOutcome(properties: Properties, filters: seq<Filter>, sinkIndex: int, url: string)
    ensures Decide(ConditionTest(properties), filters).Err? ==>
      PlanAdd(properties, filters, sinkIndex, url) == Err(Decide(ConditionTest(properties), filters).error)
    ensures Decide(ConditionTest(properties), filters).Ok? ==>
      (PlanAdd(properties, filters, sinkIndex, url) == Ok(None)
       <==> !AcceptedByFilters(ConditionTest(properties), filters))
    ensures Decide(ConditionTest(properties), filters).Ok? ==>
      (PlanAdd(properties, filters, sinkIndex, url) == Err(KeyError(DeviceString))
       <==> AcceptedByFilters(ConditionTest(properties), filters) && DeviceString !in properties)
    ensures (PlanAdd(properties, filters, sinkIndex, url).Ok? && PlanAdd(properties, filters, sinkIndex, url).value.Some?)
      <==> (&& Decide(ConditionTest(properties), filters).Ok?
            && AcceptedByFilters(ConditionTest(properties), filters)
            && DeviceString in properties)
    ensures filters == [] ==>
      PlanAdd(properties, filters, sinkIndex, url)
      == (if DeviceString in properties then Ok(Some(Launch(properties[DeviceString], 0, sinkIndex, url)))
          else Err(KeyError(DeviceString)))
  {
    var eval := ConditionTest(properties);
    var decided := Decide(eval, filters);
    if decided.Ok? {
      AcceptRule(eval, filters, decided.value);
    }
  }

  /** The arguments of a launch: the sink's own card, its `device.string` as
      host id, the configured URL, and the latency of the last matching filter
      that defines one, 0 when no matching filter does. */
  lemma PlanAddLaunch(properties: Properties, filters: seq<Filter>, sinkIndex: int, url: string, l: Launch)
    requires PlanAdd(properties, filters, sinkIndex, url) == Ok(Some(l))
    ensures l.card == sinkIndex && l.url == url
    ensures DeviceString in properties && l.hostId == properties[DeviceString]
    ensures forall i :: LastToSetLatency(ConditionTest(properties), filters, i) ==> l.latency == filters[i].latency.value
    ensures (forall i :: 0 <= i < |filters| ==> !SetsLatency(ConditionTest(properties), filters[i])) ==> l.latency == 0
  {
    var eval := ConditionTest(properties);
    AcceptRule(eval, filters, Decide(eval, filters).value);
  }

  class SinkManager {
    /** `handled_sinks`: the process started for each managed sink index. */
    var handledSinks: map<int, Handle>
    /** Every launch asked of the launcher, in order; launch `k` returned `Handle(k)`. */
    var launches: seq<Launch>
    /** Every process sent the stop signal, in order. */
    var signals: seq<Handle>
    /** `config["url"]`, the snapserver every snapclient connects to. */
    const url: string

    /** Every managed process was launched for the card of its sink and has
        not been signalled; only launched processes are ever signalled. */
    ghost predicate Valid()
      reads this
    {
      && (forall k :: k in handledSinks ==>
            handledSinks[k].pid < |launches| && launches[handledSinks[k].pid].card == k)
      && (forall k :: k in handledSinks ==> handledSinks[k] !in signals)
      && (forall h :: h in signals ==> h.pid < |launches|)
    }

    constructor (url: string)
      ensures Valid()
      ensures handledSinks == map[] && launches == [] && signals == [] && this.url == url
    {
      handledSinks := map[];
      launches := [];
      signals := [];
      this.url := url;
    }

    /** start_snapclient: launch snapclient for the sink and record its
        process, replacing any process already recorded for that sink. */
    method StartSnapclient(deviceMac: string, latency: Option<int>, sinkIndex: int) returns (proc: Handle)
      requires Valid()
      modifies this
      ensures Valid()
      ensures proc == Handle(|old(launches)|)
      ensures launches == old(launches) + [Launch(deviceMac, LatencyArgument(latency), sinkIndex, url)]
      ensures handledSinks == old(handledSinks)[sinkIndex := proc]
      ensures signals == old(signals)
    {
      proc := Handle(|launches|);
      launches := launches + [Launch(deviceMac, LatencyArgument(latency), sinkIndex, url)];
      handledSinks := handledSinks[sinkIndex := proc];
    }

    /** handle_sink_added, given the sink's property list: run the filters and
        launch snapclient for an accepted sink. A rejected sink and a raised
        KeyError leave everything unchanged; an accepted sink gets a new
        process even when it already has one. */
    method HandleSinkAdded(properties: Properties, filters: seq<Filter>, sinkIndex: int)
      returns (r: Result<Option<Handle>>)
      requires Valid()
      modifies this
      ensures Valid()
      ensures signals == old(signals)
      ensures var plan := PlanAdd(properties, filters, sinkIndex, url);
        match plan
        case Err(e) =>
          r == Err(e) && launches == old(launches) && handledSinks == old(handledSinks)
        case Ok(None) =>
          r == Ok(None) && launches == old(launches) && handledSinks == old(handledSinks)
        case Ok(Some(launch)) =>
          && r == Ok(Some(Handle(|old(launches)|)))
          && launches == old(launches) + [launch]
          && handledSinks == old(handledSinks)[sinkIndex := Handle(|old(launches)|)]
    {
      var decision := EvaluateFilters(properties, filters);
      if decision.Err? {
        return Err(decision.error);
      }
      var d := decision.value;
      if d.accept {
        if DeviceString !in properties {
          return Err(KeyError(DeviceString));
        }
        var deviceMac := properties[DeviceString];
        var proc := StartSnapclient(deviceMac, d.latency, sinkIndex);
        r := Ok(Some(proc));
      } else {
        r := Ok(None);
      }
    }

    /** stop_snapclient: signal the sink's process and forget it; a sink
        without a process is left alone. */
    method StopSnapclient(sinkIndex: int)
      requires Valid()
      modifies this
      ensures Valid()
      ensures launches == old(launches)
      ensures sinkIndex !in old(handledSinks) ==>
        handledSinks == old(handledSinks) && signals == old(signals)
      ensures sinkIndex in old(handledSinks) ==>
        && signals == old(signals) + [old(handledSinks)[sinkIndex]]
        && handledSinks == old(handledSinks) - {sinkIndex}
    {
      if sinkIndex !in handledSinks {
        return;
      }
      var proc := handledSinks[sinkIndex];
      signals := signals + [proc];
      handledSinks := handledSinks - {sinkIndex};
    }

    /** handle_sink_removed with the intended call `stop_snapclient(sink_index)`:
        a managed sink's process gets exactly one stop signal and only its entry
        goes; the removal of an unmanaged sink changes nothing. */
    method HandleSinkRemoved(sinkIndex: int)
      requires Valid()
      modifies this
      ensures Valid()
      ensures launches == old(launches)
      ensures sinkIndex !in old(handledSinks) ==>
        handledSinks == old(handledSinks) && signals == old(signals)
      ensures sinkIndex in old(handledSinks) ==>
        && signals == old(signals) + [old(handledSinks)[sinkIndex]]
        && handledSinks == old(handledSinks) - {sinkIndex}
    {
      if sinkIndex in handledSinks {
        StopSnapclient(sinkIndex);
      } else {
        return;
      }
    }

    /** handle_sink_removed as written: it calls `stop_snapclient(config)`
        without the sink index, which raises TypeError for every managed sink
        before anything is signalled or removed. */
    method HandleSinkRemovedAsWritten(sinkIndex: int) returns (r: Result<()>)
      ensures r.Err? <==> sinkIndex in handledSinks
      ensures r.Err? ==> r.error == TypeError(MissingSinkIndex)
    {
      if sinkIndex in handledSinks {
        r := Err(TypeError(MissingSinkIndex));
      } else {
        r := Ok(());
      }
    }
  }

  /** Distinct managed sinks never share a process. */
  lemma HandlesDistinct(m: SinkManager, a: int, b: int)
    requires m.Valid() && a in m.handledSinks && b in m.handledSinks && a != b
    ensures m.handledSinks[a] != m.handledSinks[b]
  {
  }

  /** A sink with a device string and no filters configured: accepted. */
  function SampleSink(): Properties {
    map[DeviceString := "00:11:22:33:44:55"]
  }

  /** As written, removing a managed sink raises before the process is
      signalled, so the sink stays managed and its snapclient keeps running. */
  method RemovalAsWrittenKeepsSink() returns (r: Result<()>, stillManaged: bool, signalsSent: nat)
    ensures r == Err(TypeError(MissingSinkIndex))
    ensures stillManaged && signalsSent == 0
  {
    var m := new SinkManager("tcp://snapserver:1704");
    var added := m.HandleSinkAdded(SampleSink(), [], 7);
    assert added == Ok(Some(Handle(0))) by {
      PlanAddOutcome(SampleSink(), [], 7, m.url);
    }
    r := m.HandleSinkRemovedAsWritten(7);
    stillManaged := 7 in m.handledSinks;
    signalsSent := |m.signals|;
  }

  /** With the intended call, the same removal signals the process once and
      leaves no sink managed. */
  method RemovalStopsSink() returns (stillManaged: bool, signalsSent: nat, managed: nat)
    ensures !stillManaged && signalsSent == 1 && managed == 0
  {
    var m := new SinkManager("tcp://snapserver:1704");
    var added := m.HandleSinkAdded(SampleSink(), [], 7);
    assert added == Ok(Some(Handle(0))) by {
      PlanAddOutcome(SampleSink(), [], 7, m.url);
    }
    m.HandleSinkRemoved(7);
    stillManaged := 7 in m.handledSinks;
    signalsSent := |m.signals|;
    managed := |m.handledSinks|;
  }

  /** handle_sink_added does not check `handled_sinks`: a second added event
      for a managed sink launches a second snapclient and overwrites the entry,
      and the first process is no longer reachable through the table. */
  method DuplicateAddLaunchesTwice() returns (launched: nat, managed: nat, firstOrphaned: bool)
    ensures launched == 2 && managed == 1 && firstOrphaned
  {
    var m := new SinkManager("tcp://snapserver:1704");
    PlanAddOutcome(SampleSink(), [], 7, m.url);
    var first := m.HandleSinkAdded(SampleSink(), [], 7);
    var second := m.HandleSinkAdded(SampleSink(), [], 7);
    launched := |m.launches|;
    managed := |m.handledSinks|;
    firstOrphaned := Handle(0) !in m.handledSinks.Values;
  }
}
