/**
 * The radio operator (src/operator/mod.rs): the message processor that
 * decodes and stores every gossip message, and the housekeeping ticks of
 * the main loop.
 *
 * Awaited database calls end in one of three ways, given as parameters: they
 * complete, they fail, or the surrounding `timeout` fires first. A failed or
 * timed-out call is modelled as having changed nothing.
 */
module Operator {
  import opened Results
  import opened MessageTypes
  import opened Resolver
  import RadioConfig

  newtype uint8 = x: int | 0 <= x < 256

  /** The raw payload of a Waku message. */
  type Bytes = seq<uint8>

  /**
   * `GraphcastMessage::<T>::decode` for the three supported payload types, as
   * partial functions: protobuf and EIP-712 decoding are not modelled.
   */
  datatype Decoders = Decoders(
    publicPoi: Bytes -> Option<GraphcastMessage<PublicPoiMessage>>,
    upgradeIntent: Bytes -> Option<GraphcastMessage<UpgradeIntentMessage>>,
    simple: Bytes -> Option<GraphcastMessage<SimpleMessage>>)

  /** The decode chain of `process_message`: the first decoder that accepts the payload wins. */
  function DecodeChain(d: Decoders, payload: Bytes): (r: Option<StoredMessage>)
    ensures r.None? <==>
      d.publicPoi(payload).None? && d.upgradeIntent(payload).None? && d.simple(payload).None?
    ensures d.publicPoi(payload).Some? ==> r == Some(WrapPoi(d.publicPoi(payload).value))
    ensures d.publicPoi(payload).None? && d.upgradeIntent(payload).Some? ==>
      r == Some(WrapUpgrade(d.upgradeIntent(payload).value))
    ensures d.publicPoi(payload).None? && d.upgradeIntent(payload).None? && d.simple(payload).Some? ==>
      r == Some(WrapSimple(d.simple(payload).value))
  {
    match d.publicPoi(payload)
    case Some(m) => Some(WrapPoi(m))
    case None =>
      match d.upgradeIntent(payload)
      case Some(m) => Some(WrapUpgrade(m))
      case None =>
        match d.simple(payload)
        case Some(m) => Some(WrapSimple(m))
        case None => None
  }

  /** Once a decoder accepts a payload, the decoders after it are never consulted. */
  lemma LaterDecodersIgnored(d: Decoders, d': Decoders, payload: Bytes)
    requires d.publicPoi == d'.publicPoi
    requires d.publicPoi(payload).Some? ||
      (d.upgradeIntent == d'.upgradeIntent && d.upgradeIntent(payload).Some?)
    ensures DecodeChain(d, payload) == DecodeChain(d', payload)
  {
  }

  /** Why `process_message` returned an error. */
  datatype ProcessError =
    | UnsupportedMessageTypes   // no decoder accepted the payload
    | InsertFailed              // `add_message` returned an error

  /**
   * `process_message`: store the first successful decoding with one
   * `add_message`. `insertFails` is the outcome of that database call.
   */
  function ProcessMessage(t: Table, d: Decoders, payload: Bytes, insertFails: bool)
    : (r: (Table, Result<int, ProcessError>))
    requires Valid(t)
    ensures Valid(r.0)
    ensures r.1.Ok? <==> DecodeChain(d, payload).Some? && !insertFails
    ensures r.1.Ok? ==> r.0 == AddMessage(t, DecodeChain(d, payload).value).0 && r.1.value == t.nextId
    ensures r.1.Err? ==> r.0 == t
    ensures DecodeChain(d, payload).None? ==> r.1 == Err(UnsupportedMessageTypes)
  {
    match DecodeChain(d, payload)
    case None => (t, Err(UnsupportedMessageTypes))
    case Some(m) =>
      if insertFails then (t, Err(InsertFailed))
      else
        var (t', id) := AddMessage(t, m);
        (t', Ok(id))
  }

  /** How the awaited `process_message` ended under its one-second timeout. */
  datatype Fault = Completes | Fails | TimesOut

  /** A delivery from the Waku receiver, with the fate of its database call. */
  datatype Delivery = Delivery(payload: Bytes, fault: Fault)

  /** What the processor logged for one delivery. */
  datatype Outcome = Stored(id: int) | Rejected(error: ProcessError) | TimedOut

  /** The message processor: the table, `RECEIVED_MESSAGES`, and one logged outcome per delivery. */
  datatype Processor = Processor(table: Table, received: nat, outcomes: seq<Outcome>)

  /**
   * One iteration of the processor's receive loop. Decoding never awaits, and
   * `timeout` polls the wrapped future before its timer, so a payload that does
   * not decode is always rejected; only the insert of a decoded message can
   * time out.
   */
  function ProcessorStep(p: Processor, d: Decoders, delivery: Delivery): (r: Processor)
    requires Valid(p.table)
    ensures Valid(r.table)
    ensures r.received == p.received + 1
    ensures |r.outcomes| == |p.outcomes| + 1 && r.outcomes[..|p.outcomes|] == p.outcomes
    ensures |r.table.rows| <= |p.table.rows| + 1
    ensures DecodeChain(d, delivery.payload).None? ==>
      r.outcomes[|p.outcomes|] == Rejected(UnsupportedMessageTypes) && r.table == p.table
    ensures DecodeChain(d, delivery.payload).Some? && delivery.fault == TimesOut ==>
      r.outcomes[|p.outcomes|] == TimedOut && r.table == p.table
    ensures DecodeChain(d, delivery.payload).Some? && delivery.fault == Fails ==>
      r.outcomes[|p.outcomes|] == Rejected(InsertFailed) && r.table == p.table
    ensures DecodeChain(d, delivery.payload).Some? && delivery.fault == Completes ==>
      && r.outcomes[|p.outcomes|] == Stored(p.table.nextId)
      && r.table == AddMessage(p.table, DecodeChain(d, delivery.payload).value).0
  {
    var received := p.received + 1;
    if delivery.fault == TimesOut && DecodeChain(d, delivery.payload).Some? then
      Processor(p.table, received, p.outcomes + [TimedOut])
    else
      var (t', res) := ProcessMessage(p.table, d, delivery.payload, delivery.fault == Fails);
      var outcome := match res case Ok(id) => Stored(id) case Err(e) => Rejected(e);
      Processor(t', received, p.outcomes + [outcome])
  }

  /** For a payload that does not decode, the fate of the database call makes no difference. */
  lemma UndecodableIgnoresFault(p: Processor, d: Decoders, delivery: Delivery)
    requires Valid(p.table) && DecodeChain(d, delivery.payload).None?
    ensures ProcessorStep(p, d, delivery) == ProcessorStep(p, d, delivery.(fault := Completes))
  {
  }

  /** The processor loop over a sequence of deliveries. */
  function RunProcessor(p: Processor, d: Decoders, deliveries: seq<Delivery>): (r: Processor)
    requires Valid(p.table)
    ensures Valid(r.table)
    decreases |deliveries|
  {
    if |deliveries| == 0 then p
    else RunProcessor(ProcessorStep(p, d, deliveries[0]), d, deliveries[1..])
  }

  /** The message one delivery stores, if any: it decoded and its insert completed. */
  function AcceptedOne(d: Decoders, delivery: Delivery): (r: seq<StoredMessage>)
    ensures |r| <= 1
  {
    var decoded := DecodeChain(d, delivery.payload);
    if delivery.fault == Completes && decoded.Some? then [decoded.value] else []
  }

  /** The messages a run of deliveries stores, in delivery order. */
  function Accepted(d: Decoders, deliveries: seq<Delivery>): seq<StoredMessage> {
    if |deliveries| == 0 then []
    else AcceptedOne(d, deliveries[0]) + Accepted(d, deliveries[1..])
  }

  /** One processor step stores the delivery's accepted message, if any, with one insert. */
  lemma ProcessorStepTable(p: Processor, d: Decoders, delivery: Delivery)
    requires Valid(p.table)
    ensures var accepted := AcceptedOne(d, delivery);
      ProcessorStep(p, d, delivery).table == if accepted == [] then p.table else AddMessage(p.table, accepted[0]).0
  {
  }

  /**
   * Over any run of deliveries, every delivery is counted as received and
   * gets one outcome, whatever happened to the ones before it, and the table
   * ends as if exactly the accepted messages had been inserted, in delivery
   * order.
   */
  lemma {:induction false} RunProcessorTable(p: Processor, d: Decoders, deliveries: seq<Delivery>)
    requires Valid(p.table)
    ensures RunProcessor(p, d, deliveries).received == p.received + |deliveries|
    ensures |RunProcessor(p, d, deliveries).outcomes| == |p.outcomes| + |deliveries|
    ensures RunProcessor(p, d, deliveries).table == AddAll(p.table, Accepted(d, deliveries))
    decreases |deliveries|
  {
    if |deliveries| > 0 {
      var p' := ProcessorStep(p, d, deliveries[0]);
      var here, rest := AcceptedOne(d, deliveries[0]), Accepted(d, deliveries[1..]);
      assert RunProcessor(p, d, deliveries) == RunProcessor(p', d, deliveries[1..]);
      assert Accepted(d, deliveries) == here + rest;
      ProcessorStepTable(p, d, deliveries[0]);
      RunProcessorTable(p', d, deliveries[1..]);
      if here != [] {
        assert (here + rest)[1..] == rest;
      } else {
        assert here + rest == rest;
      }
    }
  }

  /**
   * The listing after a run of deliveries is the listing before it followed
   * by the accepted messages, in delivery order, under consecutive fresh ids.
   * Nothing is deduplicated.
   */
  lemma RunProcessorStores(p: Processor, d: Decoders, deliveries: seq<Delivery>)
    requires Valid(p.table)
    ensures ListMessages(RunProcessor(p, d, deliveries).table)
         == ListMessages(p.table) + Numbered(Accepted(d, deliveries), p.table.nextId)
  {
    RunProcessorTable(p, d, deliveries);
    AddAllThenList(p.table, Accepted(d, deliveries));
  }

  /** A payload that decodes and is stored twice is accepted twice. */
  lemma AcceptedTwice(d: Decoders, payload: Bytes)
    requires DecodeChain(d, payload).Some?
    ensures var one := Delivery(payload, Completes);
      Accepted(d, [one, one]) == [DecodeChain(d, payload).value, DecodeChain(d, payload).value]
  {
    var one := Delivery(payload, Completes);
    var m := DecodeChain(d, payload).value;
    assert AcceptedOne(d, one) == [m];
    assert [one][1..] == [];
    assert Accepted(d, [one]) == [m] + Accepted(d, []);
    assert [one, one][1..] == [one];
    assert Accepted(d, [one, one]) == [m] + Accepted(d, [one]);
  }

  /** The same payload delivered twice is stored twice, under two ids. */
  lemma RedeliveryStoredTwice(p: Processor, d: Decoders, payload: Bytes)
    requires Valid(p.table) && DecodeChain(d, payload).Some?
    ensures var m := DecodeChain(d, payload).value;
      ListMessages(RunProcessor(p, d, [Delivery(payload, Completes), Delivery(payload, Completes)]).table)
        == ListMessages(p.table) + [Row(p.table.nextId, m), Row(p.table.nextId + 1, m)]
  {
    var m := DecodeChain(d, payload).value;
    var one := Delivery(payload, Completes);
    RunProcessorStores(p, d, [one, one]);
    AcceptedTwice(d, payload);
    NumberedPair(m, p.table.nextId);
  }

  lemma NumberedPair(m: StoredMessage, first: int)
    ensures Numbered([m, m], first) == [Row(first, m), Row(first + 1, m)]
  {
    assert [m, m][1..] == [m];
    assert [m][1..] == [];
  }

  // ---------------------------------------------------------------------
  // The main loop's ticks
  // ---------------------------------------------------------------------

  /** Observable state of `RadioOperator::run`. */
  datatype OperatorState = OperatorState(
    table: Table,
    skipIteration: bool,
    prunedGauge: int,     // PRUNED_MESSAGES
    cachedGauge: int,     // CACHED_MESSAGES
    topicRefreshes: nat,  // content-topic updates performed by network ticks
    aggregateRuns: nat)   // daily aggregations performed

  datatype PruneKind = ByMaxStorage | ByRetention

  /** One prune call of a summary tick and the count it contributed, `None` when it failed or timed out. */
  datatype PruneCall = PruneCall(kind: PruneKind, deleted: Option<int>)

  /** How the awaited `count_messages` ended; its timeout reaches an `expect` and panics. */
  datatype CountOutcome = Counted(n: int) | CountFailed | CountTimedOut

  /** What the summary tick depends on besides the state: the clock and each call's fate. */
  datatype SummaryEnv = SummaryEnv(now: int, retainFault: Fault, pruneFault: Fault, count: CountOutcome)

  datatype SummaryReport = SummaryReport(
    state: OperatorState,
    calls: seq<PruneCall>,
    totalPruned: int,
    panicked: bool)

  /** The sum of the counts of the calls that succeeded. */
  function SucceededTotal(calls: seq<PruneCall>): (r: int)
    ensures (forall i :: 0 <= i < |calls| && calls[i].deleted.Some? ==> calls[i].deleted.value >= 0) ==> r >= 0
  {
    if |calls| == 0 then 0
    else
      var here := if calls[0].deleted.Some? then calls[0].deleted.value else 0;
      assert forall i :: 0 <= i < |calls| - 1 ==> calls[1..][i] == calls[i + 1];
      here + SucceededTotal(calls[1..])
  }

  /** `retain_max_storage` under its timeout; `None` when it errs or times out. */
  function RetainStep(t: Table, maxStorage: int, fault: Fault): (r: (Table, Option<int>))
    requires Valid(t)
    ensures Valid(r.0)
    ensures r.1.None? ==> r.0 == t
    ensures r.1.Some? <==> fault == Completes && RetainMaxStorage(t, maxStorage).Ok?
    ensures r.1.Some? ==> (r.0, r.1.value) == RetainMaxStorage(t, maxStorage).value
  {
    if fault != Completes then (t, None)
    else match RetainMaxStorage(t, maxStorage)
      case Ok((t', n)) => (t', Some(n))
      case Err(_) => (t, None)
  }

  /** `prune_old_messages` under its timeout; `None` when it errs or times out. */
  function PruneStep(t: Table, now: int, retention: int, fault: Fault): (r: (Table, Option<int>))
    requires Valid(t)
    ensures Valid(r.0)
    ensures r.1.None? <==> fault != Completes || PruneOldMessages(t, now, retention).Err?
    ensures r.1.None? ==> r.0 == t
    ensures r.1.Some? ==> (r.0, r.1.value) == PruneOldMessages(t, now, retention).value
  {
    if fault != Completes then (t, None)
    else match PruneOldMessages(t, now, retention)
      case Ok((t', n)) => (t', Some(n))
      case Err(_) => (t, None)
  }

  /** The max-storage phase of a summary tick: one `retain_max_storage` call, only when configured. */
  function RetainPhase(t: Table, c: RadioConfig.Config, fault: Fault): (r: (Table, seq<PruneCall>))
    requires Valid(t)
    ensures Valid(r.0)
    ensures c.maxStorage.None? ==> r == (t, [])
    ensures c.maxStorage.Some? ==> |r.1| == 1 && r.1[0].kind == ByMaxStorage
    ensures c.maxStorage.Some? ==> (r.0, r.1[0].deleted) == RetainStep(t, c.maxStorage.value, fault)
  {
    if c.maxStorage.Some? then
      var step := RetainStep(t, c.maxStorage.value, fault);
      (step.0, [PruneCall(ByMaxStorage, step.1)])
    else (t, [])
  }

  /** `PRUNED_MESSAGES` after a run of prune calls: set to the running total after each one that succeeded. */
  function GaugeAfter(gauge: int, total: int, calls: seq<PruneCall>): (r: int)
    ensures r == gauge || exists i :: 0 <= i < |calls| && calls[i].deleted.Some?
    ensures |calls| > 0 && calls[|calls| - 1].deleted.Some? ==> r == total + SucceededTotal(calls)
    decreases |calls|
  {
    if |calls| == 0 then gauge
    else if calls[0].deleted.Some? then
      var total' := total + calls[0].deleted.value;
      GaugeAfter(total', total', calls[1..])
    else GaugeAfter(gauge, total, calls[1..])
  }

  /** The gauge ends at the grand total when some call succeeded, and is untouched otherwise. */
  lemma {:induction false} GaugeAfterMeaning(gauge: int, total: int, calls: seq<PruneCall>)
    ensures (exists i :: 0 <= i < |calls| && calls[i].deleted.Some?) ==>
      GaugeAfter(gauge, total, calls) == total + SucceededTotal(calls)
    ensures (forall i :: 0 <= i < |calls| ==> calls[i].deleted.None?) ==>
      GaugeAfter(gauge, total, calls) == gauge
    decreases |calls|
  {
    if |calls| > 0 {
      var rest := calls[1..];
      if calls[0].deleted.Some? {
        GaugeAfterMeaning(total + calls[0].deleted.value, total + calls[0].deleted.value, rest);
        if forall i :: 0 <= i < |rest| ==> rest[i].deleted.None? {
          NoneTotalZero(rest);
        }
      } else {
        GaugeAfterMeaning(gauge, total, rest);
        if exists i :: 0 <= i < |calls| && calls[i].deleted.Some? {
          var i :| 0 <= i < |calls| && calls[i].deleted.Some?;
          assert rest[i - 1].deleted.Some?;
        }
        forall i | 0 <= i < |rest| && (forall j :: 0 <= j < |calls| ==> calls[j].deleted.None?)
          ensures rest[i].deleted.None?
        {
          assert rest[i] == calls[i + 1];
        }
      }
    }
  }

  lemma {:induction false} NoneTotalZero(calls: seq<PruneCall>)
    requires forall i :: 0 <= i < |calls| ==> calls[i].deleted.None?
    ensures SucceededTotal(calls) == 0
    decreases |calls|
  {
    if |calls| > 0 {
      assert calls[0].deleted.None?;
      NoneTotalZero(calls[1..]);
    }
  }

  /**
   * The summary tick. A set skip flag is cleared and the tick does nothing
   * else. Otherwise it prunes by max storage (only when configured), then by
   * retention, adds up what the successful calls deleted, updates
   * `PRUNED_MESSAGES` after each success, and records the message count; a
   * timed-out count panics.
   */
  function SummaryTick(s: OperatorState, c: RadioConfig.Config, env: SummaryEnv): (r: SummaryReport)
    requires Valid(s.table)
    ensures Valid(r.state.table)
    ensures !r.state.skipIteration
    ensures s.skipIteration ==> r == SummaryReport(s.(skipIteration := false), [], 0, false)
    ensures !s.skipIteration ==> |r.calls| == (if c.maxStorage.Some? then 2 else 1)
    ensures !s.skipIteration ==> r.calls[|r.calls| - 1].kind == ByRetention
    ensures !s.skipIteration ==> (r.panicked <==> env.count == CountTimedOut)
    ensures !s.skipIteration && env.count.Counted? ==> r.state.cachedGauge == env.count.n
    ensures !env.count.Counted? ==> r.state.cachedGauge == s.cachedGauge
    ensures r.state.topicRefreshes == s.topicRefreshes && r.state.aggregateRuns == s.aggregateRuns
  {
    if s.skipIteration then SummaryReport(s.(skipIteration := false), [], 0, false)
    else
      var phase := RetainPhase(s.table, c, env.retainFault);
      var prune := PruneStep(phase.0, env.now, c.retention, env.pruneFault);
      var calls := phase.1 + [PruneCall(ByRetention, prune.1)];
      var cached := if env.count.Counted? then env.count.n else s.cachedGauge;
      SummaryReport(
        s.(table := prune.0, prunedGauge := GaugeAfter(s.prunedGauge, 0, calls), cachedGauge := cached),
        calls, SucceededTotal(calls), env.count == CountTimedOut)
  }

  /** The reported total is what the successful calls deleted; the gauge shows it unless every call failed. */
  lemma SummaryTotals(s: OperatorState, c: RadioConfig.Config, env: SummaryEnv)
    requires Valid(s.table) && !s.skipIteration
    ensures var r := SummaryTick(s, c, env);
      && r.totalPruned == SucceededTotal(r.calls)
      && ((exists i :: 0 <= i < |r.calls| && r.calls[i].deleted.Some?) ==> r.state.prunedGauge == r.totalPruned)
      && ((forall i :: 0 <= i < |r.calls| ==> r.calls[i].deleted.None?) ==> r.state.prunedGauge == s.prunedGauge && r.totalPruned == 0)
  {
    var r := SummaryTick(s, c, env);
    GaugeAfterMeaning(s.prunedGauge, 0, r.calls);
    if forall i :: 0 <= i < |r.calls| ==> r.calls[i].deleted.None? {
      NoneTotalZero(r.calls);
    }
  }

  /**
   * Without a max-storage setting the tick is one retention prune: when it
   * goes through, the table, the total and the gauge are its outcome; when it
   * errs or times out, the table and the gauge stay as they were and the total
   * is 0.
   */
  lemma SummaryWithoutMaxStorage(s: OperatorState, c: RadioConfig.Config, env: SummaryEnv)
    requires Valid(s.table) && !s.skipIteration && c.maxStorage.None?
    ensures var r := SummaryTick(s, c, env);
      var pruned := PruneOldMessages(s.table, env.now, c.retention);
      if env.pruneFault == Completes && pruned.Ok? then
        && r.state.table == pruned.value.0
        && r.totalPruned == pruned.value.1
        && r.state.prunedGauge == pruned.value.1
      else
        && r.state.table == s.table
        && r.totalPruned == 0
        && r.state.prunedGauge == s.prunedGauge
  {
    var r := SummaryTick(s, c, env);
    var prune := PruneStep(s.table, env.now, c.retention, env.pruneFault);
    var last := PruneCall(ByRetention, prune.1);
    assert r.calls == [last];
    assert r.calls[1..] == [];
    if prune.1.Some? {
      assert GaugeAfter(s.prunedGauge, 0, r.calls) == GaugeAfter(prune.1.value, prune.1.value, []);
    } else {
      assert GaugeAfter(s.prunedGauge, 0, r.calls) == GaugeAfter(s.prunedGauge, 0, []);
    }
    assert SucceededTotal(r.calls) == (if prune.1.Some? then prune.1.value else 0) + SucceededTotal([]);
  }

  /**
   * With a max-storage setting the tick retains the newest rows first and then
   * prunes by retention what is left. A retain that errs or times out leaves
   * the table to the retention prune as it was, and adds 0. A retention prune
   * that errs or times out leaves the retained table, and the total and the
   * gauge are then the retain's count alone (the gauge keeps its old value when
   * the retain failed too).
   */
  lemma SummaryWithMaxStorage(s: OperatorState, c: RadioConfig.Config, env: SummaryEnv)
    requires Valid(s.table) && !s.skipIteration && c.maxStorage.Some?
    ensures var r := SummaryTick(s, c, env);
      var retained := RetainMaxStorage(s.table, c.maxStorage.value);
      var retainOk := env.retainFault == Completes && retained.Ok?;
      var kept := if retainOk then retained.value.0 else s.table;
      var n := if retainOk then retained.value.1 else 0;
      var pruned := PruneOldMessages(kept, env.now, c.retention);
      if env.pruneFault == Completes && pruned.Ok? then
        && r.state.table == pruned.value.0
        && r.totalPruned == n + pruned.value.1
        && r.state.prunedGauge == r.totalPruned
      else
        && r.state.table == kept
        && r.totalPruned == n
        && r.state.prunedGauge == (if retainOk then n else s.prunedGauge)
  {
    var r := SummaryTick(s, c, env);
    var phase := RetainPhase(s.table, c, env.retainFault);
    var prune := PruneStep(phase.0, env.now, c.retention, env.pruneFault);
    var first := phase.1[0];
    var last := PruneCall(ByRetention, prune.1);
    assert r.calls == [first, last];
    assert r.calls[1..] == [last] && r.calls[1..][1..] == [];
    var here := if first.deleted.Some? then first.deleted.value else 0;
    var there := if prune.1.Some? then prune.1.value else 0;
    assert SucceededTotal(r.calls) == here + (there + SucceededTotal([]));
    if first.deleted.Some? {
      var n := first.deleted.value;
      assert GaugeAfter(s.prunedGauge, 0, r.calls) == GaugeAfter(n, n, [last]);
      if prune.1.Some? {
        assert GaugeAfter(n, n, [last]) == GaugeAfter(n + prune.1.value, n + prune.1.value, []);
      } else {
        assert GaugeAfter(n, n, [last]) == GaugeAfter(n, n, []);
      }
    } else {
      assert GaugeAfter(s.prunedGauge, 0, r.calls) == GaugeAfter(s.prunedGauge, 0, [last]);
      if prune.1.Some? {
        assert GaugeAfter(s.prunedGauge, 0, [last]) == GaugeAfter(prune.1.value, prune.1.value, []);
      } else {
        assert GaugeAfter(s.prunedGauge, 0, [last]) == GaugeAfter(s.prunedGauge, 0, []);
      }
    }
  }

  /**
   * The network-update tick. Only with `filter_protocol` set to true does it
   * look at the skip flag (clearing it and skipping the topic refresh) or
   * refresh the content topics.
   */
  function NetworkTick(s: OperatorState, c: RadioConfig.Config): (r: OperatorState)
    ensures c.filterProtocol != Some(true) ==> r == s
    ensures c.filterProtocol == Some(true) && s.skipIteration ==> r == s.(skipIteration := false)
    ensures c.filterProtocol == Some(true) && !s.skipIteration ==>
      r == s.(topicRefreshes := s.topicRefreshes + 1)
  {
    if c.filterProtocol == Some(true) then
      if s.skipIteration then s.(skipIteration := false)
      else s.(topicRefreshes := s.topicRefreshes + 1)
    else s
  }

  /**
   * The daily-aggregate tick. Fetching statistics and inserting aggregates
   * are outside the model; only whether the aggregation ran is tracked.
   */
  function DailyTick(s: OperatorState): (r: OperatorState)
    ensures !r.skipIteration
    ensures s.skipIteration ==> r == s.(skipIteration := false)
    ensures !s.skipIteration ==> r == s.(aggregateRuns := s.aggregateRuns + 1)
  {
    if s.skipIteration then s.(skipIteration := false) else s.(aggregateRuns := s.aggregateRuns + 1)
  }

  /** The events that drive the main loop. */
  datatype Event =
    | NetworkUpdate
    | SummaryUpdate(env: SummaryEnv)
    | DailyAggregate
    | IterationTimeout   // the spawned task that sets the skip flag after 180 seconds

  /** One event of the main loop; `None` when the tick panicked and the loop ended. */
  function Step(s: OperatorState, c: RadioConfig.Config, e: Event): (r: Option<OperatorState>)
    requires Valid(s.table)
    ensures r.Some? ==> Valid(r.value.table)
    ensures r.Some? && e != IterationTimeout && r.value.skipIteration ==> s.skipIteration
    ensures r.None? ==> e.SummaryUpdate?
    ensures e == NetworkUpdate ==> r == Some(NetworkTick(s, c))
    ensures e == DailyAggregate ==> r == Some(DailyTick(s))
    ensures e == IterationTimeout ==> r == Some(s.(skipIteration := true))
    ensures e.SummaryUpdate? ==> (r.None? <==> SummaryTick(s, c, e.env).panicked)
    ensures e.SummaryUpdate? && r.Some? ==> r.value == SummaryTick(s, c, e.env).state
  {
    match e
    case NetworkUpdate => Some(NetworkTick(s, c))
    case SummaryUpdate(env) =>
      var rep := SummaryTick(s, c, env);
      if rep.panicked then None else Some(rep.state)
    case DailyAggregate => Some(DailyTick(s))
    case IterationTimeout => Some(s.(skipIteration := true))
  }

  /**
   * After an iteration timeout, whichever tick runs next and looks at the flag
   * clears it and does none of its work: a summary tick prunes nothing, a daily
   * tick runs no aggregation, and a network tick with `filter_protocol` does
   * not refresh the topics.
   */
  lemma TimeoutSkipsNextTick(s: OperatorState, c: RadioConfig.Config, e: Event)
    requires Valid(s.table) && e != IterationTimeout
    requires e.NetworkUpdate? ==> c.filterProtocol == Some(true)
    ensures var s' := Step(s, c, IterationTimeout).value;
      var r := Step(s', c, e);
      && r.Some?
      && !r.value.skipIteration
      && r.value.table == s.table
      && r.value.aggregateRuns == s.aggregateRuns
      && r.value.topicRefreshes == s.topicRefreshes
      && r.value.prunedGauge == s.prunedGauge
  {
  }

  /** A set skip flag costs exactly one summary tick its work, and the next one runs normally. */
  lemma SkipConsumedOnce(s: OperatorState, c: RadioConfig.Config, env1: SummaryEnv, env2: SummaryEnv)
    requires Valid(s.table) && s.skipIteration
    ensures SummaryTick(s, c, env1).calls == []
    ensures SummaryTick(s, c, env1).state.table == s.table
    ensures |SummaryTick(SummaryTick(s, c, env1).state, c, env2).calls| >= 1
  {
  }
}
