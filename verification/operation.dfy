/**
 * The message handler the Graphcast agent calls for each gossip message
 * (src/operator/operation.rs): it counts validated messages per identifier
 * and invalid ones per error type, and forwards valid ones to a channel.
 */
module Operation {
  import opened Results
  import opened MessageTypes
  import opened RadioTypes

  /** The agent's handling error; only its `type_string()` key is read. */
  datatype WakuHandlingError = WakuHandlingError(typeString: string)

  type RadioMessage = GraphcastMessage<RadioPayloadMessage>

  /**
   * The `VALIDATED_MESSAGES` and `INVALIDATED_MESSAGES` counter families by
   * key, and the messages the channel has accepted, oldest first.
   */
  datatype HandlerState = HandlerState(
    validated: map<string, nat>,
    invalidated: map<string, nat>,
    channel: seq<RadioMessage>)

  /** A labelled counter reads 0 until first incremented. */
  function Count(m: map<string, nat>, key: string): nat {
    if key in m then m[key] else 0
  }

  /** `with_label_values(&[key]).inc()`. */
  function Inc(m: map<string, nat>, key: string): (r: map<string, nat>)
    ensures forall l :: Count(r, l) == Count(m, l) + (if l == key then 1 else 0)
  {
    m[key := Count(m, key) + 1]
  }

  /**
   * One call of the handler. `sendOk` is whether the channel accepted the
   * message; a refused send is only logged, after the counter was bumped.
   */
  function RadioMsgHandler(s: HandlerState, msg: Result<RadioMessage, WakuHandlingError>, sendOk: bool)
    : (r: HandlerState)
    ensures msg.Ok? ==> forall l :: Count(r.validated, l) == Count(s.validated, l) + (if l == msg.value.identifier then 1 else 0)
    ensures msg.Ok? ==> r.invalidated == s.invalidated
    ensures msg.Ok? ==> r.channel == s.channel + (if sendOk then [msg.value] else [])
    ensures msg.Err? ==> forall l :: Count(r.invalidated, l) == Count(s.invalidated, l) + (if l == msg.error.typeString then 1 else 0)
    ensures msg.Err? ==> r.validated == s.validated && r.channel == s.channel
  {
    match msg
    case Ok(m) =>
      var validated := Inc(s.validated, m.identifier);
      HandlerState(validated, s.invalidated, if sendOk then s.channel + [m] else s.channel)
    case Err(e) =>
      s.(invalidated := Inc(s.invalidated, e.typeString))
  }

  /** One handler invocation: the message and whether the channel took it. */
  datatype Arrival = Arrival(msg: Result<RadioMessage, WakuHandlingError>, sendOk: bool)

  /** The handler applied to arrivals in order. */
  function HandleAll(s: HandlerState, arrivals: seq<Arrival>): HandlerState
    decreases |arrivals|
  {
    if |arrivals| == 0 then s
    else HandleAll(RadioMsgHandler(s, arrivals[0].msg, arrivals[0].sendOk), arrivals[1..])
  }

  /** How many valid arrivals carry this identifier. */
  function ValidWith(arrivals: seq<Arrival>, key: string): nat {
    if |arrivals| == 0 then 0
    else
      var here := if arrivals[0].msg.Ok? && arrivals[0].msg.value.identifier == key then 1 else 0;
      here + ValidWith(arrivals[1..], key)
  }

  /** How many invalid arrivals carry this error type. */
  function InvalidWith(arrivals: seq<Arrival>, key: string): nat {
    if |arrivals| == 0 then 0
    else
      var here := if arrivals[0].msg.Err? && arrivals[0].msg.error.typeString == key then 1 else 0;
      here + InvalidWith(arrivals[1..], key)
  }

  /** The valid messages the channel accepted, in arrival order. */
  function Delivered(arrivals: seq<Arrival>): seq<RadioMessage> {
    if |arrivals| == 0 then []
    else
      var here := if arrivals[0].msg.Ok? && arrivals[0].sendOk then [arrivals[0].msg.value] else [];
      here + Delivered(arrivals[1..])
  }

  /**
   * Over any run of arrivals, each key's counter grows by exactly the
   * number of arrivals with that key, and the channel receives the
   * accepted valid messages in arrival order.
   */
  lemma HandleAllCounts(s: HandlerState, arrivals: seq<Arrival>)
    ensures forall l :: Count(HandleAll(s, arrivals).validated, l) == Count(s.validated, l) + ValidWith(arrivals, l)
    ensures forall l :: Count(HandleAll(s, arrivals).invalidated, l) == Count(s.invalidated, l) + InvalidWith(arrivals, l)
    ensures HandleAll(s, arrivals).channel == s.channel + Delivered(arrivals)
  {
    forall l ensures Count(HandleAll(s, arrivals).validated, l) == Count(s.validated, l) + ValidWith(arrivals, l) {
      ValidatedCount(s, arrivals, l);
    }
    forall l ensures Count(HandleAll(s, arrivals).invalidated, l) == Count(s.invalidated, l) + InvalidWith(arrivals, l) {
      InvalidatedCount(s, arrivals, l);
    }
    ChannelContents(s, arrivals);
  }

  lemma {:induction false} ValidatedCount(s: HandlerState, arrivals: seq<Arrival>, l: string)
    ensures Count(HandleAll(s, arrivals).validated, l) == Count(s.validated, l) + ValidWith(arrivals, l)
    decreases |arrivals|
  {
    if |arrivals| > 0 {
      ValidatedCount(RadioMsgHandler(s, arrivals[0].msg, arrivals[0].sendOk), arrivals[1..], l);
    }
  }

  lemma {:induction false} InvalidatedCount(s: HandlerState, arrivals: seq<Arrival>, l: string)
    ensures Count(HandleAll(s, arrivals).invalidated, l) == Count(s.invalidated, l) + InvalidWith(arrivals, l)
    decreases |arrivals|
  {
    if |arrivals| > 0 {
      InvalidatedCount(RadioMsgHandler(s, arrivals[0].msg, arrivals[0].sendOk), arrivals[1..], l);
    }
  }

  lemma {:induction false} ChannelContents(s: HandlerState, arrivals: seq<Arrival>)
    ensures HandleAll(s, arrivals).channel == s.channel + Delivered(arrivals)
    decreases |arrivals|
  {
    if |arrivals| > 0 {
      var s' := RadioMsgHandler(s, arrivals[0].msg, arrivals[0].sendOk);
      ChannelContents(s', arrivals[1..]);
      ChannelStep(s, arrivals);
    }
  }

  /** The first arrival's share of the channel, reassociated. */
  lemma ChannelStep(s: HandlerState, arrivals: seq<Arrival>)
    requires |arrivals| > 0
    ensures var s' := RadioMsgHandler(s, arrivals[0].msg, arrivals[0].sendOk);
      s'.channel + Delivered(arrivals[1..]) == s.channel + Delivered(arrivals)
  {
    var a := arrivals[0];
    var rest := Delivered(arrivals[1..]);
    if a.msg.Ok? && a.sendOk {
      assert Delivered(arrivals) == [a.msg.value] + rest;
      assert s.channel + [a.msg.value] + rest == s.channel + ([a.msg.value] + rest);
    } else {
      assert Delivered(arrivals) == [] + rest;
      assert [] + rest == rest;
    }
  }

  /** Every arrival bumps exactly one of the two counter families by one. */
  lemma OneCounterPerArrival(s: HandlerState, a: Arrival)
    ensures var r := RadioMsgHandler(s, a.msg, a.sendOk);
      (a.msg.Ok? ==> r.invalidated == s.invalidated && Count(r.validated, a.msg.value.identifier) == Count(s.validated, a.msg.value.identifier) + 1)
      && (a.msg.Err? ==> r.validated == s.validated && Count(r.invalidated, a.msg.error.typeString) == Count(s.invalidated, a.msg.error.typeString) + 1)
  {
  }
}
