/**
 * The row-serving resolvers of the GraphQL API (src/server/model/mod.rs):
 * the queries `rows`, `row`, `messages` and `message` and the mutations
 * `delete_message` and `delete_messages`.
 *
 * Each of them reads the stored JSON back as
 * `GraphcastMessage<RadioPayloadMessage>`. A public POI or ping-pong payload
 * carries the `identifier` and `content` that type needs (serde skips the
 * other fields); an upgrade intent carries neither, so a single stored
 * upgrade intent in the rows a resolver reads makes that resolver fail.
 */
module GraphQLRoot {
  import opened Results
  import opened MessageTypes
  import opened RadioTypes
  import opened Resolver

  /** `GraphcastMessage<RadioPayloadMessage>`, the message type every resolver here serves. */
  type RadioMessage = GraphcastMessage<RadioPayloadMessage>

  /** What a resolver returns on failure (`HttpServiceError`). */
  datatype ServiceError =
    | Query(cause: DbError)  // the query itself failed
    | Undecodable            // a returned row is not a `GraphcastMessage<RadioPayloadMessage>`

  /** Serde's reading of a stored message as a radio message: `None` for an upgrade intent. */
  function AsRadio(m: StoredMessage): (r: Option<RadioMessage>)
    ensures r.None? <==> m.payload.UpgradeIntent?
    ensures r.Some? ==>
      r.value.identifier == m.identifier && r.value.nonce == m.nonce &&
      r.value.graphAccount == m.graphAccount && r.value.signature == m.signature
    ensures m.payload.PublicPoi? ==>
      r.Some? && r.value.payload == RadioPayloadMessage(m.payload.poi.identifier, m.payload.poi.content)
    ensures m.payload.Simple? ==>
      r.Some? && r.value.payload == RadioPayloadMessage(m.payload.simple.identifier, m.payload.simple.content)
  {
    match m.payload
    case PublicPoi(p) =>
      Some(GraphcastMessage(m.identifier, RadioPayloadMessage(p.identifier, p.content), m.nonce, m.graphAccount, m.signature))
    case Simple(p) =>
      Some(GraphcastMessage(m.identifier, RadioPayloadMessage(p.identifier, p.content), m.nonce, m.graphAccount, m.signature))
    case UpgradeIntent(_) => None
  }

  /** Decodes fetched messages in order; the first one that does not decode fails them all. */
  function DecodeAll(ms: seq<StoredMessage>): (r: Result<seq<RadioMessage>, ServiceError>)
    ensures r.Err? <==> exists i :: 0 <= i < |ms| && AsRadio(ms[i]).None?
    ensures r.Err? ==> r.error == Undecodable
    ensures r.Ok? ==> |r.value| == |ms| && forall i :: 0 <= i < |ms| ==> AsRadio(ms[i]) == Some(r.value[i])
  {
    if |ms| == 0 then Ok([])
    else match AsRadio(ms[0])
      case None => Err(Undecodable)
      case Some(m) =>
        var rest := DecodeAll(ms[1..]);
        if rest.Err? then
          var i :| 0 <= i < |ms[1..]| && AsRadio(ms[1..][i]).None?;
          assert AsRadio(ms[i + 1]).None?;
          Err(Undecodable)
        else
          var r := [m] + rest.value;
          assert forall i :: 1 <= i < |ms| ==> AsRadio(ms[i]) == AsRadio(ms[1..][i - 1]);
          Ok(r)
  }

  /** Every stored row reads as a radio message. */
  ghost predicate AllDecode(t: Table) {
    forall id :: id in t.rows ==> AsRadio(t.rows[id]).Some?
  }

  /** The messages of a listing, in listing order. */
  function MessagesOf(rs: seq<Row>): (ms: seq<StoredMessage>)
    ensures |ms| == |rs| && forall i :: 0 <= i < |rs| ==> ms[i] == rs[i].message
  {
    seq(|rs|, i requires 0 <= i < |rs| => rs[i].message)
  }

  /** Some listed message fails to decode exactly when some stored row does. */
  lemma ListingDecodes(t: Table)
    requires Valid(t)
    ensures (exists i :: 0 <= i < |ListMessages(t)| && AsRadio(ListMessages(t)[i].message).None?) <==> !AllDecode(t)
  {
    var rs := ListMessages(t);
    ListMessagesLists(t);
    if !AllDecode(t) {
      var id :| id in t.rows && AsRadio(t.rows[id]).None?;
      assert Row(id, t.rows[id]) in rs;
      var i :| 0 <= i < |rs| && rs[i] == Row(id, t.rows[id]);
    }
    if exists i :: 0 <= i < |rs| && AsRadio(rs[i].message).None? {
      var i :| 0 <= i < |rs| && AsRadio(rs[i].message).None?;
      assert rs[i] in rs;
    }
  }

  /** `rows`: `list_rows` read as radio messages. */
  function QueryRows(t: Table): (r: Result<seq<GraphQLRow<RadioMessage>>, ServiceError>)
    requires Valid(t)
    ensures r.Ok? <==> AllDecode(t)
    ensures r.Err? ==> r.error == Undecodable
    ensures r.Ok? ==> |r.value| == |t.rows| && forall i :: 0 <= i < |r.value| ==>
      r.value[i].id == ListMessages(t)[i].id && AsRadio(ListMessages(t)[i].message) == Some(r.value[i].message)
  {
    var gs := ListRows(t);
    ListingDecodes(t);
    var decoded := DecodeAll(MessagesOf(ListMessages(t)));
    if decoded.Err? then Err(decoded.error)
    else Ok(seq(|gs|, i requires 0 <= i < |gs| => GraphQLRow(gs[i].id, decoded.value[i])))
  }

  /** `messages`: `list_messages` read as radio messages, without the ids. */
  function QueryMessages(t: Table): (r: Result<seq<RadioMessage>, ServiceError>)
    requires Valid(t)
    ensures r.Ok? <==> AllDecode(t)
    ensures r.Err? ==> r.error == Undecodable
    ensures r.Ok? ==> |r.value| == |t.rows| && forall i :: 0 <= i < |r.value| ==>
      AsRadio(ListMessages(t)[i].message) == Some(r.value[i])
  {
    ListingDecodes(t);
    DecodeAll(MessagesOf(ListMessages(t)))
  }

  /** `messages` serves exactly the message column of what `rows` serves. */
  lemma MessagesAreRowMessages(t: Table)
    requires Valid(t)
    ensures QueryMessages(t).Ok? <==> QueryRows(t).Ok?
    ensures QueryMessages(t).Ok? ==>
      |QueryMessages(t).value| == |QueryRows(t).value| &&
      forall i :: 0 <= i < |QueryRows(t).value| ==> QueryMessages(t).value[i] == QueryRows(t).value[i].message
  {
  }

  /** `row`: `message_by_id` read as a radio message. */
  function QueryRow(t: Table, id: int): (r: Result<GraphQLRow<RadioMessage>, ServiceError>)
    ensures id !in t.rows ==> r == Err(Query(RowNotFound))
    ensures id in t.rows ==> (r.Ok? <==> AsRadio(t.rows[id]).Some?)
    ensures id in t.rows && r.Err? ==> r.error == Undecodable
    ensures r.Ok? ==> r.value.id == id && id in t.rows && AsRadio(t.rows[id]) == Some(r.value.message)
  {
    match MessageById(t, id)
    case Err(e) => Err(Query(e))
    case Ok(row) =>
      match AsRadio(row.message)
      case None => Err(Undecodable)
      case Some(m) => Ok(GraphQLRow(row.id, m))
  }

  /** `message`: `message_by_id` read as a radio message, without the id. */
  function QueryMessage(t: Table, id: int): (r: Result<RadioMessage, ServiceError>)
    ensures id !in t.rows ==> r == Err(Query(RowNotFound))
    ensures id in t.rows ==> (r.Ok? <==> AsRadio(t.rows[id]).Some?)
    ensures id in t.rows && r.Err? ==> r.error == Undecodable
    ensures r.Ok? ==> id in t.rows && AsRadio(t.rows[id]) == Some(r.value)
  {
    match MessageById(t, id)
    case Err(e) => Err(Query(e))
    case Ok(row) =>
      match AsRadio(row.message)
      case None => Err(Undecodable)
      case Some(m) => Ok(m)
  }

  /**
   * `delete_message`. The `DELETE ... RETURNING` statement commits before the
   * returned row is decoded, so a row that does not decode is gone all the same.
   */
  function DeleteMessage(t: Table, id: int): (r: (Table, Result<RadioMessage, ServiceError>))
    requires Valid(t)
    ensures Valid(r.0) && r.0.nextId == t.nextId
    ensures id !in t.rows ==> r == (t, Err(Query(RowNotFound)))
    ensures id in t.rows ==> r.0.rows.Keys == t.rows.Keys - {id}
    ensures forall k :: k in r.0.rows ==> r.0.rows[k] == t.rows[k]
    ensures id in t.rows ==> (r.1.Ok? <==> AsRadio(t.rows[id]).Some?)
    ensures id in t.rows && r.1.Err? ==> r.1.error == Undecodable
    ensures r.1.Ok? ==> id in t.rows && AsRadio(t.rows[id]) == Some(r.1.value)
  {
    match DeleteMessageById(t, id)
    case Err(e) => (t, Err(Query(e)))
    case Ok((t', row)) =>
      match AsRadio(row.message)
      case None => (t', Err(Undecodable))
      case Some(m) => (t', Ok(m))
  }

  /**
   * `delete_messages`. Every row is deleted whether or not the returned rows
   * decode; when they do, the result is what `messages` served just before.
   */
  function DeleteMessages(t: Table): (r: (Table, Result<seq<RadioMessage>, ServiceError>))
    requires Valid(t)
    ensures r.0 == Table(map[], t.nextId)
    ensures r.1.Ok? <==> AllDecode(t)
    ensures r.1 == QueryMessages(t)
  {
    var (t', rs) := DeleteMessageAll(t);
    ListingDecodes(t);
    (t', DecodeAll(MessagesOf(rs)))
  }

  /** After `delete_message` the row is not found, whether or not the deleted row decoded. */
  lemma DeleteThenQueryRow(t: Table, id: int)
    requires Valid(t)
    ensures QueryRow(DeleteMessage(t, id).0, id) == Err(Query(RowNotFound))
    ensures forall k :: k != id ==> QueryRow(DeleteMessage(t, id).0, k) == QueryRow(t, k)
  {
  }

  /** Once the listener stores an upgrade intent, `rows` and `messages` fail until it is deleted. */
  lemma StoredUpgradeBreaksListing(t: Table, m: StoredMessage)
    requires Valid(t) && m.payload.UpgradeIntent?
    ensures QueryRows(AddMessage(t, m).0) == Err(Undecodable)
    ensures QueryMessages(AddMessage(t, m).0) == Err(Undecodable)
  {
    var (t', id) := AddMessage(t, m);
    assert AsRadio(t'.rows[id]).None?;
  }
}
