/**
 * The Graphcast envelope and the three radio payload types the listener
 * understands (src/message_types.rs), with their `valid_outer` checks: a
 * payload repeats some envelope fields, and those copies must agree.
 */
module MessageTypes {
  import opened Results

  /**
   * The outer `GraphcastMessage<T>` of the Graphcast SDK, reduced to the
   * fields this crate reads. The SDK itself is not part of this model.
   */
  datatype GraphcastMessage<T> = GraphcastMessage(
    identifier: string,
    payload: T,
    nonce: nat,
    graphAccount: string,
    signature: string)

  /** A public proof-of-indexing message (`PublicPoiMessage`). */
  datatype PublicPoiMessage = PublicPoiMessage(
    identifier: string,
    content: string,
    nonce: nat,
    network: string,
    blockNumber: nat,
    blockHash: string,
    graphAccount: string)

  /** The test radio type (`SimpleMessage`, EIP-712 name "PingPongMessage"). */
  datatype SimpleMessage = SimpleMessage(identifier: string, content: string)

  /** A subgraph owner's intent to upgrade a deployment (`UpgradeIntentMessage`). */
  datatype UpgradeIntentMessage = UpgradeIntentMessage(
    deployment: string,
    subgraphId: string,
    newHash: string,
    nonce: nat,
    graphAccount: string)

  /** `MessageError::InvalidFields`; the diagnostic text it carries is not modelled. */
  datatype MessageError = InvalidFields

  /** The payload of a stored message: whichever of the three types decoded it. */
  datatype Payload =
    | PublicPoi(poi: PublicPoiMessage)
    | UpgradeIntent(upgrade: UpgradeIntentMessage)
    | Simple(simple: SimpleMessage)

  /** What a row of the `messages` table holds, as JSON. */
  type StoredMessage = GraphcastMessage<Payload>

  function WrapPoi(m: GraphcastMessage<PublicPoiMessage>): StoredMessage {
    GraphcastMessage(m.identifier, PublicPoi(m.payload), m.nonce, m.graphAccount, m.signature)
  }

  function WrapUpgrade(m: GraphcastMessage<UpgradeIntentMessage>): StoredMessage {
    GraphcastMessage(m.identifier, UpgradeIntent(m.payload), m.nonce, m.graphAccount, m.signature)
  }

  function WrapSimple(m: GraphcastMessage<SimpleMessage>): StoredMessage {
    GraphcastMessage(m.identifier, Simple(m.payload), m.nonce, m.graphAccount, m.signature)
  }

  /** `PublicPoiMessage::valid_outer`: nonce, account and identifier must agree with the envelope. */
  function PoiValidOuter(p: PublicPoiMessage, outer: GraphcastMessage<PublicPoiMessage>)
    : (r: Result<PublicPoiMessage, MessageError>)
    ensures r.Ok? <==>
      p.nonce == outer.nonce && p.graphAccount == outer.graphAccount && p.identifier == outer.identifier
    ensures r.Ok? ==> r.value == p
    ensures r.Err? ==> r.error == InvalidFields
  {
    if p.nonce == outer.nonce && p.graphAccount == outer.graphAccount && p.identifier == outer.identifier
    then Ok(p)
    else Err(InvalidFields)
  }

  /** `SimpleMessage::valid_outer`: only the identifier is compared. */
  function SimpleValidOuter(p: SimpleMessage, outer: GraphcastMessage<SimpleMessage>)
    : (r: Result<SimpleMessage, MessageError>)
    ensures r.Ok? <==> p.identifier == outer.identifier
    ensures r.Ok? ==> r.value == p
    ensures r.Err? ==> r.error == InvalidFields
  {
    if p.identifier == outer.identifier then Ok(p) else Err(InvalidFields)
  }

  /** `UpgradeIntentMessage::valid_outer`: nonce and account are compared, the identifier is not. */
  function UpgradeValidOuter(p: UpgradeIntentMessage, outer: GraphcastMessage<UpgradeIntentMessage>)
    : (r: Result<UpgradeIntentMessage, MessageError>)
    ensures r.Ok? <==> p.nonce == outer.nonce && p.graphAccount == outer.graphAccount
    ensures r.Ok? ==> r.value == p
    ensures r.Err? ==> r.error == InvalidFields
  {
    if p.nonce == outer.nonce && p.graphAccount == outer.graphAccount then Ok(p) else Err(InvalidFields)
  }

  /** Two POI payloads that agree on the three checked fields. */
  predicate SamePoiKey(p: PublicPoiMessage, q: PublicPoiMessage) {
    p.nonce == q.nonce && p.graphAccount == q.graphAccount && p.identifier == q.identifier
  }

  /**
   * The POI check reads only the duplicated fields: content, network, block
   * number and block hash of the payload, and the envelope's own payload and
   * signature, never change the verdict.
   */
  lemma PoiVerdictIgnoresOtherFields(
    p: PublicPoiMessage, q: PublicPoiMessage,
    outer: GraphcastMessage<PublicPoiMessage>, outer': GraphcastMessage<PublicPoiMessage>)
    requires SamePoiKey(p, q)
    requires outer.nonce == outer'.nonce && outer.graphAccount == outer'.graphAccount
    requires outer.identifier == outer'.identifier
    ensures PoiValidOuter(p, outer).Ok? == PoiValidOuter(q, outer').Ok?
  {
  }

  /** The upgrade-intent check never looks at the envelope's identifier. */
  lemma UpgradeVerdictIgnoresIdentifier(
    p: UpgradeIntentMessage, outer: GraphcastMessage<UpgradeIntentMessage>, id: string)
    ensures UpgradeValidOuter(p, outer) == UpgradeValidOuter(p, outer.(identifier := id))
  {
  }

  /** The simple-message check never looks at the payload's content. */
  lemma SimpleVerdictIgnoresContent(p: SimpleMessage, outer: GraphcastMessage<SimpleMessage>, c: string)
    ensures SimpleValidOuter(p, outer).Ok? == SimpleValidOuter(p.(content := c), outer).Ok?
  {
  }

  /** An envelope whose duplicated fields are copied from its own payload passes every check. */
  lemma ConsistentEnvelopesPass(
    p: PublicPoiMessage, u: UpgradeIntentMessage, s: SimpleMessage, id: string, sig: string)
    ensures PoiValidOuter(p, GraphcastMessage(p.identifier, p, p.nonce, p.graphAccount, sig)) == Ok(p)
    ensures UpgradeValidOuter(u, GraphcastMessage(id, u, u.nonce, u.graphAccount, sig)) == Ok(u)
    ensures SimpleValidOuter(s, GraphcastMessage(s.identifier, s, 0, "", sig)) == Ok(s)
  {
  }
}
