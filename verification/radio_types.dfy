/** The generic radio payload the message handler receives (src/operator/radio_types.rs). */
module RadioTypes {
  import opened Results
  import opened MessageTypes

  /** `RadioPayloadMessage`: an identifier and free-form content. */
  datatype RadioPayloadMessage = RadioPayloadMessage(identifier: string, content: string)

  /** `RadioPayloadMessage::new`. */
  function NewRadioPayload(identifier: string, content: string): (m: RadioPayloadMessage)
    ensures m.identifier == identifier && m.content == content
  {
    RadioPayloadMessage(identifier, content)
  }

  /** `payload_content`: the content, as a fresh copy. */
  function PayloadContent(m: RadioPayloadMessage): (c: string)
    ensures NewRadioPayload(m.identifier, c) == m
  {
    m.content
  }

  /** `valid_outer`: the payload's identifier must equal the envelope's. */
  function RadioValidOuter(p: RadioPayloadMessage, outer: GraphcastMessage<RadioPayloadMessage>)
    : (r: Result<RadioPayloadMessage, MessageError>)
    ensures r.Ok? <==> p.identifier == outer.identifier
    ensures r.Ok? ==> r.value == p
    ensures r.Err? ==> r.error == InvalidFields
  {
    if p.identifier == outer.identifier then Ok(p) else Err(InvalidFields)
  }

  /** Construction and `payload_content` round-trip. */
  lemma NewThenContent(identifier: string, content: string)
    ensures PayloadContent(NewRadioPayload(identifier, content)) == content
  {
  }

  /** The content of the payload never changes the verdict of `valid_outer`. */
  lemma RadioVerdictIgnoresContent(
    p: RadioPayloadMessage, outer: GraphcastMessage<RadioPayloadMessage>, c: string)
    ensures RadioValidOuter(p, outer).Ok? == RadioValidOuter(p.(content := c), outer).Ok?
  {
  }
}
