/**
  The JSON envelope both sides of the websocket exchange: a dispenser
  identity and a base64 text carrying one marshalled protocol-buffer
  message. The bridge spells the keys `ID`/`Binary` and the browser
  `id`/`binary`; Go matches JSON keys case-insensitively, so one envelope
  stands for both. JSON syntax itself is not modelled: a frame either
  decodes to an envelope or it does not.
 */
module Wire {

  datatype Envelope = Envelope(id: string, binary: string)

  /**
    One websocket text frame as seen by a JSON decoder. `Malformed` is any
    frame `json.Unmarshal` rejects, including (on the bridge) an `ID` that
    is not a UUID.
   */
  datatype Frame = Json(env: Envelope) | Malformed(text: string)
}
