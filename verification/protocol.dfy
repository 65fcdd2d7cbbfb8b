/**
 * The pieces of the agent protocol that the core shares with collaborators
 * outside this model: the result record built by `_format_response`, its
 * serialisation, the GPG envelope and the error classes that can escape a
 * request handler.
 */
module Protocol {
  import opened Wrappers
  import opened Json

  /** A GPG key fingerprint: an opaque identifier. */
  type Fingerprint = string

  /** What GPG's decrypt call yields: the plaintext and, when the data was signed
      by a key in the local key store, the signer's fingerprint. */
  datatype Decryption = Decryption(plaintext: string, signer: Option<Fingerprint>)

  /** The record `_format_response(payload, success, code, message)` builds. */
  datatype ActionResult = ActionResult(payload: Value, success: bool, code: int, message: string)

  /** Python's `int(success)` for a boolean. */
  function StatusOf(success: bool): (code: int)
    ensures code == 1 <==> success
    ensures code == 0 <==> !success
  {
    if success then 1 else 0
  }

  /**
   * `_serialise_response(result)`: the serialised text stands for the result
   * it encodes. A free constructor makes the serialisation injective without
   * fixing its concrete syntax.
   */
  datatype Wire = Serialised(result: ActionResult)

  /**
   * A response body: sent as is, GPG-encrypted to `recipient` and signed by
   * `signer`, or empty (`str` of a failed encryption is `''`).
   */
  datatype Body =
    | Plain(text: Wire)
    | Sealed(text: Wire, recipient: Fingerprint, signer: Fingerprint)
    | Blank

  datatype HttpResponse = HttpResponse(status: int, reason: string, headers: seq<(string, string)>, body: Body)

  /**
   * The Python exception classes that can escape the agent's request pipeline
   * or the client. `TransportError` stands for any exception the client's HTTP
   * connection raises (`socket.error`, `http.client.HTTPException`); the
   * model does not tell them apart.
   */
  datatype Exception = KeyError | TypeError | ValueError | AttributeError | IndexError | OverflowError | TransportError
}
