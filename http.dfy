/** Values shared by the handlers of main.py: optional values, outcomes of upstream
    requests, image payloads and the replies a route sends back. */
module Http {

  datatype Option<+T> = None | Some(value: T)

  datatype Result<+R, +E> = Success(value: R) | Failure(error: E)

  /** An upstream request whose `raise_for_status` (or transport) raised: the exception
      propagates out of the handler and Flask answers with a server error. */
  datatype Upstream = UpstreamError

  type Bytes = seq<bv8>

  /** The `Content-Type` header and the body of an image response. */
  datatype Payload = Payload(ctype: string, content: Bytes)

  /** What an image route answers: the image bytes, a 404 with its text, or a 5xx caused
      by an exception that escaped the handler. */
  datatype Reply = Image(ctype: string, content: Bytes) | NotFound(message: string) | ServerError

  function ImageOf(p: Payload): Reply
  {
    Image(p.ctype, p.content)
  }
}
