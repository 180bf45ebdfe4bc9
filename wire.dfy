/** Values exchanged with the room's WebSocket, with JSON decoding abstracted away.
    An inbound frame is decoded in two phases: first as a `{type, payload}`
    envelope, then, only when the type is "NextSeq", again as a NextSeq message. */
module Wire {

  newtype byte = b: int | 0 <= b < 256

  datatype Option<T> = None | Some(value: T)

  /** The payload of a NextSeq message; `value` is the word to type. */
  datatype NextSeqPayload = NextSeqPayload(value: seq<byte>, kind: string, level: int)

  /** One attempt to read a frame from the socket.
      `Envelope.nextSeq` is the outcome of the second decoding phase
      (None: the frame does not decode as a NextSeq message); it only
      matters when `kind` is "NextSeq". */
  datatype Frame =
    | ReadFailed
    | Undecodable
    | Envelope(kind: string, nextSeq: Option<NextSeqPayload>)

  /** Outbound events, written as `{type, payload}` JSON objects. */
  datatype Out =
    | TypingKey(inputSeq: seq<byte>)
    | FinCurrentSeq(cause: string)

  /** The outcome of one write on the socket: delivered after some
      milliseconds, or failed. */
  datatype Write = Delivered(costMs: nat) | Broken

  const NextSeqType: string := "NextSeq"
  const ResultType: string := "Result"
  const Succeeded: string := "succeeded"
  const Failed: string := "failed"

  /** What the reader does with a frame. */
  datatype Action =
    | HandOff(word: seq<byte>)  // pass the word to the writer
    | Finish                    // close the `done` signal
    | Ignore                    // keep reading
    | StopReader                // the reader returns

  /** The reader's dispatch on the envelope type. */
  function Dispatch(f: Frame): (a: Action)
    ensures a.HandOff? <==> f.Envelope? && f.kind == NextSeqType && f.nextSeq.Some?
    ensures a.HandOff? ==> a.word == f.nextSeq.value.value
    ensures a == Finish <==> f.Envelope? && f.kind == ResultType
    ensures a == Ignore <==> f.Envelope? && f.kind != NextSeqType && f.kind != ResultType
    ensures a == StopReader <==> !f.Envelope? || (f.kind == NextSeqType && f.nextSeq.None?)
  {
    match f
    case ReadFailed => StopReader
    case Undecodable => StopReader
    case Envelope(kind, nextSeq) =>
      if kind == NextSeqType then
        match nextSeq
        case None => StopReader
        case Some(p) => HandOff(p.value)
      else if kind == ResultType then Finish
      else Ignore
  }
}
