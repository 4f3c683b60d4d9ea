/** The messages of the archive's control response stream, and the fragments that carry them. */
module Messages {

  datatype Option<+T> = None | Some(value: T)

  /** The result code of a control response. */
  datatype Code = Ok | Error | RecordingUnknown | OtherCode(value: int)

  /** The part of a recording descriptor that the consumers of the repository keep. */
  datatype Recording = Recording(recordingId: int, stopPosition: int, initialTermId: int, termBufferLength: int)

  datatype Msg =
    | ControlResponse(session: int, corr: int, relevantId: int, code: Code, error: string)
    | RecordingDescriptor(session: int, corr: int, recording: Recording)
    | UnknownMessage(templateId: int)

  /** A fragment of the stream. Only the fragment that completes a message reaches a handler. */
  datatype Frag = Part | Final(msg: Msg)

  /** The messages that a sequence of fragments completes, in stream order. */
  function Completed(frags: seq<Frag>): seq<Msg> {
    if frags == [] then []
    else Completed(frags[..|frags| - 1]) + (match frags[|frags| - 1] case Part => [] case Final(m) => [m])
  }

  lemma CompletedSnoc(frags: seq<Frag>, f: Frag)
    ensures Completed(frags + [f]) == match f case Part => Completed(frags) case Final(m) => Completed(frags) + [m]
  {
    assert (frags + [f])[..|frags|] == frags;
  }

  lemma {:induction false} CompletedConcat(a: seq<Frag>, b: seq<Frag>)
    ensures Completed(a + b) == Completed(a) + Completed(b)
  {
    if b == [] {
      assert a + b == a;
    } else {
      CompletedConcat(a, b[..|b| - 1]);
      assert (a + b)[..|a + b| - 1] == a + b[..|b| - 1];
    }
  }
}
