/** What each kind of call waits for on the control response stream, and what ends the wait.

The three polling loops of the client (session opening, a response, a list of descriptors) differ
only in their verdict on one message, so they share one notion of "first decisive message". */
module Protocol {
  import opened Messages

  datatype Query =
    | OpenSession(corr: int)
    | AwaitResponse(session: int, corr: int)
    | AwaitDescriptors(session: int, corr: int, recordCount: int)

  datatype Outcome =
    | Returned(value: int)
    | ErrorResponse(error: string, relevantId: int)
    | ListError(error: string)
    | UnexpectedCode(code: Code)
    | UnknownTemplate(templateId: int)
    | Disconnected
    | TimedOut

  /** The outcomes that a message of the stream decides, as opposed to the transport or the clock. */
  predicate Decisive(o: Outcome) {
    !o.Disconnected? && !o.TimedOut?
  }

  /** The consumer of the call is shown this message. */
  predicate Matches(q: Query, m: Msg) {
    q.AwaitDescriptors? && m.RecordingDescriptor? && m.session == q.session && m.corr == q.corr
  }

  function SeenIn(q: Query, m: Msg): seq<Recording> {
    if Matches(q, m) then [m.recording] else []
  }

  /** What message m decides for q, after the consumer of q has been shown delivered descriptors. */
  function Verdict(q: Query, delivered: nat, m: Msg): Option<Outcome> {
    match m
    case UnknownMessage(t) => Some(UnknownTemplate(t))
    case RecordingDescriptor(_, _, _) =>
      if Matches(q, m) && delivered + 1 == q.recordCount then Some(Returned(delivered + 1)) else None
    case ControlResponse(session, corr, relevantId, code, error) =>
      match q {
        case OpenSession(c) =>
          if corr != c then None
          else if code == Ok then Some(Returned(session))
          else if code == Error then Some(ErrorResponse(error, relevantId))
          else Some(UnexpectedCode(code))
        case AwaitResponse(s, c) =>
          if session != s then None
          else if code == Error then Some(ErrorResponse(error, relevantId))
          else if corr != c then None
          else if code == Ok then Some(Returned(relevantId))
          else Some(UnexpectedCode(code))
        case AwaitDescriptors(s, c, _) =>
          if session != s then None
          else if code == RecordingUnknown && corr == c then Some(Returned(delivered))
          else if code == Error then Some(ListError(error))
          else None
      }
  }

  /** The descriptors that q shows its consumer from stream[from..end], in stream order. */
  function Delivered(q: Query, stream: seq<Frag>, from: nat, end: nat): seq<Recording>
    requires from <= end <= |stream|
    decreases end
  {
    if from == end then []
    else
      Delivered(q, stream, from, end - 1) +
      (if stream[end - 1].Final? then SeenIn(q, stream[end - 1].msg) else [])
  }

  /** What fragment i decides for a wait that began at fragment from. */
  function VerdictAt(q: Query, stream: seq<Frag>, from: nat, i: nat): Option<Outcome>
    requires from <= i < |stream|
  {
    if stream[i].Part? then None else Verdict(q, |Delivered(q, stream, from, i)|, stream[i].msg)
  }

  /** Nothing in stream[from..end] ends the wait. */
  ghost predicate Undecided(q: Query, stream: seq<Frag>, from: nat, end: nat)
    requires from <= end <= |stream|
  {
    forall i: nat :: from <= i < end ==> VerdictAt(q, stream, from, i) == None
  }

  /** The fragment just before end is the first one that ends the wait, with outcome o. */
  ghost predicate DecidedAt(q: Query, stream: seq<Frag>, from: nat, end: nat, o: Outcome) {
    && from < end <= |stream|
    && Undecided(q, stream, from, end - 1)
    && VerdictAt(q, stream, from, end - 1) == Some(o)
  }

  /** A wait that began at from stopped at end with outcome o: on the first decisive message, or on none. */
  ghost predicate Stopped(q: Query, stream: seq<Frag>, from: nat, end: nat, o: Outcome) {
    && from <= end <= |stream|
    && if Decisive(o) then DecidedAt(q, stream, from, end, o) else Undecided(q, stream, from, end)
  }

  /** As Stopped, for a consumer that had seen before when the wait began and has seen after now. */
  ghost predicate StoppedShowing(q: Query, stream: seq<Frag>, from: nat, end: nat, o: Outcome,
                                 before: seq<Recording>, after: seq<Recording>) {
    Stopped(q, stream, from, end, o) && after == before + Delivered(q, stream, from, end)
  }

  /** Everything the wait has delivered before end was consumed by time t. */
  ghost predicate DeliveredBy(q: Query, stream: seq<Frag>, takenAt: seq<int>, from: nat, end: nat, t: int) {
    && end <= |stream| && end <= |takenAt|
    && forall i :: from <= i < end && stream[i].Final? && Matches(q, stream[i].msg) ==> takenAt[i] <= t
  }

  /** The listing has delivered something between these two fragments. */
  ghost predicate DeliveredBetween(q: Query, stream: seq<Frag>, start: nat, a: nat, b: nat) {
    && start <= a <= |stream| && start <= b <= |stream|
    && |Delivered(q, stream, start, a)| < |Delivered(q, stream, start, b)|
  }

  /** One more fragment, which delivers nothing or was consumed by the new time. */
  lemma DeliveredBySnoc(q: Query, stream: seq<Frag>, takenAt: seq<int>, from: nat, end: nat, t: int, t': int)
    requires from < end <= |stream| && end == |takenAt| && t <= t' && takenAt[end - 1] <= t'
    requires DeliveredBy(q, stream, takenAt[..end - 1], from, end - 1, t)
    ensures DeliveredBy(q, stream, takenAt, from, end, t')
    ensures stream[end - 1].Part? || !Matches(q, stream[end - 1].msg) ==> DeliveredBy(q, stream, takenAt, from, end, t)
  {
  }

  /** One more undecided fragment. */
  lemma UndecidedSnoc(q: Query, stream: seq<Frag>, from: nat, end: nat)
    requires from < end <= |stream| && Undecided(q, stream, from, end - 1)
    requires VerdictAt(q, stream, from, end - 1) == None
    ensures Undecided(q, stream, from, end)
  {
  }

  /** Verdicts on a part of a stream do not depend on what comes after it. */
  lemma {:induction false} DeliveredPrefix(q: Query, s: seq<Frag>, t: seq<Frag>, from: nat, end: nat)
    requires from <= end <= |s| && s <= t
    ensures Delivered(q, s, from, end) == Delivered(q, t, from, end)
    decreases end
  {
    if from < end {
      DeliveredPrefix(q, s, t, from, end - 1);
    }
  }

  lemma UndecidedPrefix(q: Query, s: seq<Frag>, t: seq<Frag>, from: nat, end: nat)
    requires from <= end <= |s| && s <= t
    ensures Undecided(q, s, from, end) <==> Undecided(q, t, from, end)
  {
    forall i: nat | from <= i < end
      ensures VerdictAt(q, s, from, i) == VerdictAt(q, t, from, i)
    {
      DeliveredPrefix(q, s, t, from, i);
    }
  }

  lemma DecidedPrefix(q: Query, s: seq<Frag>, t: seq<Frag>, from: nat, end: nat, o: Outcome)
    requires end <= |s| && s <= t
    ensures DecidedAt(q, s, from, end, o) <==> DecidedAt(q, t, from, end, o)
  {
    if from < end {
      UndecidedPrefix(q, s, t, from, end - 1);
      DeliveredPrefix(q, s, t, from, end - 1);
    }
  }

  // ----- The stream of messages, without fragments and positions -----

  /** How a wait goes over a sequence of whole messages: how many it consumes, what the consumer sees,
      and what ends it, if anything. */
  datatype Reading = Reading(consumed: nat, seen: seq<Recording>, decision: Option<Outcome>) {
    function Step(q: Query, m: Msg): Reading {
      if decision.Some? then this
      else Reading(consumed + 1, seen + SeenIn(q, m), Verdict(q, |seen|, m))
    }
  }

  function Read(q: Query, msgs: seq<Msg>): Reading {
    if msgs == [] then Reading(0, [], None)
    else Read(q, msgs[..|msgs| - 1]).Step(q, msgs[|msgs| - 1])
  }

  lemma ReadSnoc(q: Query, msgs: seq<Msg>, m: Msg)
    ensures Read(q, msgs + [m]) == Read(q, msgs).Step(q, m)
  {
    assert (msgs + [m])[..|msgs|] == msgs;
  }

  /** Nothing after a decision is read. */
  lemma {:induction false} ReadDecided(q: Query, a: seq<Msg>, b: seq<Msg>)
    requires Read(q, a).decision.Some?
    ensures Read(q, a + b) == Read(q, a)
  {
    if b == [] {
      assert a + b == a;
    } else {
      ReadDecided(q, a, b[..|b| - 1]);
      ReadSnoc(q, a + b[..|b| - 1], b[|b| - 1]);
      assert a + b == a + b[..|b| - 1] + [b[|b| - 1]];
    }
  }

  /** An undecided stretch of fragments reads as an undecided sequence of messages, with the same deliveries. */
  lemma {:induction false} UndecidedReads(q: Query, stream: seq<Frag>, from: nat, end: nat)
    requires from <= end <= |stream| && Undecided(q, stream, from, end)
    ensures var msgs := Completed(stream[from..end]);
            Read(q, msgs) == Reading(|msgs|, Delivered(q, stream, from, end), None)
    decreases end
  {
    if from == end {
      assert stream[from..end] == [];
    } else {
      UndecidedReads(q, stream, from, end - 1);
      LastFragment(q, stream, from, end);
    }
  }

  lemma CompletedLast(stream: seq<Frag>, from: nat, end: nat)
    requires from < end <= |stream|
    ensures Completed(stream[from..end])
            == if stream[end - 1].Part? then Completed(stream[from..end - 1])
               else Completed(stream[from..end - 1]) + [stream[end - 1].msg]
  {
    assert stream[from..end] == stream[from..end - 1] + [stream[end - 1]];
    CompletedSnoc(stream[from..end - 1], stream[end - 1]);
  }

  /** One more fragment after an undecided stretch. */
  lemma LastFragment(q: Query, stream: seq<Frag>, from: nat, end: nat)
    requires from < end <= |stream|
    requires var msgs := Completed(stream[from..end - 1]);
             Read(q, msgs) == Reading(|msgs|, Delivered(q, stream, from, end - 1), None)
    ensures var msgs := Completed(stream[from..end]);
            Read(q, msgs) == Reading(|msgs|, Delivered(q, stream, from, end), VerdictAt(q, stream, from, end - 1))
  {
    hide Verdict, Completed, Read;
    CompletedLast(stream, from, end);
    if stream[end - 1].Final? {
      ReadSnoc(q, Completed(stream[from..end - 1]), stream[end - 1].msg);
    }
  }

  /** Stopping on the first decisive fragment reads exactly the messages up to the first decisive one. */
  lemma DecidedReads(q: Query, stream: seq<Frag>, from: nat, end: nat, o: Outcome)
    requires DecidedAt(q, stream, from, end, o)
    ensures var msgs := Completed(stream[from..end]);
            Read(q, Completed(stream[from..])) == Reading(|msgs|, Delivered(q, stream, from, end), Some(o))
  {
    hide Verdict, VerdictAt, Completed, Read, Delivered;
    UndecidedReads(q, stream, from, end - 1);
    LastFragment(q, stream, from, end);
    assert stream[from..] == stream[from..end] + stream[end..];
    CompletedConcat(stream[from..end], stream[end..]);
    ReadDecided(q, Completed(stream[from..end]), Completed(stream[end..]));
  }

  /** Some fragment of the stream ends the wait exactly when reading its messages finds a decision. */
  lemma {:induction false} DecisionExists(q: Query, stream: seq<Frag>, from: nat, end: nat)
    requires from <= end <= |stream| && Undecided(q, stream, from, end)
    ensures Read(q, Completed(stream[from..])).decision.Some?
            <==> exists stop: nat, o :: DecidedAt(q, stream, from, stop, o)
    decreases |stream| - end
  {
    hide Verdict, VerdictAt, Completed, Read, Delivered, Undecided;
    forall stop: nat, o | DecidedAt(q, stream, from, stop, o)
      ensures Read(q, Completed(stream[from..])).decision.Some?
    {
      DecidedReads(q, stream, from, stop, o);
    }
    if end == |stream| {
      UndecidedReads(q, stream, from, end);
      assert stream[from..end] == stream[from..];
    } else {
      match VerdictAt(q, stream, from, end)
      case Some(o) =>
        assert DecidedAt(q, stream, from, end + 1, o);
      case None =>
        UndecidedSnoc(q, stream, from, end + 1);
        DecisionExists(q, stream, from, end + 1);
    }
  }

  // ----- Main properties of the wait -----

  /** There is at most one first decisive message. */
  lemma DecisionUnique(q: Query, stream: seq<Frag>, from: nat, end1: nat, o1: Outcome, end2: nat, o2: Outcome)
    requires DecidedAt(q, stream, from, end1, o1) && DecidedAt(q, stream, from, end2, o2)
    ensures end1 == end2 && o1 == o2
  {
  }

  /** Two cuts of the same messages into fragments, polled in any batches from any cursors: either
      neither wait can be decided, or both are, with the same outcome, the same deliveries and the
      same number of messages consumed. */
  lemma BatchingIndependence(q: Query, s: seq<Frag>, f: nat, t: seq<Frag>, g: nat, sEnd: nat, o: Outcome)
    requires f <= |s| && g <= |t| && Completed(s[f..]) == Completed(t[g..])
    requires DecidedAt(q, s, f, sEnd, o)
    ensures exists tEnd: nat ::
              && DecidedAt(q, t, g, tEnd, o)
              && Delivered(q, t, g, tEnd) == Delivered(q, s, f, sEnd)
              && Completed(t[g..tEnd]) == Completed(s[f..sEnd])
    ensures forall tEnd: nat, o' :: DecidedAt(q, t, g, tEnd, o') ==>
              && o' == o
              && Delivered(q, t, g, tEnd) == Delivered(q, s, f, sEnd)
              && Completed(t[g..tEnd]) == Completed(s[f..sEnd])
  {
    DecidedReads(q, s, f, sEnd, o);
    CompletedTake(s, f, sEnd);
    forall tEnd: nat, o' | DecidedAt(q, t, g, tEnd, o')
      ensures o' == o && Delivered(q, t, g, tEnd) == Delivered(q, s, f, sEnd)
      ensures Completed(t[g..tEnd]) == Completed(s[f..sEnd])
    {
      DecidedReads(q, t, g, tEnd, o');
      CompletedTake(t, g, tEnd);
    }
    DecisionExists(q, t, g, g);
  }

  /** Any stop of a wait, also an undecided one, is a stop of the same wait on every stream that brings the same
      messages, however it is cut into fragments and whatever comes after them. */
  lemma StopTransfers(q: Query, s: seq<Frag>, f: nat, sEnd: nat, o: Outcome, t: seq<Frag>, g: nat) returns (tEnd: nat)
    requires Stopped(q, s, f, sEnd, o) && g <= |t| && Completed(s[f..sEnd]) <= Completed(t[g..])
    ensures Stopped(q, t, g, tEnd, o)
    ensures Completed(t[g..tEnd]) == Completed(s[f..sEnd]) && Delivered(q, t, g, tEnd) == Delivered(q, s, f, sEnd)
  {
    hide Verdict, VerdictAt, Completed, Read, Delivered;
    var msgs := Completed(s[f..sEnd]);
    StoppedReads(q, s, f, sEnd, o);
    assert t[g..|t|] == t[g..];
    tEnd := EndOfMessages(t, g, |t|, |msgs|);
    CompletedTake(t, g, tEnd);
    assert Completed(t[g..tEnd]) == Completed(t[g..])[..|msgs|] == msgs;
    ReadConsumes(q, msgs);
    if Decisive(o) {
      DecisionAtLast(q, t, g, tEnd, o);
    } else {
      UndecidedRead(q, t, g, tEnd);
    }
    StoppedReads(q, t, g, tEnd, o);
  }

  /** What a stopped wait has read. */
  lemma StoppedReads(q: Query, stream: seq<Frag>, from: nat, end: nat, o: Outcome)
    requires Stopped(q, stream, from, end, o)
    ensures var msgs := Completed(stream[from..end]);
            Read(q, msgs) == Reading(|msgs|, Delivered(q, stream, from, end), if Decisive(o) then Some(o) else None)
  {
    if Decisive(o) {
      UndecidedReads(q, stream, from, end - 1);
      LastFragment(q, stream, from, end);
    } else {
      UndecidedReads(q, stream, from, end);
    }
  }

  lemma NothingCompleted(stream: seq<Frag>, from: nat)
    requires from <= |stream|
    ensures Completed(stream[from..from]) == []
  {
    assert stream[from..from] == [];
  }

  /** The point of a stream at which a number of its messages are just complete. */
  lemma {:induction false} EndOfMessages(stream: seq<Frag>, from: nat, end: nat, n: nat) returns (at: nat)
    requires from <= end <= |stream| && n <= |Completed(stream[from..end])|
    ensures from <= at <= end && |Completed(stream[from..at])| == n
    ensures n > 0 ==> from < at && stream[at - 1].Final?
    decreases end
  {
    hide *;
    NothingCompleted(stream, from);
    if from == end {
      at := from;
    } else {
      CompletedLast(stream, from, end);
      if n <= |Completed(stream[from..end - 1])| {
        at := EndOfMessages(stream, from, end - 1, n);
      } else {
        at := end;
      }
    }
  }

  /** If reading its messages finds no decision, a stretch of fragments is undecided. */
  lemma {:induction false} UndecidedRead(q: Query, stream: seq<Frag>, from: nat, end: nat)
    requires from <= end <= |stream| && Read(q, Completed(stream[from..end])).decision == None
    ensures Undecided(q, stream, from, end)
    decreases end
  {
    if from < end {
      UndecidedBefore(q, stream, from, end);
      UndecidedRead(q, stream, from, end - 1);
      LastUndecided(q, stream, from, end);
    }
  }

  lemma LastUndecided(q: Query, stream: seq<Frag>, from: nat, end: nat)
    requires from < end <= |stream| && Undecided(q, stream, from, end - 1)
    requires Read(q, Completed(stream[from..end])).decision == None
    ensures Undecided(q, stream, from, end)
  {
    hide *;
    UndecidedReads(q, stream, from, end - 1);
    LastFragment(q, stream, from, end);
    UndecidedSnoc(q, stream, from, end);
  }

  lemma UndecidedBefore(q: Query, stream: seq<Frag>, from: nat, end: nat)
    requires from < end <= |stream| && Read(q, Completed(stream[from..end])).decision == None
    ensures Read(q, Completed(stream[from..end - 1])).decision == None
  {
    hide Verdict, Completed, Read;
    CompletedLast(stream, from, end);
    if stream[end - 1].Final? {
      ReadSnoc(q, Completed(stream[from..end - 1]), stream[end - 1].msg);
    }
  }

  lemma {:induction false} ReadConsumes(q: Query, msgs: seq<Msg>)
    ensures Read(q, msgs).consumed <= |msgs| && (Read(q, msgs).decision.Some? ==> msgs != [])
  {
    if msgs != [] {
      ReadConsumes(q, msgs[..|msgs| - 1]);
    }
  }

  /** If the last of its messages decides, a stretch of fragments is decided at its end. */
  lemma DecisionAtLast(q: Query, stream: seq<Frag>, from: nat, end: nat, o: Outcome)
    requires from < end <= |stream| && stream[end - 1].Final?
    requires var msgs := Completed(stream[from..end]);
             Read(q, msgs).consumed == |msgs| && Read(q, msgs).decision == Some(o)
    ensures DecidedAt(q, stream, from, end, o)
  {
    hide Verdict, VerdictAt, Completed, Read, Delivered, Undecided;
    CompletedLast(stream, from, end);
    ReadSnoc(q, Completed(stream[from..end - 1]), stream[end - 1].msg);
    ReadConsumes(q, Completed(stream[from..end - 1]));
    UndecidedRead(q, stream, from, end - 1);
    UndecidedReads(q, stream, from, end - 1);
    LastFragment(q, stream, from, end);
  }

  /** The messages completed by a stretch of fragments are a prefix of all the messages still to come. */
  lemma CompletedTake(s: seq<Frag>, from: nat, end: nat)
    requires from <= end <= |s|
    ensures |Completed(s[from..end])| <= |Completed(s[from..])|
    ensures Completed(s[from..end]) == Completed(s[from..])[..|Completed(s[from..end])|]
  {
    assert s[from..] == s[from..end] + s[end..];
    CompletedConcat(s[from..end], s[end..]);
  }

  /** A message with a known template that belongs to another control session. */
  predicate Foreign(session: int, m: Msg) {
    !m.UnknownMessage? && m.session != session
  }

  function Own(session: int, msgs: seq<Msg>): seq<Msg> {
    if msgs == [] then []
    else
      var m := msgs[|msgs| - 1];
      Own(session, msgs[..|msgs| - 1]) + (if Foreign(session, m) then [] else [m])
  }

  /** Only the messages of the own session, and those of unknown template, matter. */
  lemma {:induction false} OwnMessagesDecide(q: Query, msgs: seq<Msg>)
    requires !q.OpenSession?
    ensures Read(q, msgs).seen == Read(q, Own(q.session, msgs)).seen
    ensures Read(q, msgs).decision == Read(q, Own(q.session, msgs)).decision
  {
    if msgs != [] {
      var init, m := msgs[..|msgs| - 1], msgs[|msgs| - 1];
      OwnMessagesDecide(q, init);
      if Foreign(q.session, m) {
        assert Own(q.session, msgs) == Own(q.session, init);
        assert Verdict(q, |Read(q, init).seen|, m) == None;
      } else {
        ReadSnoc(q, Own(q.session, init), m);
      }
    }
  }

  /** Inserting or deleting messages of other sessions, anywhere, changes neither the outcome nor the
      deliveries of a wait made after connecting. */
  lemma SessionNonInterference(q: Query, s: seq<Frag>, f: nat, t: seq<Frag>, g: nat, sEnd: nat, o: Outcome)
    requires !q.OpenSession? && f <= |s| && g <= |t|
    requires Own(q.session, Completed(s[f..])) == Own(q.session, Completed(t[g..]))
    requires DecidedAt(q, s, f, sEnd, o)
    ensures exists tEnd: nat :: DecidedAt(q, t, g, tEnd, o) && Delivered(q, t, g, tEnd) == Delivered(q, s, f, sEnd)
    ensures forall tEnd: nat, o' :: DecidedAt(q, t, g, tEnd, o') ==>
              o' == o && Delivered(q, t, g, tEnd) == Delivered(q, s, f, sEnd)
  {
    DecidedReads(q, s, f, sEnd, o);
    OwnMessagesDecide(q, Completed(s[f..]));
    OwnMessagesDecide(q, Completed(t[g..]));
    forall tEnd: nat, o' | DecidedAt(q, t, g, tEnd, o')
      ensures o' == o && Delivered(q, t, g, tEnd) == Delivered(q, s, f, sEnd)
    {
      DecidedReads(q, t, g, tEnd, o');
    }
    DecisionExists(q, t, g, g);
  }

  /** The report of an error check on the message it handles. */
  function ErrorIn(session: int, m: Msg): Option<string> {
    if m.ControlResponse? && m.session == session && m.code == Error then Some(m.error) else None
  }

  /** All that error checks report when they handle these messages, one at a time. */
  function Reports(session: int, msgs: seq<Msg>): seq<string> {
    if msgs == [] then []
    else
      Reports(session, msgs[..|msgs| - 1])
      + (match ErrorIn(session, msgs[|msgs| - 1]) case None => [] case Some(error) => [error])
  }

  /** Error checks report exactly the errors of the session: each once, with its text, in stream order. */
  lemma {:induction false} ReportsExactly(session: int, msgs: seq<Msg>) returns (at: seq<nat>)
    ensures |at| == |Reports(session, msgs)|
    ensures forall j, k :: 0 <= j < k < |at| ==> at[j] < at[k]
    ensures forall k :: 0 <= k < |at| ==>
              && at[k] < |msgs| && msgs[at[k]].ControlResponse?
              && msgs[at[k]].session == session && msgs[at[k]].code == Error
              && msgs[at[k]].error == Reports(session, msgs)[k]
    ensures forall i: nat :: i < |msgs| && msgs[i].ControlResponse? ==>
              msgs[i].session == session && msgs[i].code == Error ==> i in at
  {
    if msgs == [] {
      at := [];
    } else {
      var init, last := msgs[..|msgs| - 1], |msgs| - 1;
      at := ReportsExactly(session, init);
      assert forall i :: 0 <= i < last ==> init[i] == msgs[i];
      if msgs[last].ControlResponse? && msgs[last].session == session && msgs[last].code == Error {
        at := at + [last];
      }
    }
  }

  /** The messages of other sessions change nothing in what error checks report in all. */
  lemma {:induction false} ReportsOfOwnMessages(session: int, msgs: seq<Msg>)
    ensures Reports(session, msgs) == Reports(session, Own(session, msgs))
  {
    if msgs != [] {
      var init, m := msgs[..|msgs| - 1], msgs[|msgs| - 1];
      ReportsOfOwnMessages(session, init);
      if !Foreign(session, m) {
        assert Own(session, msgs) == Own(session, init) + [m];
        assert (Own(session, init) + [m])[..|Own(session, init)|] == Own(session, init);
      } else {
        assert ErrorIn(session, m) == None && Own(session, msgs) == Own(session, init);
      }
    }
  }

  /** What the next error check reports. */
  function NextReport(session: int, msgs: seq<Msg>): Option<string> {
    if msgs == [] then None else ErrorIn(session, msgs[0])
  }

  lemma {:induction false} FirstOwnMessage(session: int, msgs: seq<Msg>)
    requires msgs != [] && !Foreign(session, msgs[0])
    ensures Own(session, msgs) != [] && Own(session, msgs)[0] == msgs[0]
  {
    if |msgs| > 1 {
      FirstOwnMessage(session, msgs[..|msgs| - 1]);
    }
  }

  /** One check handles one message, so they can change when an error is reported: they do so exactly when one
      of them stands in front and the first own message is an error. */
  lemma NextReportOfOwnMessages(session: int, msgs: seq<Msg>)
    ensures NextReport(session, msgs) == NextReport(session, Own(session, msgs))
            <==> msgs == [] || !Foreign(session, msgs[0]) || NextReport(session, Own(session, msgs)) == None
  {
    if msgs != [] && !Foreign(session, msgs[0]) {
      FirstOwnMessage(session, msgs);
    }
  }

  // ----- What the outcomes mean -----

  /** Messages that end a wait for a response: an error of the own session, whatever it answers, or
      any own response to the own correlation id; a message of unknown template throws. */
  predicate EndsResponseWait(session: int, corr: int, m: Msg) {
    m.UnknownMessage? || (m.ControlResponse? && m.session == session && (m.code == Error || m.corr == corr))
  }

  /** When and how a wait for a response stops, in the fields of its messages: on the first message of that kind,
      with the outcome that this message has, or on none. */
  lemma ResponseStops(q: Query, stream: seq<Frag>, from: nat, end: nat, o: Outcome)
    requires q.AwaitResponse? && from <= end <= |stream|
    ensures Stopped(q, stream, from, end, o) <==>
            if o == Disconnected || o == TimedOut then
              forall i :: from <= i < end && stream[i].Final? ==> !EndsResponseWait(q.session, q.corr, stream[i].msg)
            else
              && from < end && stream[end - 1].Final?
              && (forall i :: from <= i < end - 1 && stream[i].Final? ==>
                    !EndsResponseWait(q.session, q.corr, stream[i].msg))
              && match stream[end - 1].msg
                 case UnknownMessage(templateId) => o == UnknownTemplate(templateId)
                 case RecordingDescriptor(_, _, _) => false
                 case ControlResponse(session, corr, relevantId, code, error) =>
                   session == q.session &&
                   if code == Error then o == ErrorResponse(error, relevantId)
                   else corr == q.corr && o == if code == Ok then Returned(relevantId) else UnexpectedCode(code)
  {
    forall i: nat | from <= i < end
      ensures VerdictAt(q, stream, from, i) == None <==>
                (stream[i].Final? ==> !EndsResponseWait(q.session, q.corr, stream[i].msg))
    {
    }
  }

  /** Messages that end a listing of which so many descriptors have been delivered: an unknown template, an error
      of the own session, an own "recording unknown", or the descriptor that completes the count. */
  predicate EndsListing(session: int, corr: int, recordCount: int, delivered: nat, m: Msg) {
    match m
    case UnknownMessage(_) => true
    case RecordingDescriptor(s, c, _) => s == session && c == corr && delivered + 1 == recordCount
    case ControlResponse(s, c, _, code, _) => s == session && (code == Error || (code == RecordingUnknown && c == corr))
  }

  /** When and how a listing stops, in the same way. */
  lemma ListingStops(q: Query, stream: seq<Frag>, from: nat, end: nat, o: Outcome)
    requires q.AwaitDescriptors? && from <= end <= |stream|
    ensures Stopped(q, stream, from, end, o) <==>
            if o == Disconnected || o == TimedOut then
              forall i: nat :: from <= i < end && stream[i].Final? ==>
                !EndsListing(q.session, q.corr, q.recordCount, |Delivered(q, stream, from, i)|, stream[i].msg)
            else
              && from < end && stream[end - 1].Final?
              && (forall i: nat :: from <= i < end - 1 && stream[i].Final? ==>
                    !EndsListing(q.session, q.corr, q.recordCount, |Delivered(q, stream, from, i)|, stream[i].msg))
              && match stream[end - 1].msg
                 case UnknownMessage(templateId) => o == UnknownTemplate(templateId)
                 case RecordingDescriptor(session, corr, _) =>
                   session == q.session && corr == q.corr
                   && |Delivered(q, stream, from, end)| == q.recordCount && o == Returned(q.recordCount)
                 case ControlResponse(session, corr, _, code, error) =>
                   session == q.session &&
                   if code == Error then o == ListError(error)
                   else code == RecordingUnknown && corr == q.corr && o == Returned(|Delivered(q, stream, from, end)|)
  {
    forall i: nat | from <= i < end
      ensures VerdictAt(q, stream, from, i) == None <==>
                (stream[i].Final? ==>
                   !EndsListing(q.session, q.corr, q.recordCount, |Delivered(q, stream, from, i)|, stream[i].msg))
    {
    }
  }

  /** Messages that end the wait for an opened session: any response to the connect request, or an unknown template. */
  predicate EndsOpening(corr: int, m: Msg) {
    m.UnknownMessage? || (m.ControlResponse? && m.corr == corr)
  }

  /** When and how the wait for an opened session stops, in the same way: its first answer counts, of any session. */
  lemma OpeningStops(q: Query, stream: seq<Frag>, from: nat, end: nat, o: Outcome)
    requires q.OpenSession? && from <= end <= |stream|
    ensures Stopped(q, stream, from, end, o) <==>
            if o == Disconnected || o == TimedOut then
              forall i :: from <= i < end && stream[i].Final? ==> !EndsOpening(q.corr, stream[i].msg)
            else
              && from < end && stream[end - 1].Final?
              && (forall i :: from <= i < end - 1 && stream[i].Final? ==> !EndsOpening(q.corr, stream[i].msg))
              && match stream[end - 1].msg
                 case UnknownMessage(templateId) => o == UnknownTemplate(templateId)
                 case RecordingDescriptor(_, _, _) => false
                 case ControlResponse(session, corr, relevantId, code, error) =>
                   corr == q.corr &&
                   o == if code == Ok then Returned(session)
                        else if code == Error then ErrorResponse(error, relevantId)
                        else UnexpectedCode(code)
  {
    forall i: nat | from <= i < end
      ensures VerdictAt(q, stream, from, i) == None <==>
                (stream[i].Final? ==> !EndsOpening(q.corr, stream[i].msg))
    {
    }
  }

  /** The wait for a response ends on the first message of that kind. */
  lemma ResponseWaitEnds(q: Query, stream: seq<Frag>, from: nat, end: nat)
    requires q.AwaitResponse? && from < end <= |stream|
    ensures (exists o :: DecidedAt(q, stream, from, end, o)) <==>
              && stream[end - 1].Final? && EndsResponseWait(q.session, q.corr, stream[end - 1].msg)
              && forall i :: from <= i < end - 1 && stream[i].Final? ==>
                   !EndsResponseWait(q.session, q.corr, stream[i].msg)
  {
    forall i: nat | from <= i < end
      ensures VerdictAt(q, stream, from, i).Some? <==>
                stream[i].Final? && EndsResponseWait(q.session, q.corr, stream[i].msg)
    {
    }
    if VerdictAt(q, stream, from, end - 1).Some? && Undecided(q, stream, from, end - 1) {
      assert DecidedAt(q, stream, from, end, VerdictAt(q, stream, from, end - 1).value);
    }
  }

  /** A session opens with the id that the first response to the connect request carries. */
  lemma OpenedByFirstAnswer(q: Query, stream: seq<Frag>, from: nat, end: nat, value: int)
    requires q.OpenSession? && DecidedAt(q, stream, from, end, Returned(value))
    ensures stream[end - 1].Final? && stream[end - 1].msg.ControlResponse?
    ensures var m := stream[end - 1].msg; m.corr == q.corr && m.code == Ok && m.session == value
    ensures forall i :: from <= i < end - 1 && stream[i].Final? ==>
              stream[i].msg.RecordingDescriptor? || (stream[i].msg.ControlResponse? && stream[i].msg.corr != q.corr)
  {
    forall i: nat | from <= i < end - 1 && stream[i].Final?
      ensures stream[i].msg.RecordingDescriptor? || (stream[i].msg.ControlResponse? && stream[i].msg.corr != q.corr)
    {
      assert VerdictAt(q, stream, from, i) == None;
    }
  }

  /** A response wait that returns was ended by the own session's OK response to the own correlation id. */
  lemma ReturnedByOwnResponse(q: Query, stream: seq<Frag>, from: nat, end: nat, value: int)
    requires q.AwaitResponse? && DecidedAt(q, stream, from, end, Returned(value))
    ensures stream[end - 1].Final?
    ensures var m := stream[end - 1].msg;
            m.ControlResponse? && m.session == q.session && m.corr == q.corr && m.relevantId == value && m.code == Ok
    ensures forall i :: from <= i < end - 1 && stream[i].Final? && stream[i].msg.ControlResponse? ==>
              var m := stream[i].msg; m.session == q.session ==> m.corr != q.corr && m.code != Error
  {
    forall i: nat | from <= i < end - 1 && stream[i].Final? && stream[i].msg.ControlResponse?
      ensures var m := stream[i].msg; m.session == q.session ==> m.corr != q.corr && m.code != Error
    {
      assert VerdictAt(q, stream, from, i) == None;
    }
  }

  /** The consumer is shown exactly the matching descriptors: each once, in stream order. */
  lemma {:induction false} DeliveredExactly(q: Query, stream: seq<Frag>, from: nat, end: nat) returns (at: seq<nat>)
    requires from <= end <= |stream|
    ensures |at| == |Delivered(q, stream, from, end)|
    ensures forall j, k :: 0 <= j < k < |at| ==> at[j] < at[k]
    ensures forall k :: 0 <= k < |at| ==>
              && from <= at[k] < end
              && q.AwaitDescriptors?
              && stream[at[k]] == Final(RecordingDescriptor(q.session, q.corr, Delivered(q, stream, from, end)[k]))
    ensures forall i: nat :: from <= i < end && stream[i].Final? && stream[i].msg.RecordingDescriptor? ==>
              q.AwaitDescriptors? && stream[i].msg.session == q.session && stream[i].msg.corr == q.corr ==> i in at
    decreases end
  {
    if from == end {
      at := [];
    } else {
      at := DeliveredExactly(q, stream, from, end - 1);
      DeliveredLast(q, stream, from, end);
      if stream[end - 1].Final? && Matches(q, stream[end - 1].msg) {
        hide *;
        var before := at;
        at := before + [end - 1];
        assert forall i :: i in at <==> i in before || i == end - 1;
        assert forall k :: 0 <= k < |before| ==> at[k] == before[k];
      }
    }
  }

  lemma DeliveredLast(q: Query, stream: seq<Frag>, from: nat, end: nat)
    requires from < end <= |stream|
    ensures if stream[end - 1].Final? && Matches(q, stream[end - 1].msg)
            then
              var recording := stream[end - 1].msg.recording;
              && q.AwaitDescriptors? && stream[end - 1] == Final(RecordingDescriptor(q.session, q.corr, recording))
              && Delivered(q, stream, from, end) == Delivered(q, stream, from, end - 1) + [recording]
            else
              Delivered(q, stream, from, end) == Delivered(q, stream, from, end - 1)
  {
  }

  /** A listing returns the number of descriptors its consumer was shown. It ends by its count on a
      matching descriptor, which needs a positive record count, and otherwise on an own "recording unknown". */
  lemma ListingResult(q: Query, stream: seq<Frag>, from: nat, end: nat, value: int)
    requires q.AwaitDescriptors? && DecidedAt(q, stream, from, end, Returned(value))
    ensures value == |Delivered(q, stream, from, end)|
    ensures q.recordCount >= 1 ==> value <= q.recordCount
    ensures var m := stream[end - 1].msg;
            if Matches(q, m) then value == q.recordCount >= 1
            else m.ControlResponse? && m.session == q.session && m.corr == q.corr && m.code == RecordingUnknown
                 && (q.recordCount >= 1 ==> value < q.recordCount)
  {
    if q.recordCount >= 1 {
      UndecidedListing(q, stream, from, end - 1);
    }
  }

  lemma {:induction false} UndecidedListing(q: Query, stream: seq<Frag>, from: nat, end: nat)
    requires q.AwaitDescriptors? && q.recordCount >= 1
    requires from <= end <= |stream| && Undecided(q, stream, from, end)
    ensures |Delivered(q, stream, from, end)| < q.recordCount
    decreases end
  {
    if from < end {
      UndecidedListing(q, stream, from, end - 1);
      assert VerdictAt(q, stream, from, end - 1) == None;
    }
  }
}
