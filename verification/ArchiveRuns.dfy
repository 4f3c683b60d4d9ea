/** Whole runs of the client: any number of threads, the archive, and other clients of the same stream.

One step is what one thread does between two points where others may act, one message that the archive
sends, or one that somebody else sends. The verdicts on messages are those of the polling loops. Fragments
are whole messages here. */
module ArchiveRuns {
  import opened Messages
  import opened Protocol
  import opened Transport
  import opened ArchiveProxies
  import opened AeronArchives

  function Max(a: int, b: int): int {
    if a < b then b else a
  }

  /** What a thread enters the client for: a request, which may list so many descriptors, or a check for errors. */
  datatype Job = Ask(templateId: int, fields: seq<Field>, listing: Option<int>) | CheckErrors

  datatype Call = Call(request: Request, query: Query)

  /** Where a thread is in its call; every phase but Idle holds the lock. */
  datatype Phase =
    | Idle
    | Entered(job: Job)
    | Encoding(call: Call, headerDone: bool)
    | Offering(call: Call, tried: nat)
    | Polling(call: Call, from: nat, seen: seq<Recording>)

  datatype Handler = ByCall(corr: int) | ByErrorCheck

  datatype Event =
    | Finished(call: Call, from: nat, end: nat, seen: seq<Recording>, outcome: Outcome)
    | GaveUp(call: Call, from: nat, end: nat, seen: seq<Recording>)
    | Unsent(call: Call, tried: nat)
    | SendFailed(call: Call)
    | ErrorChecked(error: Option<string>)

  datatype State = State(
    session: int,
    retryAttempts: int,
    lock: Option<nat>,
    threads: map<nat, Phase>,
    nextId: int,
    buffer: Request,
    published: seq<Request>,
    stream: seq<Frag>,
    cursor: nat,
    handlers: seq<Handler>,   // who handled each message before the cursor
    history: seq<Event>,
    answers: map<int, int>    // the archive's relevant id for each request it has answered with OK
  )

  datatype Step =
    | Enter(t: nat, job: Job)
    | Draw(t: nat)
    | EncodeHeader(t: nat)
    | EncodeFields(t: nat)
    | OfferAccepted(t: nat)
    | OfferRetryable(t: nat)
    | OfferFatal(t: nat)
    | HandleMessage(t: nat)
    | PollNothing(t: nat)
    | GiveUp(t: nat)
    | OthersDraw
    | ArchiveResponds(corr: int, relevantId: int, code: Code, error: string)
    | ArchiveDescribes(corr: int, recording: Recording)
    | OthersMessage(m: Msg)

  function PhaseOf(s: State, t: nat): Phase {
    if t in s.threads then s.threads[t] else Idle
  }

  ghost predicate Published(s: State, corr: int) {
    exists i :: 0 <= i < |s.published| && s.published[i].correlationId == corr
  }

  function QueryOf(session: int, corr: int, listing: Option<int>): Query {
    match listing
    case None => AwaitResponse(session, corr)
    case Some(n) => AwaitDescriptors(session, corr, n)
  }

  function CallFor(session: int, job: Job, id: int): Call
    requires job.Ask?
  {
    Call(Request(job.templateId, id, job.fields), QueryOf(session, id, job.listing))
  }

  ghost predicate Enabled(s: State, step: Step) {
    match step
    case Enter(t, _) => s.lock == None && PhaseOf(s, t) == Idle
    case Draw(t) => PhaseOf(s, t).Entered? && PhaseOf(s, t).job.Ask?
    case EncodeHeader(t) => PhaseOf(s, t).Encoding? && !PhaseOf(s, t).headerDone
    case EncodeFields(t) => PhaseOf(s, t).Encoding? && PhaseOf(s, t).headerDone
    case OfferAccepted(t) => PhaseOf(s, t).Offering?
    case OfferRetryable(t) => PhaseOf(s, t).Offering?
    case OfferFatal(t) => PhaseOf(s, t).Offering?
    case HandleMessage(t) =>
      && (PhaseOf(s, t).Polling? || PhaseOf(s, t) == Entered(CheckErrors))
      && s.cursor < |s.stream| && s.stream[s.cursor].Final?
    case PollNothing(t) => PhaseOf(s, t) == Entered(CheckErrors)
    case GiveUp(t) => PhaseOf(s, t).Polling?
    case OthersDraw => true
    case ArchiveResponds(corr, relevantId, code, _) =>
      Published(s, corr) && (code == Ok && corr in s.answers ==> s.answers[corr] == relevantId)
    case ArchiveDescribes(corr, _) => Published(s, corr)
    case OthersMessage(m) => m.UnknownMessage? || m.session != s.session
  }

  function Goto(s: State, t: nat, phase: Phase): State {
    s.(threads := s.threads[t := phase])
  }

  function Leave(s: State, t: nat, e: Event): State {
    s.(lock := None, threads := s.threads[t := Idle], history := s.history + [e])
  }

  function Arrive(s: State, m: Msg): State {
    s.(stream := s.stream + [Final(m)])
  }

  function Consume(s: State, h: Handler): State {
    s.(cursor := s.cursor + 1, handlers := s.handlers + [h])
  }

  ghost function Apply(s: State, step: Step): State
    requires Enabled(s, step)
  {
    match step
    case Enter(t, job) => Goto(s, t, Entered(job)).(lock := Some(t))
    case Draw(t) =>
      Goto(s, t, Encoding(CallFor(s.session, PhaseOf(s, t).job, s.nextId), false)).(nextId := s.nextId + 1)
    case EncodeHeader(t) =>
      var call := PhaseOf(s, t).call;
      Goto(s, t, Encoding(call, true)).(buffer := s.buffer.(templateId := call.request.templateId))
    case EncodeFields(t) =>
      var call := PhaseOf(s, t).call;
      Goto(s, t, Offering(call, 0)).(
        buffer := s.buffer.(correlationId := call.request.correlationId, fields := call.request.fields))
    case OfferAccepted(t) =>
      Goto(s, t, Polling(PhaseOf(s, t).call, s.cursor, [])).(published := s.published + [s.buffer])
    case OfferRetryable(t) =>
      var Offering(call, tried) := PhaseOf(s, t);
      if s.retryAttempts - (tried + 1) <= 0 then Leave(s, t, Unsent(call, tried + 1))
      else Goto(s, t, Offering(call, tried + 1))
    case OfferFatal(t) => Leave(s, t, SendFailed(PhaseOf(s, t).call))
    case HandleMessage(t) =>
      var m := s.stream[s.cursor].msg;
      (match PhaseOf(s, t)
       case Polling(call, from, seen) =>
         var s' := Consume(s, ByCall(call.request.correlationId));
         var seen' := seen + SeenIn(call.query, m);
         (match Verdict(call.query, |seen|, m)
          case None => Goto(s', t, Polling(call, from, seen'))
          case Some(o) => Leave(s', t, Finished(call, from, s.cursor + 1, seen', o)))
       case _ => Leave(Consume(s, ByErrorCheck), t, ErrorChecked(ErrorIn(s.session, m))))
    case PollNothing(t) => Leave(s, t, ErrorChecked(None))
    case GiveUp(t) =>
      var Polling(call, from, seen) := PhaseOf(s, t);
      Leave(s, t, GaveUp(call, from, s.cursor, seen))
    case OthersDraw => s.(nextId := s.nextId + 1)
    case ArchiveResponds(corr, relevantId, code, error) =>
      Arrive(s, ControlResponse(s.session, corr, relevantId, code, error)).(
        answers := if code == Ok then s.answers[corr := relevantId] else s.answers)
    case ArchiveDescribes(corr, recording) => Arrive(s, RecordingDescriptor(s.session, corr, recording))
    case OthersMessage(m) => Arrive(s, m)
  }

  /** A connected client before its first call. */
  ghost predicate Initial(s: State) {
    && s.lock == None && s.threads == map[]
    && s.published == [] && s.stream == [] && s.cursor == 0 && s.handlers == [] && s.history == [] && s.answers == map[]
  }

  /** The state after these steps, if each was enabled. */
  ghost function After(s: State, steps: seq<Step>): Option<State> {
    if steps == [] then Some(s)
    else
      match After(s, steps[..|steps| - 1])
      case None => None
      case Some(mid) => if Enabled(mid, steps[|steps| - 1]) then Some(Apply(mid, steps[|steps| - 1])) else None
  }

  /** Some run leads from s to s'. */
  ghost predicate Reaches(s: State, s': State) {
    exists steps :: After(s, steps) == Some(s')
  }

  lemma ReachesItself(s: State)
    ensures Reaches(s, s)
  {
    assert After(s, []) == Some(s);
  }

  lemma AfterSnoc(s: State, steps: seq<Step>, mid: State, step: Step)
    requires After(s, steps) == Some(mid) && Enabled(mid, step)
    ensures After(s, steps + [step]) == Some(Apply(mid, step))
  {
    hide Apply, Enabled;
    assert (steps + [step])[..|steps|] == steps;
  }

  lemma ReachesStep(s: State, mid: State, step: Step)
    requires Reaches(s, mid) && Enabled(mid, step)
    ensures Reaches(s, Apply(mid, step))
  {
    hide Apply, Enabled;
    var steps :| After(s, steps) == Some(mid);
    AfterSnoc(s, steps, mid, step);
  }

  lemma {:induction false} ReachesAlong(s: State, mid: State, steps: seq<Step>, s': State)
    requires Reaches(s, mid) && After(mid, steps) == Some(s')
    ensures Reaches(s, s')
    decreases |steps|
  {
    if steps != [] {
      var before := After(mid, steps[..|steps| - 1]).value;
      ReachesAlong(s, mid, steps[..|steps| - 1], before);
      ReachesStep(s, before, steps[|steps| - 1]);
    }
  }

  lemma ReachesTransitive(s: State, mid: State, s': State)
    requires Reaches(s, mid) && Reaches(mid, s')
    ensures Reaches(s, s')
  {
    var steps :| After(mid, steps) == Some(s');
    ReachesAlong(s, mid, steps, s');
  }

  // ----- The invariant -----

  function CallOf(e: Event): Option<Call> {
    match e
    case Finished(call, _, _, _, _) => Some(call)
    case GaveUp(call, _, _, _) => Some(call)
    case Unsent(call, _) => Some(call)
    case SendFailed(call) => Some(call)
    case ErrorChecked(_) => None
  }

  function CallIn(p: Phase): Option<Call> {
    match p
    case Encoding(call, _) => Some(call)
    case Offering(call, _) => Some(call)
    case Polling(call, _, _) => Some(call)
    case _ => None
  }

  /** The phase of the thread that holds the lock. */
  function Active(s: State): Phase {
    match s.lock
    case None => Idle
    case Some(t) => PhaseOf(s, t)
  }

  /** Mutual exclusion: exactly the holder of the lock is not idle. */
  ghost predicate OneHolder(s: State) {
    && (forall t: nat :: PhaseOf(s, t) != Idle ==> s.lock == Some(t))
    && (s.lock.Some? ==> Active(s) != Idle)
  }

  ghost predicate ProperCall(s: State, call: Call) {
    var corr := call.request.correlationId;
    && corr < s.nextId
    && (call.query == AwaitResponse(s.session, corr)
        || (call.query.AwaitDescriptors? && call.query == AwaitDescriptors(s.session, corr, call.query.recordCount)))
  }

  /** Correlation ids are unique to their calls. */
  ghost predicate IdsUnique(s: State) {
    && (forall i :: 0 <= i < |s.history| && CallOf(s.history[i]).Some? ==> ProperCall(s, CallOf(s.history[i]).value))
    && (CallIn(Active(s)).Some? ==> ProperCall(s, CallIn(Active(s)).value))
    && (forall i, j :: 0 <= i < j < |s.history| && CallOf(s.history[i]).Some? && CallOf(s.history[j]).Some? ==>
          CallOf(s.history[i]).value.request.correlationId != CallOf(s.history[j]).value.request.correlationId)
    && (forall i :: 0 <= i < |s.history| && CallOf(s.history[i]).Some? && CallIn(Active(s)).Some? ==>
          CallOf(s.history[i]).value.request.correlationId != CallIn(Active(s)).value.request.correlationId)
  }

  /** The buffer is what the lock holder has encoded so far. */
  ghost predicate BufferEncoded(s: State) {
    match Active(s)
    case Encoding(call, true) => s.buffer.templateId == call.request.templateId
    case Offering(call, _) => s.buffer == call.request
    case _ => true
  }

  /** Each call is published at most once, as its whole request, and calls not sent are not published. */
  ghost predicate PublishedOnce(s: State) {
    && (forall i :: 0 <= i < |s.published| ==> s.published[i].correlationId < s.nextId)
    && (forall i, j :: 0 <= i < j < |s.published| ==> s.published[i].correlationId != s.published[j].correlationId)
    && (match Active(s)
        case Encoding(call, _) => !Published(s, call.request.correlationId)
        case Offering(call, tried) =>
          !Published(s, call.request.correlationId) && (tried == 0 || tried < s.retryAttempts)
        case Polling(call, _, _) => call.request in s.published
        case _ => true)
    && (forall i :: 0 <= i < |s.history| ==> PublishedAsRecorded(s, s.history[i]))
  }

  ghost predicate PublishedAsRecorded(s: State, e: Event) {
    match e
    case Finished(call, _, _, _, _) => call.request in s.published
    case GaveUp(call, _, _, _) => call.request in s.published
    case Unsent(call, tried) =>
      !Published(s, call.request.correlationId) && tried == Max(1, s.retryAttempts)
    case SendFailed(call) => !Published(s, call.request.correlationId)
    case ErrorChecked(_) => true
  }

  predicate OwnMessage(s: State, i: nat)
    requires i < |s.stream|
  {
    s.stream[i].Final? && !s.stream[i].msg.UnknownMessage? && s.stream[i].msg.session == s.session
  }

  /** Every own message answers a published request, and OK responses carry the archive's answer. */
  ghost predicate OnlyAnswers(s: State) {
    && (forall i :: 0 <= i < |s.stream| ==> s.stream[i].Final?)
    && (forall i: nat :: i < |s.stream| && OwnMessage(s, i) ==> Published(s, s.stream[i].msg.corr))
    && (forall i: nat | i < |s.stream| && OwnMessage(s, i) ::
          var m := s.stream[i].msg;
          m.ControlResponse? && m.code == Ok ==> m.corr in s.answers && s.answers[m.corr] == m.relevantId)
  }

  /** Messages from..end were all handled by the call, and no answer to it came before from. */
  ghost predicate Window(s: State, call: Call, from: nat, end: nat) {
    && from <= end <= s.cursor <= |s.stream|
    && |s.handlers| == s.cursor
    && (forall k :: from <= k < end ==> s.handlers[k] == ByCall(call.request.correlationId))
    && (forall k: nat :: k < from && OwnMessage(s, k) ==> s.stream[k].msg.corr != call.request.correlationId)
  }

  ghost predicate WaitInv(s: State, call: Call, from: nat, end: nat, seen: seq<Recording>) {
    && Window(s, call, from, end)
    && seen == Delivered(call.query, s.stream, from, end)
    && Undecided(call.query, s.stream, from, end)
  }

  ghost predicate FinishedInv(s: State, call: Call, from: nat, end: nat, seen: seq<Recording>, o: Outcome) {
    && Window(s, call, from, end)
    && seen == Delivered(call.query, s.stream, from, end)
    && DecidedAt(call.query, s.stream, from, end, o)
  }

  ghost predicate EventInv(s: State, e: Event) {
    match e
    case Finished(call, from, end, seen, o) => FinishedInv(s, call, from, end, seen, o)
    case GaveUp(call, from, end, seen) => WaitInv(s, call, from, end, seen)
    case _ => true
  }

  /** Every wait, over or not, has gone as the polling loops go. */
  ghost predicate WaitsFaithful(s: State) {
    && |s.handlers| == s.cursor <= |s.stream|
    && (forall k :: 0 <= k < s.cursor && s.handlers[k].ByCall? ==> Published(s, s.handlers[k].corr))
    && (Active(s).Polling? ==> WaitInv(s, Active(s).call, Active(s).from, s.cursor, Active(s).seen))
    && (forall i :: 0 <= i < |s.history| ==> EventInv(s, s.history[i]))
  }

  ghost predicate Inv(s: State) {
    OneHolder(s) && IdsUnique(s) && BufferEncoded(s) && PublishedOnce(s) && OnlyAnswers(s) && WaitsFaithful(s)
  }

  lemma InitialInv(s: State)
    requires Initial(s)
    ensures Inv(s)
  {
  }

  lemma KeepsOneHolder(s: State, step: Step)
    requires Inv(s) && Enabled(s, step)
    ensures OneHolder(Apply(s, step))
  {
  }

  /** The steps that leave the client and record an event. */
  predicate Leaves(step: Step) {
    step.OfferRetryable? || step.OfferFatal? || step.HandleMessage? || step.PollNothing? || step.GiveUp?
  }

  /** Recording an event of the call under way, or of no call, keeps the ids unique. */
  lemma EventKeepsIds(s: State, s': State, e: Event)
    requires IdsUnique(s) && s'.session == s.session && s'.nextId == s.nextId
    requires s'.history == s.history + [e] && CallIn(Active(s')) == None
    requires CallOf(e) == None || CallOf(e) == CallIn(Active(s))
    ensures IdsUnique(s')
  {
  }

  lemma LeavingKeepsIds(s: State, step: Step)
    requires Inv(s) && Enabled(s, step) && Leaves(step)
    ensures IdsUnique(Apply(s, step))
  {
    hide EventInv, BufferEncoded, PublishedOnce, OnlyAnswers, WaitsFaithful, Verdict;
    var s' := Apply(s, step);
    assert Active(s) == PhaseOf(s, step.t);
    if |s.history| < |s'.history| {
      EventKeepsIds(s, s', s'.history[|s.history|]);
    }
  }

  lemma OtherStepsKeepIds(s: State, step: Step)
    requires Inv(s) && Enabled(s, step) && !Leaves(step)
    ensures IdsUnique(Apply(s, step))
  {
  }

  lemma KeepsIdsUnique(s: State, step: Step)
    requires Inv(s) && Enabled(s, step)
    ensures IdsUnique(Apply(s, step))
  {
    if Leaves(step) {
      LeavingKeepsIds(s, step);
    } else {
      OtherStepsKeepIds(s, step);
    }
  }

  lemma KeepsBufferEncoded(s: State, step: Step)
    requires Inv(s) && Enabled(s, step)
    ensures BufferEncoded(Apply(s, step))
  {
  }

  lemma EventKeepsPublished(s: State, s': State, e: Event)
    requires PublishedOnce(s) && s'.nextId == s.nextId && s'.published == s.published
    requires s'.retryAttempts == s.retryAttempts
    requires s'.history == s.history + [e] && Active(s') == Idle && PublishedAsRecorded(s, e)
    ensures PublishedOnce(s')
  {
  }

  lemma LeavingKeepsPublished(s: State, step: Step)
    requires Inv(s) && Enabled(s, step) && Leaves(step)
    ensures PublishedOnce(Apply(s, step))
  {
    hide EventInv, IdsUnique, BufferEncoded, OnlyAnswers, WaitsFaithful, Verdict;
    var s' := Apply(s, step);
    assert Active(s) == PhaseOf(s, step.t);
    if |s.history| < |s'.history| {
      EventKeepsPublished(s, s', s'.history[|s.history|]);
    }
  }

  lemma OfferingKeepsPublished(s: State, t: nat)
    requires Inv(s) && Enabled(s, OfferAccepted(t))
    ensures PublishedOnce(Apply(s, OfferAccepted(t)))
  {
    assert Active(s) == PhaseOf(s, t) && s.buffer == PhaseOf(s, t).call.request;
  }

  lemma OtherStepsKeepPublished(s: State, step: Step)
    requires Inv(s) && Enabled(s, step) && !Leaves(step) && !step.OfferAccepted?
    ensures PublishedOnce(Apply(s, step))
  {
  }

  lemma KeepsPublishedOnce(s: State, step: Step)
    requires Inv(s) && Enabled(s, step)
    ensures PublishedOnce(Apply(s, step))
  {
    if Leaves(step) {
      LeavingKeepsPublished(s, step);
    } else if step.OfferAccepted? {
      OfferingKeepsPublished(s, step.t);
    } else {
      OtherStepsKeepPublished(s, step);
    }
  }

  /** The logs of a run only grow, and the cursor only moves forward. */
  ghost predicate Grows(s: State, s': State) {
    && s'.session == s.session && s'.retryAttempts == s.retryAttempts && s.nextId <= s'.nextId
    && s.published <= s'.published && s.stream <= s'.stream && s.handlers <= s'.handlers && s.history <= s'.history
    && s.cursor <= s'.cursor
    && (forall corr :: corr in s.answers ==> corr in s'.answers && s'.answers[corr] == s.answers[corr])
  }

  lemma StepGrows(s: State, step: Step)
    requires Enabled(s, step)
    ensures Grows(s, Apply(s, step))
  {
  }

  lemma PublishedStays(s: State, s': State, corr: int)
    requires s.published <= s'.published && Published(s, corr)
    ensures Published(s', corr)
  {
    var i :| 0 <= i < |s.published| && s.published[i].correlationId == corr;
    assert s'.published[i].correlationId == corr;
  }

  lemma KeepsOnlyAnswers(s: State, step: Step)
    requires Inv(s) && Enabled(s, step)
    ensures OnlyAnswers(Apply(s, step))
  {
    var s' := Apply(s, step);
    StepGrows(s, step);
    forall i: nat | i < |s'.stream| && OwnMessage(s', i)
      ensures Published(s', s'.stream[i].msg.corr)
    {
      if i < |s.stream| {
        assert OwnMessage(s, i);
      }
      PublishedStays(s, s', s'.stream[i].msg.corr);
    }
    forall i: nat | i < |s.stream|
      ensures OwnMessage(s, i) <==> OwnMessage(s', i)
    {
    }
  }

  lemma WindowStays(s: State, s': State, call: Call, from: nat, end: nat)
    requires Window(s, call, from, end) && Grows(s, s') && |s'.handlers| == s'.cursor <= |s'.stream|
    ensures Window(s', call, from, end)
  {
    forall k: nat | k < from && OwnMessage(s', k)
      ensures s'.stream[k].msg.corr != call.request.correlationId
    {
      assert OwnMessage(s, k);
    }
  }

  lemma EventStays(s: State, s': State, e: Event)
    requires EventInv(s, e) && Grows(s, s') && |s'.handlers| == s'.cursor <= |s'.stream|
    ensures EventInv(s', e)
  {
    match e
    case Finished(call, from, end, seen, o) =>
      WindowStays(s, s', call, from, end);
      DeliveredPrefix(call.query, s.stream, s'.stream, from, end);
      DecidedPrefix(call.query, s.stream, s'.stream, from, end, o);
    case GaveUp(call, from, end, seen) =>
      WaitStays(s, s', call, from, end, seen);
    case _ =>
  }

  lemma WaitStays(s: State, s': State, call: Call, from: nat, end: nat, seen: seq<Recording>)
    requires WaitInv(s, call, from, end, seen) && Grows(s, s') && |s'.handlers| == s'.cursor <= |s'.stream|
    ensures WaitInv(s', call, from, end, seen)
  {
    WindowStays(s, s', call, from, end);
    DeliveredPrefix(call.query, s.stream, s'.stream, from, end);
    UndecidedPrefix(call.query, s.stream, s'.stream, from, end);
  }

  /** The holder of the lock handles the next message of its wait. */
  lemma HandlingIsFaithful(s: State, t: nat)
    requires Inv(s) && Enabled(s, HandleMessage(t)) && PhaseOf(s, t).Polling?
    ensures var s', q := Apply(s, HandleMessage(t)), PhaseOf(s, t).call.query;
            var from, seen := PhaseOf(s, t).from, PhaseOf(s, t).seen + SeenIn(q, s.stream[s.cursor].msg);
            match Verdict(q, |PhaseOf(s, t).seen|, s.stream[s.cursor].msg)
            case None => WaitInv(s', PhaseOf(s, t).call, from, s'.cursor, seen)
            case Some(o) => FinishedInv(s', PhaseOf(s, t).call, from, s'.cursor, seen, o)
  {
    var s', call, from := Apply(s, HandleMessage(t)), PhaseOf(s, t).call, PhaseOf(s, t).from;
    assert Active(s) == PhaseOf(s, t);
    StepGrows(s, HandleMessage(t));
    assert forall k: nat :: k < |s.stream| ==> (OwnMessage(s, k) <==> OwnMessage(s', k));
    assert Window(s', call, from, s'.cursor);
    assert Delivered(call.query, s.stream, from, s.cursor + 1)
           == Delivered(call.query, s.stream, from, s.cursor) + SeenIn(call.query, s.stream[s.cursor].msg);
  }

  lemma KeepsWaitsFaithful(s: State, step: Step)
    requires Inv(s) && Enabled(s, step)
    ensures WaitsFaithful(Apply(s, step))
  {
    var s' := Apply(s, step);
    StepGrows(s, step);
    assert |s'.handlers| == s'.cursor <= |s'.stream|;
    forall k | 0 <= k < s'.cursor && s'.handlers[k].ByCall?
      ensures Published(s', s'.handlers[k].corr)
    {
      if k < s.cursor {
        assert s.handlers[k] == s'.handlers[k];
      } else {
        assert Active(s).call.request in s.published;
      }
      PublishedStays(s, s', s'.handlers[k].corr);
    }
    forall i | 0 <= i < |s'.history|
      ensures EventInv(s', s'.history[i])
    {
      if i < |s.history| {
        EventStays(s, s', s.history[i]);
      } else {
        NewEventFaithful(s, step);
      }
    }
    PollingFaithful(s, step);
  }

  lemma NewEventFaithful(s: State, step: Step)
    requires Inv(s) && Enabled(s, step) && |s.history| < |Apply(s, step).history|
    ensures EventInv(Apply(s, step), Apply(s, step).history[|s.history|])
  {
    if step.HandleMessage? && PhaseOf(s, step.t).Polling? {
      HandlingIsFaithful(s, step.t);
      hide Inv, WaitInv, FinishedInv, Verdict, SeenIn;
    } else if step.GiveUp? {
      GivingUpIsFaithful(s, step.t);
    }
  }

  lemma GivingUpIsFaithful(s: State, t: nat)
    requires Inv(s) && Enabled(s, GiveUp(t))
    ensures var Polling(call, from, seen) := PhaseOf(s, t);
            WaitInv(Apply(s, GiveUp(t)), call, from, s.cursor, seen)
  {
    assert Active(s) == PhaseOf(s, t);
    var Polling(call, from, seen) := PhaseOf(s, t);
    WaitStays(s, Apply(s, GiveUp(t)), call, from, s.cursor, seen);
  }

  lemma PollingFaithful(s: State, step: Step)
    requires Inv(s) && Enabled(s, step)
    ensures var s' := Apply(s, step);
            Active(s').Polling? ==> WaitInv(s', Active(s').call, Active(s').from, s'.cursor, Active(s').seen)
  {
    var s' := Apply(s, step);
    StepGrows(s, step);
    if step.HandleMessage? {
      assert Active(s) == PhaseOf(s, step.t);
      if PhaseOf(s, step.t).Polling? {
        HandlingIsFaithful(s, step.t);
      }
    } else if step.OfferAccepted? {
      assert Active(s) == PhaseOf(s, step.t);
      forall k: nat | k < s.cursor && OwnMessage(s', k)
        ensures s'.stream[k].msg.corr != Active(s).call.request.correlationId
      {
        assert OwnMessage(s, k);
      }
    } else if Active(s').Polling? {
      assert Active(s) == Active(s');
      WaitStays(s, s', Active(s).call, Active(s).from, s.cursor, Active(s).seen);
    }
  }

  lemma KeepsInv(s: State, step: Step)
    requires Inv(s) && Enabled(s, step)
    ensures Inv(Apply(s, step))
  {
    KeepsOneHolder(s, step);
    KeepsIdsUnique(s, step);
    KeepsBufferEncoded(s, step);
    KeepsPublishedOnce(s, step);
    KeepsOnlyAnswers(s, step);
    KeepsWaitsFaithful(s, step);
  }

  // ----- Whole runs -----

  lemma {:induction false} InvAlong(s0: State, steps: seq<Step>)
    requires Inv(s0) && After(s0, steps).Some?
    ensures Inv(After(s0, steps).value)
    decreases |steps|
  {
    if steps != [] {
      var mid := After(s0, steps[..|steps| - 1]);
      InvAlong(s0, steps[..|steps| - 1]);
      KeepsInv(mid.value, steps[|steps| - 1]);
    }
  }

  lemma InvStays(s: State, s': State)
    requires Inv(s) && Reaches(s, s')
    ensures Inv(s')
  {
    var steps :| After(s, steps) == Some(s');
    InvAlong(s, steps);
  }

  /** The invariant holds in every reachable state. */
  lemma ReachableInv(s0: State, s: State)
    requires Initial(s0) && Reaches(s0, s)
    ensures Inv(s)
  {
    InitialInv(s0);
    InvStays(s0, s);
  }

  lemma {:induction false} GrowsAlong(s: State, steps: seq<Step>)
    requires After(s, steps).Some?
    ensures Grows(s, After(s, steps).value)
    decreases |steps|
  {
    if steps != [] {
      var mid := After(s, steps[..|steps| - 1]).value;
      GrowsAlong(s, steps[..|steps| - 1]);
      StepGrows(mid, steps[|steps| - 1]);
    }
  }

  /** The cursor, the stream, the publications, the answers and the history only ever grow. */
  lemma RunGrows(s: State, s': State)
    requires Reaches(s, s')
    ensures Grows(s, s')
  {
    var steps :| After(s, steps) == Some(s');
    GrowsAlong(s, steps);
  }

  /** Request and response match: whenever a call for a response has returned a value, it is the
      archive's relevant id for that very call, taken from a message that the call itself handled. */
  lemma ReturnedValueIsOwnAnswer(s0: State, s: State, i: nat)
    requires Initial(s0) && Reaches(s0, s) && i < |s.history|
    requires s.history[i].Finished? && s.history[i].call.query.AwaitResponse? && s.history[i].outcome.Returned?
    ensures var e := s.history[i];
            var corr := e.call.request.correlationId;
            && corr in s.answers && e.outcome.value == s.answers[corr]
            && e.call.request in s.published
            && 0 < e.end <= s.cursor == |s.handlers| && s.handlers[e.end - 1] == ByCall(corr)
  {
    ReachableInv(s0, s);
    var e := s.history[i];
    assert EventInv(s, e) && ProperCall(s, CallOf(e).value);
    ReturnedByOwnResponse(e.call.query, s.stream, e.from, e.end, e.outcome.value);
    assert OwnMessage(s, e.end - 1);
  }

  /** A wait for answers to corr, which has handled the messages from..end. */
  datatype Span = Span(corr: int, from: nat, end: nat)

  /** The wait of each recorded event, if it has one; behind the last event, the wait still going on. */
  function WaitAt(s: State, i: nat): Option<Span>
    requires i <= |s.history|
  {
    if i == |s.history| then
      match Active(s)
      case Polling(call, from, _) => Some(Span(call.request.correlationId, from, s.cursor))
      case _ => None
    else
      match s.history[i]
      case Finished(call, from, end, _, _) => Some(Span(call.request.correlationId, from, end))
      case GaveUp(call, from, end, _) => Some(Span(call.request.correlationId, from, end))
      case _ => None
  }

  lemma WaitHasWindow(s: State, i: nat)
    requires Inv(s) && i <= |s.history| && WaitAt(s, i).Some?
    ensures var Span(corr, from, end) := WaitAt(s, i).value;
            && from <= end <= |s.handlers|
            && (forall k :: from <= k < end ==> s.handlers[k] == ByCall(corr))
            && (forall k: nat :: k < from && k < |s.stream| && OwnMessage(s, k) ==> s.stream[k].msg.corr != corr)
  {
    assert i < |s.history| ==> EventInv(s, s.history[i]);
  }

  /** No message serves two calls: the messages handled by different calls are disjoint, whether the calls
      have finished, have given up or are still waiting. */
  lemma NoMessageServesTwoCalls(s0: State, s: State, i: nat, j: nat, k: nat)
    requires Initial(s0) && Reaches(s0, s) && i < j <= |s.history|
    requires WaitAt(s, i).Some? && WaitAt(s, j).Some?
    requires WaitAt(s, i).value.from <= k < WaitAt(s, i).value.end
    ensures !(WaitAt(s, j).value.from <= k < WaitAt(s, j).value.end)
  {
    ReachableInv(s0, s);
    WaitHasWindow(s, i);
    WaitHasWindow(s, j);
    assert CallOf(s.history[i]).Some?;
    assert j < |s.history| ==> CallOf(s.history[j]).Some?;
    assert s.handlers[k] == ByCall(WaitAt(s, i).value.corr) != ByCall(WaitAt(s, j).value.corr);
  }

  /** While a call waits, every answer to it that anybody has handled was handled by that call: neither an
      error check nor another call has taken one. The same holds up to its end for a call that is over. */
  lemma WaitingCallLosesNothing(s0: State, s: State, i: nat, k: nat)
    requires Initial(s0) && Reaches(s0, s) && i <= |s.history| && WaitAt(s, i).Some?
    requires k < WaitAt(s, i).value.end && k < |s.stream|
    requires OwnMessage(s, k) && s.stream[k].msg.corr == WaitAt(s, i).value.corr
    ensures WaitAt(s, i).value.from <= k < |s.handlers| && s.handlers[k] == ByCall(WaitAt(s, i).value.corr)
  {
    ReachableInv(s0, s);
    WaitHasWindow(s, i);
  }

  /** The lock keeps error checks and calls apart: when a thread may handle a message for an error check,
      no other thread is anywhere in a call. */
  lemma ErrorCheckRunsAlone(s0: State, s: State, t: nat, other: nat)
    requires Initial(s0) && Reaches(s0, s)
    requires PhaseOf(s, t) == Entered(CheckErrors) && other != t
    ensures PhaseOf(s, other) == Idle
  {
    ReachableInv(s0, s);
  }

  /** What is published is the whole request of the lock holder, and it has not been published before. */
  lemma PublishedRequestIsComplete(s0: State, s: State, t: nat)
    requires Initial(s0) && Reaches(s0, s) && Enabled(s, OfferAccepted(t))
    ensures s.lock == Some(t)
    ensures Apply(s, OfferAccepted(t)).published == s.published + [PhaseOf(s, t).call.request]
    ensures !Published(s, PhaseOf(s, t).call.request.correlationId)
  {
    ReachableInv(s0, s);
  }

  /** A call that waited published its request exactly once. A call that gave up sending had exactly
      max(1, retryAttempts) retryable results, and neither published nor polled anything. */
  lemma SentOnceOrNotAtAll(s0: State, s: State, i: nat)
    requires Initial(s0) && Reaches(s0, s) && i < |s.history|
    ensures match s.history[i]
            case ErrorChecked(_) => true
            case Unsent(call, tried) =>
              && tried == (if s.retryAttempts < 1 then 1 else s.retryAttempts)
              && Untouched(s, call.request.correlationId)
            case SendFailed(call) => Untouched(s, call.request.correlationId)
            case e =>
              exists k :: 0 <= k < |s.published| && s.published[k] == CallOf(e).value.request
                && forall j :: 0 <= j < |s.published| && j != k ==>
                     s.published[j].correlationId != CallOf(e).value.request.correlationId
  {
    ReachableInv(s0, s);
    assert EventInv(s, s.history[i]);
    match s.history[i]
    case Finished(call, _, _, _, _) => PublishedAtOneIndex(s, call.request);
    case GaveUp(call, _, _, _) => PublishedAtOneIndex(s, call.request);
    case _ =>
  }

  lemma PublishedAtOneIndex(s: State, request: Request)
    requires Inv(s) && request in s.published
    ensures exists k :: 0 <= k < |s.published| && s.published[k] == request
              && forall j :: 0 <= j < |s.published| && j != k ==> s.published[j].correlationId != request.correlationId
  {
    var k :| 0 <= k < |s.published| && s.published[k] == request;
  }

  ghost predicate Untouched(s: State, corr: int) {
    && !Published(s, corr)
    && forall k :: 0 <= k < |s.handlers| ==> s.handlers[k] != ByCall(corr)
  }

  /** Every wait of a run ends as the polling loops say: the consumer saw what is delivered up to the end,
      and the end is the first decisive message, or there was none before the call gave up. */
  lemma WaitsEndOnFirstDecision(s0: State, s: State, i: nat)
    requires Initial(s0) && Reaches(s0, s) && i < |s.history|
    ensures match s.history[i]
            case Finished(call, from, end, seen, o) =>
              && DecidedAt(call.query, s.stream, from, end, o)
              && seen == Delivered(call.query, s.stream, from, end)
            case GaveUp(call, from, end, seen) =>
              && from <= end <= |s.stream| && Undecided(call.query, s.stream, from, end)
              && seen == Delivered(call.query, s.stream, from, end)
            case _ => true
  {
    ReachableInv(s0, s);
    assert EventInv(s, s.history[i]);
  }

  // ----- The calls of the client are runs -----

  /** The event of a call that sent its request and then waited from..end. */
  function WaitEvent(call: Call, stream: seq<Frag>, from: nat, end: nat, o: Outcome): Event
    requires from <= end <= |stream|
  {
    var seen := Delivered(call.query, stream, from, end);
    if Decisive(o) then Finished(call, from, end, seen, o) else GaveUp(call, from, end, seen)
  }

  /** The state when a call of thread t has ended its sending, after so many retryable results. */
  function AfterSending(s: State, t: nat, job: Job, id: int, tried: nat, r: SendResult): State
    requires job.Ask?
  {
    var call := CallFor(s.session, job, id);
    var encoded := s.(nextId := id + 1, buffer := call.request);
    match r
    case Sent =>
      Goto(encoded, t, Polling(call, s.cursor, [])).(lock := Some(t), published := s.published + [call.request])
    case NotSent => Leave(encoded, t, Unsent(call, tried))
    case SendThrew(_) => Leave(encoded, t, SendFailed(call))
  }

  /** The attempts that a send with this result has used up on retryable results. */
  predicate TriedBefore(s: State, tried: nat, r: SendResult) {
    if r.NotSent? then tried == Max(1, s.retryAttempts) else tried < Max(1, s.retryAttempts)
  }

  lemma {:induction false} OthersDrawUpTo(s: State, id: int)
    requires s.nextId <= id
    ensures Reaches(s, s.(nextId := id))
    decreases id - s.nextId
  {
    if s.nextId == id {
      ReachesItself(s);
    } else {
      OthersDrawUpTo(s, id - 1);
      ReachesStep(s, s.(nextId := id - 1), OthersDraw);
    }
  }

  /** The state in which the call of thread t has encoded its request and made some offers. */
  function WhileOffering(s: State, t: nat, call: Call, tried: nat): State {
    Goto(s, t, Offering(call, tried)).(
      lock := Some(t), nextId := call.request.correlationId + 1, buffer := call.request)
  }

  lemma EncodingIsARun(s: State, t: nat, job: Job, id: int)
    requires s.lock == None && PhaseOf(s, t) == Idle && job.Ask? && s.nextId <= id
    ensures Reaches(s, WhileOffering(s, t, CallFor(s.session, job, id), 0))
  {
    var call := CallFor(s.session, job, id);
    OthersDrawUpTo(s, id);
    var s1 := s.(nextId := id);
    ReachesStep(s, s1, Enter(t, job));
    var s2 := Apply(s1, Enter(t, job));
    ReachesStep(s, s2, Draw(t));
    var s3 := Apply(s2, Draw(t));
    assert PhaseOf(s3, t) == Encoding(call, false);
    ReachesStep(s, s3, EncodeHeader(t));
    var s4 := Apply(s3, EncodeHeader(t));
    assert PhaseOf(s4, t) == Encoding(call, true);
    ReachesStep(s, s4, EncodeFields(t));
    var s5 := Apply(s4, EncodeFields(t));
    assert s5.threads == s.threads[t := Offering(call, 0)];
    assert s5 == WhileOffering(s, t, call, 0);
  }

  lemma {:induction false} RetryingIsARun(s: State, t: nat, call: Call, tried: nat)
    requires tried < Max(1, s.retryAttempts) && Reaches(s, WhileOffering(s, t, call, 0))
    ensures Reaches(s, WhileOffering(s, t, call, tried))
    decreases tried
  {
    if tried > 0 {
      RetryingIsARun(s, t, call, tried - 1);
      var mid := WhileOffering(s, t, call, tried - 1);
      ReachesStep(s, mid, OfferRetryable(t));
      assert Apply(mid, OfferRetryable(t)).threads == s.threads[t := Offering(call, tried)];
    }
  }

  /** The step of the last offer of a send with this result. */
  function LastStep(t: nat, r: SendResult): Step {
    match r
    case Sent => OfferAccepted(t)
    case NotSent => OfferRetryable(t)
    case SendThrew(_) => OfferFatal(t)
  }

  lemma LastOffer(s: State, t: nat, job: Job, id: int, tried: nat, r: SendResult)
    requires job.Ask? && TriedBefore(s, tried, r)
    ensures var before := if r.NotSent? then tried - 1 else tried;
            var offering := WhileOffering(s, t, CallFor(s.session, job, id), before);
            && Enabled(offering, LastStep(t, r))
            && Apply(offering, LastStep(t, r)) == AfterSending(s, t, job, id, tried, r)
  {
    var before := if r.NotSent? then tried - 1 else tried;
    var offering := WhileOffering(s, t, CallFor(s.session, job, id), before);
    assert Apply(offering, LastStep(t, r)).threads == AfterSending(s, t, job, id, tried, r).threads;
  }

  /** Every way in which the proxy can send a request, or fail to, is a run. */
  lemma SendingIsARun(s: State, t: nat, job: Job, id: int, tried: nat, r: SendResult)
    requires s.lock == None && PhaseOf(s, t) == Idle && job.Ask? && s.nextId <= id && TriedBefore(s, tried, r)
    ensures Reaches(s, AfterSending(s, t, job, id, tried, r))
  {
    var call, before := CallFor(s.session, job, id), if r.NotSent? then tried - 1 else tried;
    EncodingIsARun(s, t, job, id);
    RetryingIsARun(s, t, call, before);
    LastOffer(s, t, job, id, tried, r);
    hide Apply, Enabled, AfterSending;
    ReachesStep(s, WhileOffering(s, t, call, before), LastStep(t, r));
  }

  /** The waiting call handles the next message: it goes on, or the message decides it. */
  lemma HandlingIsAStep(s: State, t: nat)
    requires Inv(s) && Enabled(s, HandleMessage(t)) && PhaseOf(s, t).Polling?
    ensures var s' := Apply(s, HandleMessage(t));
            var Polling(call, from, _) := PhaseOf(s, t);
            && s'.cursor == s.cursor + 1 && s'.stream == s.stream && s'.published == s.published
            && from <= s.cursor
            && match VerdictAt(call.query, s.stream, from, s.cursor)
               case None =>
                 s'.history == s.history && PhaseOf(s', t).Polling?
                 && PhaseOf(s', t).call == call && PhaseOf(s', t).from == from
               case Some(o) =>
                 s'.lock == None && Decisive(o)
                 && s'.history == s.history + [WaitEvent(call, s.stream, from, s.cursor + 1, o)]
  {
    assert Active(s) == PhaseOf(s, t);
    HandlingIsFaithful(s, t);
  }

  lemma GivingUpIsAStep(s: State, t: nat, o: Outcome)
    requires Inv(s) && PhaseOf(s, t).Polling? && !Decisive(o)
    ensures var s' := Apply(s, GiveUp(t));
            var Polling(call, from, _) := PhaseOf(s, t);
            && s'.cursor == s.cursor && s'.stream == s.stream && s'.published == s.published && s'.lock == None
            && from <= s.cursor <= |s.stream|
            && s'.history == s.history + [WaitEvent(call, s.stream, from, s.cursor, o)]
  {
    assert Active(s) == PhaseOf(s, t);
  }

  /** The waiting call goes on alone to its stop in the stream of the run. */
  lemma {:induction false} WaitRuns(s: State, t: nat, end: nat, o: Outcome) returns (s': State)
    requires Inv(s) && PhaseOf(s, t).Polling? && s.cursor <= end
    requires Stopped(PhaseOf(s, t).call.query, s.stream, PhaseOf(s, t).from, end, o)
    ensures Reaches(s, s') && s'.cursor == end && s'.lock == None
    ensures s'.stream == s.stream && s'.published == s.published
    ensures var Polling(call, from, _) := PhaseOf(s, t);
            s'.history == s.history + [WaitEvent(call, s.stream, from, end, o)]
    decreases end - s.cursor
  {
    ReachesItself(s);
    if s.cursor == end {
      assert Active(s) == PhaseOf(s, t);
      GivingUpIsAStep(s, t, o);
      ReachesStep(s, s, GiveUp(t));
      s' := Apply(s, GiveUp(t));
    } else {
      HandlingIsAStep(s, t);
      ReachesStep(s, s, HandleMessage(t));
      KeepsInv(s, HandleMessage(t));
      s' := Apply(s, HandleMessage(t));
      if s'.lock != None {
        var next := s';
        hide Apply, Enabled, Inv, Verdict;
        s' := WaitRuns(next, t, end, o);
        ReachesTransitive(s, next, s');
      }
    }
  }

  /** The streams of runs consist of whole messages. */
  lemma {:induction false} WholeMessages(stream: seq<Frag>, from: nat, end: nat)
    requires from <= end <= |stream| && forall i :: 0 <= i < |stream| ==> stream[i].Final?
    ensures |Completed(stream[from..end])| == end - from
    decreases end
  {
    if from == end {
      assert stream[from..end] == [];
    } else {
      hide Completed;
      WholeMessages(stream, from, end - 1);
      CompletedLast(stream, from, end);
    }
  }

  /** Every stop that the polling loops allow is a run, however their stream cuts the messages into fragments: the
      waiting call goes on alone, over the same messages, to the same outcome and deliveries. */
  lemma WaitingIsARun(s: State, t: nat, frags: seq<Frag>, from: nat, end: nat, o: Outcome) returns (s': State)
    requires Inv(s) && PhaseOf(s, t).Polling?
    requires Stopped(PhaseOf(s, t).call.query, frags, from, end, o)
    requires PhaseOf(s, t).from <= s.cursor <= PhaseOf(s, t).from + |Completed(frags[from..end])|
    requires PhaseOf(s, t).from <= |s.stream|
    requires Completed(frags[from..end]) <= Completed(s.stream[PhaseOf(s, t).from..])
    ensures Reaches(s, s') && s'.lock == None && s'.stream == s.stream && s'.published == s.published
    ensures var Polling(call, start, _) := PhaseOf(s, t);
            && start <= s'.cursor <= |s.stream|
            && Completed(s.stream[start..s'.cursor]) == Completed(frags[from..end])
            && Delivered(call.query, s.stream, start, s'.cursor) == Delivered(call.query, frags, from, end)
            && s'.history == s.history + [WaitEvent(call, s.stream, start, s'.cursor, o)]
  {
    var Polling(call, start, _) := PhaseOf(s, t);
    assert OnlyAnswers(s);
    var stop := StopTransfers(call.query, frags, from, end, o, s.stream, start);
    WholeMessages(s.stream, start, stop);
    hide *;
    s' := WaitRuns(s, t, stop, o);
  }

  /** The steps of others that do not need the lock. */
  predicate Arrives(step: Step) {
    step.OthersDraw? || step.ArchiveResponds? || step.ArchiveDescribes? || step.OthersMessage?
  }

  ghost predicate OnlyArrivals(s: State, s': State) {
    exists steps :: After(s, steps) == Some(s') && forall step <- steps :: Arrives(step)
  }

  lemma {:induction false} ArrivalsAlong(s: State, steps: seq<Step>)
    requires After(s, steps).Some? && forall step <- steps :: Arrives(step)
    ensures var s' := After(s, steps).value;
            s' == s.(nextId := s'.nextId, stream := s'.stream, answers := s'.answers)
    decreases |steps|
  {
    if steps != [] {
      ArrivalsAlong(s, steps[..|steps| - 1]);
      assert Arrives(steps[|steps| - 1]);
    }
  }

  lemma ArrivalsTouchNoThread(s: State, s': State)
    requires OnlyArrivals(s, s')
    ensures s' == s.(nextId := s'.nextId, stream := s'.stream, answers := s'.answers)
  {
    var steps :| After(s, steps) == Some(s') && forall step <- steps :: Arrives(step);
    ArrivalsAlong(s, steps);
  }

  /** How the send of a call with this result went. */
  function SendResultOf(r: CallResult): SendResult {
    match r
    case NotSentResult => NotSent
    case SendThrewResult(reason) => SendThrew(reason)
    case Waited(_) => Sent
  }

  /** Every result that the contracts of the client's two calls allow is the result of a run: for any fresh id,
      any number of retries, any messages that arrive once the request is sent, cut into any fragments, and any
      allowed stop. */
  lemma CallIsARun(s0: State, s: State, t: nat, job: Job, id: int, tried: nat, r: CallResult, arrived: State,
                   frags: seq<Frag>, from: nat, end: nat)
    returns (s': State)
    requires Initial(s0) && Reaches(s0, s) && s.lock == None && job.Ask? && s.nextId <= id
    requires TriedBefore(s, tried, SendResultOf(r))
    requires r.Waited? ==>
               && OnlyArrivals(AfterSending(s, t, job, id, tried, Sent), arrived)
               && Stopped(CallFor(s.session, job, id).query, frags, from, end, r.outcome)
               && s.cursor <= |arrived.stream|
               && Completed(frags[from..end]) <= Completed(arrived.stream[s.cursor..])
    ensures Reaches(s0, s') && s'.lock == None
    ensures if r.Waited?
            then
              var q := CallFor(s.session, job, id).query;
              && s.cursor <= s'.cursor <= |arrived.stream|
              && Completed(arrived.stream[s.cursor..s'.cursor]) == Completed(frags[from..end])
              && Delivered(q, arrived.stream, s.cursor, s'.cursor) == Delivered(q, frags, from, end)
            else s'.cursor == s.cursor
    ensures s'.published == s.published + if r.Waited? then [Request(job.templateId, id, job.fields)] else []
    ensures s'.history == s.history + [
                            match r
                            case NotSentResult => Unsent(CallFor(s.session, job, id), tried)
                            case SendThrewResult(_) => SendFailed(CallFor(s.session, job, id))
                            case Waited(o) =>
                              WaitEvent(CallFor(s.session, job, id), arrived.stream, s.cursor, s'.cursor, o)]
  {
    ReachableInv(s0, s);
    SendingIsARun(s, t, job, id, tried, SendResultOf(r));
    var sent := AfterSending(s, t, job, id, tried, SendResultOf(r));
    ReachesTransitive(s0, s, sent);
    if r.Waited? {
      ArrivalsTouchNoThread(sent, arrived);
      assert Reaches(sent, arrived);
      ReachesTransitive(s0, sent, arrived);
      ReachableInv(s0, arrived);
      s' := WaitingIsARun(arrived, t, frags, from, end, r.outcome);
      ReachesTransitive(s0, arrived, s');
    } else {
      s' := sent;
    }
  }

  /** Every result that the contract of an error check allows is the result of a run: it handles the next message
      and reports it, or there is none to handle. */
  lemma ErrorCheckIsARun(s: State, t: nat, handled: bool) returns (s': State)
    requires Inv(s) && s.lock == None && (handled ==> s.cursor < |s.stream|)
    ensures Reaches(s, s') && Inv(s') && s'.lock == None && s'.cursor == s.cursor + if handled then 1 else 0
    ensures s'.session == s.session && s'.stream == s.stream && s'.published == s.published
    ensures var report := if handled then ErrorIn(s.session, s.stream[s.cursor].msg) else None;
            s'.history == s.history + [ErrorChecked(report)]
  {
    var step := if handled then HandleMessage(t) else PollNothing(t);
    ReachesItself(s);
    ReachesStep(s, s, Enter(t, CheckErrors));
    var entered := Apply(s, Enter(t, CheckErrors));
    KeepsInv(s, Enter(t, CheckErrors));
    ReachesStep(s, entered, step);
    KeepsInv(entered, step);
    s' := Apply(entered, step);
  }

  // ----- Errors are not matched to calls -----

  /** The request that this message answers with an error, if it is an error of the session. */
  function ErrorTo(s: State, k: nat): Option<int>
    requires k < |s.stream|
  {
    if OwnMessage(s, k) && s.stream[k].msg.ControlResponse? && s.stream[k].msg.code == Error
    then Some(s.stream[k].msg.corr)
    else None
  }

  /** The call of this event failed on an error, and the message it ended on is not an error response to it. */
  ghost predicate FailedOnForeignError(s: State, i: nat)
    requires i < |s.history|
  {
    var e := s.history[i];
    && e.Finished? && (e.outcome.ErrorResponse? || e.outcome.ListError?)
    && !(0 < e.end <= |s.stream| && ErrorTo(s, e.end - 1) == Some(e.call.request.correlationId))
  }

  /** Event i of s' is that of the first call sent after s, and it failed on an error that is not its own. */
  ghost predicate NextCallFailsOnForeignError(s: State, s': State, i: nat) {
    && |s'.published| == |s.published| + 1 && i < |s'.history|
    && CallOf(s'.history[i]).Some? && CallOf(s'.history[i]).value.request == s'.published[|s.published|]
    && FailedOnForeignError(s', i)
  }

  /** Message k is a control response to the request with this id. */
  ghost predicate Response(s: State, k: nat, corr: int)
    requires k < |s.stream|
  {
    OwnMessage(s, k) && s.stream[k].msg.ControlResponse? && s.stream[k].msg.corr == corr
  }

  ghost predicate Answered(s: State, corr: int) {
    exists k: nat :: k < |s.stream| && Response(s, k, corr)
  }

  /** The archive has sent at most one control response to each request; descriptors are not counted. */
  ghost predicate AnsweredOnce(s: State) {
    forall j: nat, k: nat, corr :: j < k < |s.stream| && Response(s, j, corr) ==> !Response(s, k, corr)
  }

  /** No request is without a response, and no error response is still to be handled. */
  ghost predicate Settled(s: State) {
    && (forall i :: 0 <= i < |s.published| ==> Answered(s, s.published[i].correlationId))
    && (forall k: nat :: s.cursor <= k < |s.stream| ==> ErrorTo(s, k) == None)
  }

  /** No continuation of s lets the next call that is sent fail on an error response to another request.
      The continuations may be limited to those with at most one response to each request. */
  ghost predicate NextErrorIsOwn(s: State, once: bool) {
    forall s', i: nat ::
      Reaches(s, s') && (once ==> AnsweredOnce(s')) ==> !NextCallFailsOnForeignError(s, s', i)
  }

  /** The error that fails a call answers a published request of the session, and the call handled it. */
  lemma ErrorIsOfSession(s: State, i: nat)
    requires Inv(s) && i < |s.history| && FailedOnForeignError(s, i)
    ensures var e := s.history[i];
            && 0 < e.end <= |s.stream| && e.end <= s.cursor == |s.handlers|
            && ErrorTo(s, e.end - 1).Some? && Published(s, ErrorTo(s, e.end - 1).value)
            && s.handlers[e.end - 1] == ByCall(e.call.request.correlationId)
  {
    var e := s.history[i];
    assert EventInv(s, e) && ProperCall(s, e.call);
    assert VerdictAt(e.call.query, s.stream, e.from, e.end - 1) == Some(e.outcome);
    assert OwnMessage(s, e.end - 1);
  }

  /** An error that fails the next call and answers another request answers one that was published before. If
      it had arrived before, it was still to be handled. */
  lemma ForeignErrorIsOld(s: State, s': State, i: nat)
    requires Inv(s) && Reaches(s, s') && NextCallFailsOnForeignError(s, s', i)
    ensures var k := s'.history[i].end - 1;
            && 0 <= k < |s'.stream| && ErrorTo(s', k).Some? && Published(s, ErrorTo(s', k).value)
            && s.cursor <= k
  {
    InvStays(s, s');
    RunGrows(s, s');
    ErrorIsOfSession(s', i);
    assert PublishedOnce(s') && WaitsFaithful(s);
    hide Inv, Apply, Enabled, Verdict, EventInv, ErrorTo;
    var e := s'.history[i];
    var corr := e.call.request.correlationId;
    forall j | 0 <= j < |s.published|
      ensures s.published[j].correlationId != corr
    {
      assert s'.published[j] == s.published[j];
    }
    forall k | 0 <= k < s.cursor
      ensures s'.handlers[k] == s.handlers[k]
    {
    }
    var j :| 0 <= j < |s'.published| && s'.published[j].correlationId == ErrorTo(s', e.end - 1).value;
    assert s.published[j].correlationId == ErrorTo(s', e.end - 1).value;
  }

  /** Error checks can handle the messages up to any later one. */
  lemma {:induction false} ErrorChecksDrain(s: State, k: nat) returns (s': State)
    requires Inv(s) && s.lock == None && s.cursor <= k <= |s.stream|
    ensures Reaches(s, s') && Inv(s') && s'.lock == None && s'.cursor == k
    ensures s'.session == s.session && s'.stream == s.stream && s'.published == s.published
    decreases k - s.cursor
  {
    ReachesItself(s);
    if s.cursor == k {
      s' := s;
    } else {
      hide *;
      var next := ErrorCheckIsARun(s, 0, true);
      s' := ErrorChecksDrain(next, k);
      ReachesTransitive(s, next, s');
    }
  }

  /** A plain request by thread 0, sent at once. */
  function SendPlain(s: State): State {
    AfterSending(s, 0, Ask(1, [], None), s.nextId, 0, Sent)
  }

  /** The call of thread 0 has just begun to wait for a response, and the next message is another call's error. */
  lemma ForeignErrorEndsWait(s: State)
    requires Inv(s) && PhaseOf(s, 0).Polling? && PhaseOf(s, 0).from == s.cursor < |s.stream|
    requires PhaseOf(s, 0).call.query.AwaitResponse?
    requires ErrorTo(s, s.cursor).Some? && ErrorTo(s, s.cursor) != Some(PhaseOf(s, 0).call.request.correlationId)
    ensures var s', call, m := Apply(s, HandleMessage(0)), PhaseOf(s, 0).call, s.stream[s.cursor].msg;
            && s'.stream == s.stream && s'.published == s.published && s'.session == s.session
            && s'.history
               == s.history + [Finished(call, s.cursor, s.cursor + 1, [], ErrorResponse(m.error, m.relevantId))]
            && FailedOnForeignError(s', |s.history|)
  {
    HandlingIsAStep(s, 0);
    assert Active(s) == PhaseOf(s, 0);
    var q := PhaseOf(s, 0).call.query;
    assert Delivered(q, s.stream, s.cursor, s.cursor) == Delivered(q, s.stream, s.cursor, s.cursor + 1) == [];
    StepGrows(s, HandleMessage(0));
    var s' := Apply(s, HandleMessage(0));
    assert OwnMessage(s', s.cursor) == OwnMessage(s, s.cursor);
  }

  /** A pending error response fails a call that is sent now. */
  lemma PendingErrorFailsCall(s: State) returns (s': State, i: nat)
    requires Inv(s) && s.lock == None && s.cursor < |s.stream| && ErrorTo(s, s.cursor).Some?
    ensures Reaches(s, s') && i < |s'.history| && s'.published == s.published + [Request(1, s.nextId, [])]
    ensures s'.stream == s.stream && CallOf(s'.history[i]) == Some(CallFor(s.session, Ask(1, [], None), s.nextId))
    ensures FailedOnForeignError(s', i)
  {
    PlainIsSent(s);
    hide SendPlain;
    ReachesStep(s, SendPlain(s), HandleMessage(0));
    assert OwnMessage(s, s.cursor) && Published(s, s.stream[s.cursor].msg.corr);
    ForeignErrorEndsWait(SendPlain(s));
    s', i := Apply(SendPlain(s), HandleMessage(0)), |s.history|;
  }

  /** A late error response to a request published before fails a call that has just been sent. */
  lemma LateErrorFailsCall(s: State, corr: int, error: string) returns (s': State, i: nat)
    requires Inv(s) && s.lock == None && s.cursor == |s.stream| && Published(s, corr)
    ensures Reaches(s, s') && i < |s'.history| && s'.published == s.published + [Request(1, s.nextId, [])]
    ensures s'.stream == s.stream + [Final(ControlResponse(s.session, corr, 0, Error, error))]
    ensures var call := CallFor(s.session, Ask(1, [], None), s.nextId);
            s'.history == s.history + [Finished(call, |s.stream|, |s.stream| + 1, [], ErrorResponse(error, 0))]
    ensures s'.session == s.session && i == |s.history| && FailedOnForeignError(s', i)
  {
    var answered := LateErrorArrives(s, corr, error);
    assert Enabled(answered, HandleMessage(0));
    hide Inv, Enabled, Apply;
    ReachesStep(s, answered, HandleMessage(0));
    ForeignErrorEndsWait(answered);
    s', i := Apply(answered, HandleMessage(0)), |s.history|;
  }

  /** A call is sent, and then the late error response to an earlier request arrives. */
  lemma LateErrorArrives(s: State, corr: int, error: string) returns (s': State)
    requires Inv(s) && s.lock == None && s.cursor == |s.stream| && Published(s, corr)
    ensures Reaches(s, s') && Inv(s') && s'.session == s.session && s'.history == s.history
    ensures s'.published == s.published + [Request(1, s.nextId, [])]
    ensures s'.stream == s.stream + [Final(ControlResponse(s.session, corr, 0, Error, error))] && s'.cursor == s.cursor
    ensures PhaseOf(s', 0) == Polling(CallFor(s.session, Ask(1, [], None), s.nextId), s.cursor, [])
    ensures ErrorTo(s', s.cursor) == Some(corr) && corr != s.nextId
  {
    var late, sent := ArchiveResponds(corr, 0, Error, error), SendPlain(s);
    PlainIsSent(s);
    PublishedStays(s, sent, corr);
    hide Inv, SendPlain;
    ReachesStep(s, sent, late);
    KeepsInv(sent, late);
    s' := Apply(sent, late);
    assert OwnMessage(s', |s.stream|);
  }

  lemma PlainIsSent(s: State)
    requires Inv(s) && s.lock == None
    ensures var sent := SendPlain(s);
            && Reaches(s, sent) && Inv(sent) && sent.session == s.session && sent.history == s.history
            && sent.published == s.published + [Request(1, s.nextId, [])]
            && sent.stream == s.stream && sent.cursor == s.cursor
            && PhaseOf(sent, 0) == Polling(CallFor(s.session, Ask(1, [], None), s.nextId), s.cursor, [])
    ensures !Published(s, s.nextId)
  {
    SendingIsARun(s, 0, Ask(1, [], None), s.nextId, 0, Sent);
    InvStays(s, SendPlain(s));
  }

  /** Every error that fails the next call is its own exactly when no request has been published before. */
  lemma ErrorsMatchOnlyAtFirst(s0: State, s: State)
    requires Initial(s0) && Reaches(s0, s) && s.lock == None
    ensures NextErrorIsOwn(s, false) <==> s.published == []
  {
    ReachableInv(s0, s);
    if s.published == [] {
      forall s', i: nat | Reaches(s, s')
        ensures !NextCallFailsOnForeignError(s, s', i)
      {
        if NextCallFailsOnForeignError(s, s', i) {
          ForeignErrorIsOld(s, s', i);
        }
      }
    } else {
      var mid := ErrorChecksDrain(s, |s.stream|);
      assert Published(mid, s.published[0].correlationId);
      var s', i := LateErrorFailsCall(mid, s.published[0].correlationId, "");
      ReachesTransitive(s, mid, s');
      assert NextCallFailsOnForeignError(s, s', i);
    }
  }

  lemma SettledHasNoForeignError(s: State, s': State, i: nat)
    requires Inv(s) && Settled(s) && Reaches(s, s') && AnsweredOnce(s')
    ensures !NextCallFailsOnForeignError(s, s', i)
  {
    if NextCallFailsOnForeignError(s, s', i) {
      ForeignErrorIsOld(s, s', i);
      RunGrows(s, s');
      forall k: nat | k < |s.stream|
        ensures ErrorTo(s, k) == ErrorTo(s', k)
      {
      }
      var k := s'.history[i].end - 1;
      var corr := ErrorTo(s', k).value;
      var j :| 0 <= j < |s.published| && s.published[j].correlationId == corr;
      var answer: nat :| answer < |s.stream| && Response(s, answer, s.published[j].correlationId);
      assert Response(s', answer, corr) && Response(s', k, corr);
    }
  }

  lemma UnsettledHasForeignError(s: State) returns (s': State, i: nat)
    requires Inv(s) && s.lock == None && AnsweredOnce(s) && !Settled(s)
    ensures Reaches(s, s') && AnsweredOnce(s') && NextCallFailsOnForeignError(s, s', i)
  {
    if k: nat :| s.cursor <= k < |s.stream| && ErrorTo(s, k) != None {
      var mid := ErrorChecksDrain(s, k);
      s', i := PendingErrorFailsCall(mid);
      ReachesTransitive(s, mid, s');
      RunGrows(mid, s');
      SameStreamAnsweredOnce(s, s');
    } else {
      var j :| 0 <= j < |s.published| && !Answered(s, s.published[j].correlationId);
      var corr := s.published[j].correlationId;
      var mid := ErrorChecksDrain(s, |s.stream|);
      assert Published(mid, corr);
      s', i := LateErrorFailsCall(mid, corr, "");
      ReachesTransitive(s, mid, s');
      FirstAnswerAnswersOnce(s, s', corr);
    }
  }

  lemma SameStreamAnsweredOnce(s: State, s': State)
    requires AnsweredOnce(s) && s'.session == s.session && s'.stream == s.stream
    ensures AnsweredOnce(s')
  {
    forall j: nat, k: nat, corr | j < k < |s'.stream| && Response(s', j, corr)
      ensures !Response(s', k, corr)
    {
      assert Response(s, j, corr) && !Response(s, k, corr);
    }
  }

  lemma FirstAnswerAnswersOnce(s: State, s': State, corr: int)
    requires AnsweredOnce(s) && s'.session == s.session && |s'.stream| == |s.stream| + 1 && s.stream <= s'.stream
    requires !Answered(s, corr) && Response(s', |s.stream|, corr)
    ensures AnsweredOnce(s')
  {
    forall j: nat, k: nat, c | j < k < |s'.stream| && Response(s', j, c)
      ensures !Response(s', k, c)
    {
      assert Response(s, j, c);
      assert k < |s.stream| ==> !Response(s, k, c);
    }
  }

  /** If the archive answers each request at most once, every error that fails the next call is its own exactly
      when every request has its response and no error response is still to be handled. */
  lemma ErrorsMatchWhenSettled(s0: State, s: State)
    requires Initial(s0) && Reaches(s0, s) && s.lock == None && AnsweredOnce(s)
    ensures NextErrorIsOwn(s, true) <==> Settled(s)
  {
    ReachableInv(s0, s);
    if Settled(s) {
      forall s', i: nat | Reaches(s, s') && AnsweredOnce(s')
        ensures !NextCallFailsOnForeignError(s, s', i)
      {
        SettledHasNoForeignError(s, s', i);
      }
    } else {
      var s', i := UnsettledHasForeignError(s);
    }
  }

  /** A run in which the late error of a call that has timed out fails the next call. */
  lemma LateErrorEndsLaterCall(error: string) returns (s0: State, s: State)
    ensures Initial(s0) && Reaches(s0, s) && |s.history| == 2
    ensures var first, second := s.history[0], s.history[1];
            && first.GaveUp? && second.Finished?
            && second.outcome == ErrorResponse(error, 0)
            && 0 < second.end <= |s.stream|
            && s.stream[second.end - 1]
               == Final(ControlResponse(s.session, first.call.request.correlationId, 0, Error, error))
            && first.call.request.correlationId != second.call.request.correlationId
  {
    s0 := State(7, 3, None, map[], 0, Request(0, 0, []), [], [], 0, [], [], map[]);
    ReachesItself(s0);
    SendingIsARun(s0, 0, Ask(1, [], None), 0, 0, Sent);
    var s1 := SendPlain(s0);
    ReachesStep(s0, s1, GiveUp(0));
    var s2 := Apply(s1, GiveUp(0));
    ReachableInv(s0, s2);
    assert s2.published[0].correlationId == 0;
    var i;
    s, i := LateErrorFailsCall(s2, 0, error);
    ReachesTransitive(s0, s2, s);
  }
}
