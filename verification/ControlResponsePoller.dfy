/** The poller that stops after every message and keeps the fields of the last control response. */
module ControlResponsePollers {
  import opened Messages
  import opened Protocol
  import opened Transport

  datatype Template = NoTemplate | ControlResponseTemplate

  /** What a poll did: it consumed this many fragments, or its handler threw. */
  datatype PollResult = Polled(fragments: nat) | Threw(outcome: Outcome)

  class ControlResponsePoller {
    const subscription: Subscription
    const fragmentLimit: nat
    var controlSessionId: int
    var correlationId: int
    var relevantId: int
    var templateId: Template
    var code: Code
    var errorMessage: string
    var isPollComplete: bool

    constructor (subscription: Subscription, fragmentLimit: nat)
      ensures this.subscription == subscription && this.fragmentLimit == fragmentLimit
    {
      this.subscription, this.fragmentLimit := subscription, fragmentLimit;
      isPollComplete := false;
    }

    ghost predicate Blank()
      reads this
    {
      controlSessionId == correlationId == relevantId == -1 && templateId == NoTemplate && !isPollComplete
    }

    /** The fields describe message m. */
    ghost predicate Holds(m: Msg)
      reads this
    {
      && isPollComplete
      && match m
         case ControlResponse(s, c, r, k, e) =>
           && templateId == ControlResponseTemplate
           && controlSessionId == s && correlationId == c && relevantId == r && code == k
           && errorMessage == if k == Error then e else ""
         case RecordingDescriptor(_, _, _) =>
           templateId == NoTemplate && controlSessionId == correlationId == relevantId == -1
         case UnknownMessage(_) => false
    }

    /** Handles one message. Its action is to break in every case, unless it throws. */
    method OnFragment(m: Msg) returns (thrown: Option<Outcome>)
      requires Blank()
      modifies this
      ensures thrown == if m.UnknownMessage? then Some(UnknownTemplate(m.templateId)) else None
      ensures thrown == None ==> Holds(m)
      ensures thrown.Some? ==> Blank()
    {
      match m {
        case ControlResponse(s, c, r, k, e) =>
          controlSessionId, correlationId, relevantId, templateId, code := s, c, r, ControlResponseTemplate, k;
          if code == Error {
            errorMessage := e;
          } else {
            errorMessage := "";
          }
        case RecordingDescriptor(_, _, _) =>
        case UnknownMessage(t) =>
          return Some(UnknownTemplate(t));
      }
      isPollComplete := true;
      thrown := None;
    }

    /** Consumes parts until a message is complete, then handles it and stops right after it. */
    method Poll() returns (r: PollResult)
      requires subscription.Valid()
      modifies this, subscription
      ensures subscription.Valid() && old(subscription.cursor) <= subscription.cursor
      ensures subscription.cursor - old(subscription.cursor) <= fragmentLimit
      ensures subscription.lastBatch == subscription.cursor - old(subscription.cursor)
      ensures subscription.pollLog == old(subscription.pollLog) + [
                PollRecord(subscription.clock.time, old(subscription.cursor), subscription.lastBatch == 0)]
      ensures subscription.observedAt == old(subscription.observedAt)
      ensures r.Polled? ==> r.fragments == subscription.lastBatch
      ensures forall i :: old(subscription.cursor) <= i < subscription.cursor - 1 ==> subscription.stream[i].Part?
      ensures r.Polled? && !isPollComplete && old(subscription.cursor) < subscription.cursor ==>
                subscription.stream[subscription.cursor - 1].Part?
      ensures r.Polled? && isPollComplete ==>
                && old(subscription.cursor) < subscription.cursor
                && subscription.stream[subscription.cursor - 1].Final?
                && Holds(subscription.stream[subscription.cursor - 1].msg)
      ensures !isPollComplete ==> Blank()
      ensures r.Threw? ==>
                && !isPollComplete
                && old(subscription.cursor) < subscription.cursor
                && subscription.stream[subscription.cursor - 1].Final?
                && subscription.stream[subscription.cursor - 1].msg.UnknownMessage?
                && r.outcome == UnknownTemplate(subscription.stream[subscription.cursor - 1].msg.templateId)
    {
      controlSessionId, correlationId, relevantId := -1, -1, -1;
      templateId, isPollComplete := NoTemplate, false;
      var budget := subscription.BeginPoll(fragmentLimit);
      ghost var start := subscription.cursor;
      var n := 0;
      while n < budget
        invariant subscription.Valid() && n <= budget && start + budget <= subscription.arrived
        invariant subscription.cursor == start + n && subscription.lastBatch == n
        invariant Blank() && subscription.observedAt == old(subscription.observedAt)
        invariant subscription.pollLog == old(subscription.pollLog) + [
                    PollRecord(subscription.clock.time, start, budget == 0)]
        invariant forall i :: start <= i < subscription.cursor ==> subscription.stream[i].Part?
      {
        var f := subscription.Take();
        n := n + 1;
        if f.Final? {
          var thrown := OnFragment(f.msg);
          if thrown.Some? {
            return Threw(thrown.value);
          }
          return Polled(n);
        }
      }
      r := Polled(n);
    }
  }
}
