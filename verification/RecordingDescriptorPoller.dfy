/** The poller that hands the matching descriptors of one listing to a consumer, several in one poll. */
module RecordingDescriptorPollers {
  import opened Messages
  import opened Protocol
  import opened Transport
  import opened ControlResponsePollers

  const NO_RECORDING := Recording(-1, 0, 0, 0)

  /** A consumer of descriptors that keeps the latest one. */
  class RecordingConsumer {
    ghost var seen: seq<Recording>
    var latest: Recording

    ghost predicate Valid()
      reads this
    {
      if seen == [] then latest == NO_RECORDING else latest == seen[|seen| - 1]
    }

    constructor ()
      ensures Valid() && seen == []
    {
      seen, latest := [], NO_RECORDING;
    }

    method Accept(r: Recording)
      modifies this
      ensures Valid() && seen == old(seen) + [r]
    {
      seen, latest := seen + [r], r;
    }
  }

  datatype Action = Continue | Break | Throw(outcome: Outcome)

  class RecordingDescriptorPoller {
    const subscription: Subscription
    const fragmentLimit: nat
    const controlSessionId: int
    var correlationId: int
    var remainingRecordCount: int
    var consumer: RecordingConsumer
    var isDispatchComplete: bool
    ghost var recordCount: int            // as given to the latest reset
    ghost var start: nat                  // the cursor at the latest reset
    ghost var deliveredAt: int            // when the latest descriptor was delivered, or the latest reset
    ghost var seenBefore: seq<Recording>  // what the consumer had seen at the latest reset

    constructor (subscription: Subscription, fragmentLimit: nat, controlSessionId: int)
      ensures this.subscription == subscription && this.controlSessionId == controlSessionId
      ensures this.fragmentLimit == fragmentLimit
      ensures fresh(consumer)
    {
      this.subscription, this.fragmentLimit, this.controlSessionId := subscription, fragmentLimit, controlSessionId;
      consumer := new RecordingConsumer();
      isDispatchComplete := false;
    }

    ghost function Query(): Query
      reads this`correlationId, this`recordCount
    {
      AwaitDescriptors(controlSessionId, correlationId, recordCount)
    }

    /** The state is that of a listing whose fragments since the reset decided nothing. */
    ghost predicate Listing()
      reads this, subscription`arrived, subscription`cursor, subscription`lastBatch, subscription`takenAt, consumer
    {
      && subscription.Valid() && consumer.Valid()
      && start <= subscription.cursor
      && ListingUpTo(subscription.cursor, subscription.takenAt)
    }

    /** The fragments up to end, taken at these times, decided nothing, and their deliveries are accounted for. */
    ghost predicate ListingUpTo(end: nat, takenAt: seq<int>)
      reads this`correlationId, this`recordCount, this`start, this`seenBefore, this`deliveredAt
      reads this`remainingRecordCount, this`consumer, consumer
    {
      && start <= end <= |subscription.stream|
      && Undecided(Query(), subscription.stream, start, end)
      && Shown(end)
      && DeliveredBy(Query(), subscription.stream, takenAt, start, end, deliveredAt)
    }

    /** A fragment that completes no message keeps the listing as it is. */
    lemma PartTaken()
      requires subscription.Valid() && consumer.Valid() && start < subscription.cursor
      requires ListingUpTo(subscription.cursor - 1, subscription.takenAt[..subscription.cursor - 1])
      requires subscription.stream[subscription.cursor - 1].Part?
      ensures Listing()
    {
      UndecidedSnoc(Query(), subscription.stream, start, subscription.cursor);
    }

    /** The listing is this one: its query, where it started, its consumer and what that had seen before. */
    ghost predicate Is(q: Query, start: nat, consumer: RecordingConsumer, seenBefore: seq<Recording>)
      reads this`correlationId, this`recordCount, this`start, this`consumer, this`seenBefore
    {
      q == Query() && start == this.start && consumer == this.consumer && seenBefore == this.seenBefore
    }

    /** The consumer and the remaining count account for exactly the fragments between the reset and end. */
    ghost predicate Shown(end: nat)
      reads this`correlationId, this`recordCount, this`start, this`seenBefore
      reads this`remainingRecordCount, this`consumer, consumer
    {
      && start <= end <= |subscription.stream|
      && var delivered := Delivered(Query(), subscription.stream, start, end);
         consumer.seen == seenBefore + delivered && remainingRecordCount == recordCount - |delivered|
    }

    /** The state is that of a listing which the fragment before the cursor has ended. */
    ghost predicate Ended(o: Outcome)
      reads this, subscription`arrived, subscription`cursor, subscription`lastBatch, subscription`takenAt, consumer
    {
      && subscription.Valid() && consumer.Valid()
      && DecidedAt(Query(), subscription.stream, start, subscription.cursor, o)
      && Shown(subscription.cursor)
    }

    /** At this fragment, so many descriptors remained. */
    ghost predicate RemainingAt(end: nat, remaining: int)
      reads this`correlationId, this`recordCount, this`start
    {
      && start <= end <= |subscription.stream|
      && remaining == recordCount - |Delivered(Query(), subscription.stream, start, end)|
    }

    lemma RemainingNow()
      requires Listing()
      ensures RemainingAt(subscription.cursor, remainingRecordCount)
    {
    }

    lemma FewerRemain(before: nat, remaining: int)
      requires Listing() && RemainingAt(before, remaining)
      ensures remainingRecordCount < remaining ==>
                DeliveredBetween(Query(), subscription.stream, start, before, subscription.cursor)
    {
    }

    /** A listing that has ended stopped on its first decisive fragment, with its deliveries. */
    lemma EndedStopped(q: Query, from: nat, consumer: RecordingConsumer, before: seq<Recording>, o: Outcome)
      requires Ended(o) && Is(q, from, consumer, before) && Decisive(o)
      ensures StoppedShowing(q, subscription.stream, from, subscription.cursor, o, before, consumer.seen)
    {
    }

    /** A listing that gives up stopped undecided, with its deliveries, all consumed by its latest delivery. */
    lemma ListingStopped(q: Query, from: nat, consumer: RecordingConsumer, before: seq<Recording>, o: Outcome)
      requires Listing() && Is(q, from, consumer, before) && !Decisive(o)
      ensures StoppedShowing(q, subscription.stream, from, subscription.cursor, o, before, consumer.seen)
      ensures forall t :: deliveredAt <= t ==>
                DeliveredBy(q, subscription.stream, subscription.takenAt, from, subscription.cursor, t)
    {
    }

    /** Since there were so many descriptors remaining there have been deliveries now, or none. */
    ghost predicate DeliveredSince(remaining: int, at: int)
      reads this`remainingRecordCount, this`deliveredAt, subscription.clock
    {
      || (remainingRecordCount == remaining && deliveredAt == at)
      || (remainingRecordCount < remaining && deliveredAt == subscription.clock.time)
    }

    method Reset(correlationId: int, remainingRecordCount: int, consumer: RecordingConsumer)
      requires subscription.Valid() && consumer.Valid()
      modifies this
      ensures Listing() && !isDispatchComplete && this.remainingRecordCount == remainingRecordCount
      ensures deliveredAt == subscription.clock.time
      ensures Is(AwaitDescriptors(controlSessionId, correlationId, remainingRecordCount),
                 subscription.cursor, consumer, consumer.seen)
    {
      this.correlationId, this.consumer := correlationId, consumer;
      this.remainingRecordCount, isDispatchComplete := remainingRecordCount, false;
      recordCount, start, seenBefore := remainingRecordCount, subscription.cursor, consumer.seen;
      deliveredAt := subscription.clock.time;
    }

    /** Handles the message of the fragment before the cursor: it stops exactly on a decisive message. */
    method OnFragment(m: Msg) returns (action: Action)
      requires subscription.Valid() && consumer.Valid() && start < subscription.cursor
      requires ListingUpTo(subscription.cursor - 1, subscription.takenAt[..subscription.cursor - 1])
      requires subscription.stream[subscription.cursor - 1] == Final(m)
      requires !isDispatchComplete
      requires subscription.takenAt[subscription.cursor - 1] == subscription.clock.time >= deliveredAt
      modifies this`remainingRecordCount, this`isDispatchComplete, this`deliveredAt, consumer
      ensures consumer.Valid() && isDispatchComplete == action.Break?
      ensures DeliveredSince(old(remainingRecordCount), old(deliveredAt))
      ensures match action
              case Continue => Listing()
              case Break => Ended(Returned(recordCount - remainingRecordCount))
              case Throw(o) => Decisive(o) && !o.Returned? && Ended(o)
    {
      hide DeliveredBy;
      DeliveredBySnoc(Query(), subscription.stream, subscription.takenAt, start, subscription.cursor,
                      deliveredAt, subscription.clock.time);
      match m {
        case ControlResponse(session, corr, _, code, error) =>
          if controlSessionId == session {
            if code == RecordingUnknown && correlationId == corr {
              isDispatchComplete := true;
              return Break;
            } else if code == Error {
              return Throw(ListError(error));
            }
          }
        case RecordingDescriptor(session, corr, recording) =>
          if controlSessionId == session && correlationId == corr {
            consumer.Accept(recording);
            remainingRecordCount := remainingRecordCount - 1;
            deliveredAt := subscription.clock.time;
            if remainingRecordCount == 0 {
              isDispatchComplete := true;
              return Break;
            }
          }
        case UnknownMessage(templateId) =>
          return Throw(UnknownTemplate(templateId));
      }
      action := Continue;
    }

    /** Handles the messages of up to the limit of fragments, and stops right after a decisive one. */
    method Poll() returns (r: PollResult)
      requires Listing() && deliveredAt <= subscription.clock.time
      modifies this`remainingRecordCount, this`isDispatchComplete, this`deliveredAt, subscription, consumer
      ensures old(subscription.cursor) <= subscription.cursor <= old(subscription.cursor) + fragmentLimit
      ensures subscription.lastBatch == subscription.cursor - old(subscription.cursor)
      ensures subscription.pollLog == old(subscription.pollLog) + [
                PollRecord(subscription.clock.time, old(subscription.cursor), subscription.lastBatch == 0)]
      ensures match r
              case Polled(fragments) =>
                && fragments == subscription.lastBatch
                && if isDispatchComplete then Ended(Returned(recordCount - remainingRecordCount)) else Listing()
              case Threw(o) => Decisive(o) && !o.Returned? && Ended(o)
      ensures subscription.Valid() && consumer.Valid()
      ensures DeliveredSince(old(remainingRecordCount), old(deliveredAt))
      ensures subscription.lastBatch == 0 ==> remainingRecordCount == old(remainingRecordCount)
      ensures r.Polled? && !isDispatchComplete && remainingRecordCount != old(remainingRecordCount) ==>
                DeliveredBetween(Query(), subscription.stream, start, old(subscription.cursor), subscription.cursor)
    {
      hide RecordingDescriptorPoller.ListingUpTo, RecordingDescriptorPoller.Ended;
      hide RecordingDescriptorPoller.RemainingAt, DeliveredBetween;
      RemainingNow();
      isDispatchComplete := false;
      var budget := subscription.BeginPoll(fragmentLimit);
      ghost var before := subscription.cursor;
      var n := 0;
      while n < budget
        invariant n <= budget && before + budget <= subscription.arrived
        invariant subscription.cursor == before + n && subscription.lastBatch == n
        invariant Listing() && !isDispatchComplete
        invariant subscription.pollLog == old(subscription.pollLog) + [
                    PollRecord(subscription.clock.time, before, budget == 0)]
        invariant DeliveredSince(old(remainingRecordCount), old(deliveredAt)) && deliveredAt <= subscription.clock.time
        invariant n == 0 ==> remainingRecordCount == old(remainingRecordCount)
      {
        var f := subscription.Take();
        n := n + 1;
        if f.Part? {
          PartTaken();
        } else {
          var action := OnFragment(f.msg);
          match action
          case Continue =>
          case Break => return Polled(n);
          case Throw(o) => return Threw(o);
        }
      }
      FewerRemain(before, old(remainingRecordCount));
      r := Polled(n);
    }
  }
}
