/** The archive client: one lock, one request publication, and two pollers on one response stream. */
module AeronArchives {
  import opened Messages
  import opened Protocol
  import opened Transport
  import opened ControlResponsePollers
  import opened RecordingDescriptorPollers
  import opened ArchiveProxies

  const FRAGMENT_LIMIT: nat := 10

  /** How a call ended: its request was not sent, or it waited and stopped with an outcome. */
  datatype CallResult = NotSentResult | SendThrewResult(reason: OfferResult) | Waited(outcome: Outcome)

  /** The wait for one message: it is there, or the wait failed. */
  datatype Wait = Ready | Failed(outcome: Outcome)

  /** There were polls since, and the latest one was empty. */
  ghost predicate EndsEmpty(before: nat, log: seq<PollRecord>) {
    before < |log| && log[|log| - 1].empty
  }

  /** All empty polls from first up to end were made by this time. */
  ghost predicate EmptyBy(log: seq<PollRecord>, first: nat, end: int, deadline: int) {
    forall j :: first <= j < end && j < |log| && log[j].empty ==> log[j].at <= deadline
  }

  /** A listing could go on after the empty poll j: not longer ago than the time-out was its first poll, or the
      poll after one that delivered. */
  ghost predicate OnTime(q: Query, stream: seq<Frag>, start: nat, log: seq<PollRecord>, first: nat, j: nat,
                         timeout: int)
  {
    exists k: nat :: first <= k <= j < |log| && log[j].at <= log[k].at + timeout
                     && (k == first || DeliveredBetween(q, stream, start, log[k - 1].from, log[k].from))
  }

  ghost predicate AllOnTime(q: Query, stream: seq<Frag>, start: nat, log: seq<PollRecord>, first: nat, end: int,
                            timeout: int)
  {
    forall j: nat :: first <= j < end && j < |log| && log[j].empty ==> OnTime(q, stream, start, log, first, j, timeout)
  }

  /** The time of the deadline began with poll k, which may be the next one, at the cursor. */
  ghost predicate Began(q: Query, stream: seq<Frag>, start: nat, log: seq<PollRecord>, first: nat, k: nat,
                        cursor: nat)
  {
    && first <= k <= |log|
    && (k == first
        || DeliveredBetween(q, stream, start, log[k - 1].from, if k < |log| then log[k].from else cursor))
  }

  /** The listing is on time up to poll end, and so is its deadline, which began with poll k. */
  ghost predicate Timely(q: Query, stream: seq<Frag>, start: nat, log: seq<PollRecord>, first: nat, end: int,
                         k: nat, cursor: nat, deadline: int, timeout: int)
  {
    && AllOnTime(q, stream, start, log, first, end, timeout)
    && Began(q, stream, start, log, first, k, cursor)
    && (k < |log| ==> deadline - timeout <= log[k].at)
  }

  lemma NotPolledYet(q: Query, stream: seq<Frag>, start: nat, log: seq<PollRecord>, cursor: nat, deadline: int,
                     timeout: int)
    ensures Timely(q, stream, start, log, |log|, |log|, |log|, cursor, deadline, timeout)
  {
  }

  lemma MorePolled(q: Query, stream: seq<Frag>, start: nat, log: seq<PollRecord>, poll: PollRecord, first: nat,
                   k: nat, cursor: nat, deadline: int, timeout: int)
    requires Timely(q, stream, start, log, first, |log|, k, poll.from, deadline, timeout)
    requires deadline - timeout <= poll.at
    ensures Timely(q, stream, start, log + [poll], first, |log|, k, cursor, deadline, timeout)
    ensures k <= |log| && AllOnTime(q, stream, start, log + [poll], first, |log|, timeout)
  {
    hide DeliveredBetween;
    var log' := log + [poll];
    forall j: nat | first <= j < |log| && log'[j].empty
      ensures OnTime(q, stream, start, log', first, j, timeout)
    {
      assert OnTime(q, stream, start, log, first, j, timeout);
      var k: nat :| first <= k <= j < |log| && log[j].at <= log[k].at + timeout
                    && (k == first || DeliveredBetween(q, stream, start, log[k - 1].from, log[k].from));
      assert log'[j] == log[j] && log'[k] == log[k];
      assert k > first ==> log'[k - 1] == log[k - 1];
    }
  }

  /** The latest poll has delivered, so the time of the deadline begins again with the next one. */
  lemma BeginsAgain(q: Query, stream: seq<Frag>, start: nat, log: seq<PollRecord>, first: nat, k: nat, cursor: nat,
                    before: int, deadline: int, timeout: int)
    requires log != [] && Timely(q, stream, start, log, first, |log| - 1, k, cursor, before, timeout)
    requires first < |log| && !log[|log| - 1].empty
    requires DeliveredBetween(q, stream, start, log[|log| - 1].from, cursor)
    ensures Timely(q, stream, start, log, first, |log|, |log|, cursor, deadline, timeout)
  {
  }

  /** The latest poll was not empty, or it is on time. */
  lemma LatestOnTime(q: Query, stream: seq<Frag>, start: nat, log: seq<PollRecord>, first: nat, k: nat,
                     cursor: nat, deadline: int, timeout: int)
    requires first < |log| && Timely(q, stream, start, log, first, |log| - 1, k, cursor, deadline, timeout)
    requires log[|log| - 1].empty ==> k < |log| && log[|log| - 1].at <= deadline
    ensures Timely(q, stream, start, log, first, |log|, k, cursor, deadline, timeout)
  {
    hide DeliveredBetween;
    if log[|log| - 1].empty {
      assert OnTime(q, stream, start, log, first, |log| - 1, timeout);
    }
  }

  class AeronArchive {
    const subscription: Subscription
    const clock: Clock
    const ids: CorrelationIds
    const proxy: ArchiveProxy
    const responsePoller: ControlResponsePoller
    const messageTimeout: int
    var descriptorPoller: RecordingDescriptorPoller?
    var controlSessionId: int
    var locked: bool

    ghost predicate Valid()
      reads this, subscription
    {
      && subscription.Valid()
      && responsePoller.subscription == subscription && responsePoller.fragmentLimit == 10
      && subscription.clock == clock == proxy.clock
      && proxy.publication.clock == clock && proxy.connectTimeout == messageTimeout
    }

    ghost predicate Connected()
      reads this, subscription, descriptorPoller
    {
      && Valid()
      && descriptorPoller != null
      && descriptorPoller.subscription == subscription && descriptorPoller.fragmentLimit == 10
      && descriptorPoller.controlSessionId == controlSessionId
    }

    /** A wait gives up with o only for a reason: its latest poll was empty, and the subscription is not connected or
        the message time-out has passed since the wait began at this time. */
    ghost predicate MayGiveUp(o: Outcome, startedAt: int, pollsBefore: nat)
      reads subscription, clock
    {
      && (o == TimedOut || o == Disconnected ==> EndsEmpty(pollsBefore, subscription.pollLog))
      && (o == TimedOut ==> subscription.connected && clock.time > startedAt + messageTimeout)
      && (o == Disconnected ==> !subscription.connected)
    }

    /** The wait for a connection timed out, without any poll. */
    ghost predicate NeverConnected(o: Outcome, startedAt: int, pollsBefore: nat)
      reads subscription, clock
    {
      && o == TimedOut && !subscription.connected
      && clock.time > startedAt + messageTimeout && |subscription.pollLog| == pollsBefore
    }

    /** A listing that started at fragment from times out only when every descriptor it has delivered was
        consumed longer ago than the message time-out. */
    ghost predicate QuietOnTimeout(o: Outcome, q: Query, from: nat)
      reads subscription, clock
    {
      o == TimedOut ==>
        DeliveredBy(q, subscription.stream, subscription.takenAt, from, subscription.cursor,
                    clock.time - messageTimeout - 1)
    }

    constructor (subscription: Subscription, clock: Clock, ids: CorrelationIds, publication: Publication,
                 messageTimeout: int, retryAttempts: int)
      requires subscription.Valid() && subscription.clock == clock == publication.clock
      ensures Valid() && !locked && this.subscription == subscription && descriptorPoller == null
    {
      this.subscription, this.clock, this.ids, this.messageTimeout := subscription, clock, ids, messageTimeout;
      proxy := new ArchiveProxy(publication, clock, messageTimeout, retryAttempts);
      responsePoller := new ControlResponsePoller(subscription, FRAGMENT_LIMIT);
      descriptorPoller, locked := null, false;
    }

    /** After an empty poll, both polling loops idle once, unless the subscription is not connected or the
        deadline has passed. */
    method IdleUntil(deadline: int) returns (failure: Option<Outcome>)
      modifies clock, subscription`connected, subscription`observedAt
      ensures old(clock.time) <= clock.time && old(subscription.observedAt) <= subscription.observedAt
      ensures match failure
              case None => subscription.connected && old(clock.time) <= deadline && old(clock.time) < clock.time
              case Some(o) =>
                if subscription.connected then o == TimedOut && clock.time > deadline else o == Disconnected
    {
      var connected := subscription.IsConnected();
      if !connected {
        return Some(Disconnected);
      }
      var now := clock.Now();
      if now > deadline {
        return Some(TimedOut);
      }
      clock.Idle();
      failure := None;
    }

    /** Polls until one message has been handled. A time-out needs an empty poll past the deadline. */
    method PollNextResponse(deadline: int) returns (w: Wait)
      requires Valid()
      modifies subscription, clock, responsePoller
      ensures subscription.Valid() && old(subscription.cursor) <= subscription.cursor && old(clock.time) <= clock.time
      ensures forall i :: old(subscription.cursor) <= i < subscription.cursor - 1 ==> subscription.stream[i].Part?
      ensures w.Ready? || Decisive(w.outcome) ==>
                && old(subscription.cursor) < subscription.cursor
                && subscription.stream[subscription.cursor - 1].Final?
      ensures w.Ready? ==> responsePoller.Holds(subscription.stream[subscription.cursor - 1].msg)
      ensures w.Failed? && Decisive(w.outcome) ==>
                && subscription.stream[subscription.cursor - 1].msg.UnknownMessage?
                && w.outcome == UnknownTemplate(subscription.stream[subscription.cursor - 1].msg.templateId)
      ensures w.Failed? && !Decisive(w.outcome) ==>
                && EndsEmpty(|old(subscription.pollLog)|, subscription.pollLog)
                && forall i :: old(subscription.cursor) <= i < subscription.cursor ==> subscription.stream[i].Part?
      ensures w == Failed(TimedOut) ==> clock.time > deadline && subscription.connected
      ensures w == Failed(Disconnected) ==> !subscription.connected
      ensures old(subscription.pollLog) < subscription.pollLog
      ensures old(subscription.observedAt) <= subscription.observedAt
      ensures subscription.pollLog[|old(subscription.pollLog)|].at >= old(clock.time)
      ensures var end := |subscription.pollLog| - (if w.Failed? then 1 else 0);
              EmptyBy(subscription.pollLog, |old(subscription.pollLog)|, end, deadline)
    {
      while true
        invariant subscription.Valid() && old(subscription.cursor) <= subscription.cursor
        invariant old(clock.time) <= clock.time
        invariant old(subscription.pollLog) <= subscription.pollLog
        invariant old(subscription.observedAt) <= subscription.observedAt
        invariant |old(subscription.pollLog)| < |subscription.pollLog| ==>
                    subscription.pollLog[|old(subscription.pollLog)|].at >= old(clock.time)
        invariant EmptyBy(subscription.pollLog, |old(subscription.pollLog)|, |subscription.pollLog|, deadline)
        invariant forall i :: old(subscription.cursor) <= i < subscription.cursor ==> subscription.stream[i].Part?
        decreases |subscription.stream| - subscription.cursor, deadline - clock.time
      {
        var polled := responsePoller.Poll();
        if polled.Threw? {
          return Failed(polled.outcome);
        }
        if responsePoller.isPollComplete {
          return Ready;
        }
        if polled.fragments == 0 {
          var failure := IdleUntil(deadline);
          if failure.Some? {
            return Failed(failure.value);
          }
        }
      }
    }

    method AwaitConnection(deadline: int) returns (connected: bool)
      requires subscription.clock == clock
      modifies clock, subscription`connected, subscription`observedAt
      ensures old(clock.time) <= clock.time
      ensures old(subscription.observedAt) < subscription.observedAt
      ensures subscription.observedAt[|old(subscription.observedAt)|] == old(clock.time)
      ensures !connected ==>
                forall i :: |old(subscription.observedAt)| <= i < |subscription.observedAt| - 1 ==>
                  subscription.observedAt[i] <= deadline
      ensures connected == subscription.connected
      ensures !connected ==> clock.time > deadline
    {
      connected := subscription.IsConnected();
      while !connected
        invariant old(clock.time) <= clock.time && connected == subscription.connected
        invariant old(subscription.observedAt) < subscription.observedAt
        invariant subscription.observedAt[|old(subscription.observedAt)|] == old(clock.time)
        invariant forall i :: |old(subscription.observedAt)| <= i < |subscription.observedAt| - 1 ==>
                    subscription.observedAt[i] <= deadline
        invariant subscription.observedAt[|subscription.observedAt| - 1] <= clock.time
        decreases !connected, deadline - clock.time
      {
        var now := clock.Now();
        if now > deadline {
          return;
        }
        clock.Idle();
        connected := subscription.IsConnected();
      }
    }

    /** Finds the first message that answers the connect request. */
    method AwaitSessionOpened(correlationId: int) returns (o: Outcome)
      requires Valid()
      modifies subscription, clock, responsePoller
      ensures subscription.Valid()
      ensures Stopped(OpenSession(correlationId), subscription.stream, old(subscription.cursor), subscription.cursor, o)
      ensures old(clock.time) <= clock.time && |old(subscription.pollLog)| <= |subscription.pollLog|
      ensures MayGiveUp(o, old(clock.time), |old(subscription.pollLog)|)
              || NeverConnected(o, old(clock.time), |old(subscription.pollLog)|)
      ensures old(subscription.observedAt) < subscription.observedAt
      ensures var last := subscription.observedAt[|old(subscription.observedAt)|] + messageTimeout;
              && EmptyBy(subscription.pollLog, |old(subscription.pollLog)|, |subscription.pollLog| - 1, last)
              && (|subscription.pollLog| == |old(subscription.pollLog)| ==>
                    forall i :: |old(subscription.observedAt)| <= i < |subscription.observedAt| - 1 ==>
                      subscription.observedAt[i] <= last)
    {
      ghost var polls, observed := |subscription.pollLog|, |subscription.observedAt|;
      ghost var q, start := OpenSession(correlationId), subscription.cursor;
      var started := clock.Now();
      var deadline := started + messageTimeout;
      var connected := AwaitConnection(deadline);
      if !connected {
        return TimedOut;
      }
      while true
        invariant subscription.Valid() && start <= subscription.cursor && started <= clock.time
        invariant Undecided(q, subscription.stream, start, subscription.cursor)
        invariant |old(subscription.pollLog)| <= |subscription.pollLog|
        invariant EmptyBy(subscription.pollLog, polls, |subscription.pollLog|, deadline)
        invariant old(subscription.observedAt) < subscription.observedAt
        invariant subscription.observedAt[observed] == started
        decreases |subscription.stream| - subscription.cursor
      {
        var w := PollNextResponse(deadline);
        if w.Failed? {
          return w.outcome;
        }
        if responsePoller.correlationId != correlationId || responsePoller.templateId != ControlResponseTemplate {
          continue;
        }
        if responsePoller.code != Ok {
          if responsePoller.code == Error {
            return ErrorResponse(responsePoller.errorMessage, responsePoller.relevantId);
          }
          return UnexpectedCode(responsePoller.code);
        }
        return Returned(responsePoller.controlSessionId);
      }
    }

    /** Finds the first message that is decisive for a response to correlationId. */
    method PollForResponse(correlationId: int) returns (o: Outcome)
      requires Valid() && locked
      modifies subscription, clock, responsePoller
      ensures subscription.Valid() && old(clock.time) <= clock.time
      ensures Stopped(AwaitResponse(controlSessionId, correlationId), subscription.stream,
                      old(subscription.cursor), subscription.cursor, o)
      ensures MayGiveUp(o, old(clock.time), |old(subscription.pollLog)|)
      ensures |old(subscription.pollLog)| < |subscription.pollLog|
      ensures EmptyBy(subscription.pollLog, |old(subscription.pollLog)|, |subscription.pollLog| - 1,
                      subscription.pollLog[|old(subscription.pollLog)|].at + messageTimeout)
    {
      ghost var polls := |subscription.pollLog|;
      ghost var q, start := AwaitResponse(controlSessionId, correlationId), subscription.cursor;
      var started := clock.Now();
      var deadline := started + messageTimeout;
      while true
        invariant subscription.Valid() && start <= subscription.cursor && started <= clock.time
        invariant Undecided(q, subscription.stream, start, subscription.cursor)
        invariant |old(subscription.pollLog)| <= |subscription.pollLog|
        invariant EmptyBy(subscription.pollLog, polls, |subscription.pollLog|, deadline)
        invariant polls < |subscription.pollLog| ==> subscription.pollLog[polls].at >= started
        decreases |subscription.stream| - subscription.cursor
      {
        var w := PollNextResponse(deadline);
        if w.Failed? {
          return w.outcome;
        }
        if responsePoller.controlSessionId != controlSessionId || responsePoller.templateId != ControlResponseTemplate {
          continue;
        }
        if responsePoller.code == Error {
          return ErrorResponse(responsePoller.errorMessage, responsePoller.relevantId);
        } else if correlationId == responsePoller.correlationId {
          if responsePoller.code != Ok {
            return UnexpectedCode(responsePoller.code);
          }
          return Returned(responsePoller.relevantId);
        }
      }
    }

    lemma DecisionIsNoGivingUp(o: Outcome, q: Query, from: nat, startedAt: int, pollsBefore: nat)
      requires Decisive(o)
      ensures MayGiveUp(o, startedAt, pollsBefore) && QuietOnTimeout(o, q, from)
    {
    }

    lemma GivesUpQuiet(o: Outcome, q: Query, from: nat, startedAt: int, pollsBefore: nat)
      requires EndsEmpty(pollsBefore, subscription.pollLog)
      requires if subscription.connected then o == TimedOut && clock.time > startedAt + messageTimeout
               else o == Disconnected
      requires o == TimedOut ==>
                 DeliveredBy(q, subscription.stream, subscription.takenAt, from, subscription.cursor,
                             clock.time - messageTimeout - 1)
      ensures MayGiveUp(o, startedAt, pollsBefore) && QuietOnTimeout(o, q, from)
    {
    }

    /** Between two polls for descriptors: the deadline is renewed after deliveries, and an empty poll idles. */
    method RenewAndIdle(delivered: bool, fragments: nat, deadline: int,
                        ghost q: Query, ghost start: nat, ghost first: nat, ghost k: nat)
      returns (renewed: int, failure: Option<Outcome>, ghost began: nat)
      requires first < |subscription.pollLog| && k < |subscription.pollLog|
      requires Timely(q, subscription.stream, start, subscription.pollLog, first, |subscription.pollLog| - 1, k,
                      subscription.cursor, deadline, messageTimeout)
      requires subscription.pollLog[|subscription.pollLog| - 1].at <= clock.time
      requires subscription.pollLog[|subscription.pollLog| - 1].empty <==> fragments == 0
      requires delivered ==>
                 var before := subscription.pollLog[|subscription.pollLog| - 1].from;
                 && fragments > 0
                 && DeliveredBetween(q, subscription.stream, start, before, subscription.cursor)
      modifies clock, subscription`connected, subscription`observedAt
      ensures old(clock.time) <= clock.time
      ensures if delivered then old(clock.time) <= renewed - messageTimeout <= clock.time else renewed == deadline
      ensures match failure
              case None =>
                && (fragments == 0 ==>
                      subscription.connected && old(clock.time) <= renewed && old(clock.time) < clock.time)
                && Timely(q, subscription.stream, start, subscription.pollLog, first, |subscription.pollLog|, began,
                          subscription.cursor, renewed, messageTimeout)
              case Some(o) =>
                && fragments == 0
                && if subscription.connected then o == TimedOut && clock.time > renewed else o == Disconnected
    {
      hide Timely;
      renewed, failure, began := deadline, None, k;
      if delivered {
        var now := clock.Now();
        renewed, began := now + messageTimeout, |subscription.pollLog|;
        BeginsAgain(q, subscription.stream, start, subscription.pollLog, first, k, subscription.cursor, deadline,
                    renewed, messageTimeout);
      }
      if fragments == 0 {
        failure := IdleUntil(renewed);
      }
      if !delivered && failure == None {
        LatestOnTime(q, subscription.stream, start, subscription.pollLog, first, k, subscription.cursor, deadline,
                     messageTimeout);
      }
    }

    /** Hands the consumer the descriptors of a listing until its first decisive message. The deadline is
        renewed when descriptors have been delivered, which costs fragments. */
    method PollForDescriptors(correlationId: int, recordCount: int, consumer: RecordingConsumer) returns (o: Outcome)
      requires Connected() && locked && consumer.Valid()
      modifies subscription, clock, descriptorPoller, consumer
      ensures Connected() && consumer.Valid() && old(clock.time) <= clock.time
      ensures StoppedShowing(AwaitDescriptors(controlSessionId, correlationId, recordCount), subscription.stream,
                             old(subscription.cursor), subscription.cursor, o, old(consumer.seen), consumer.seen)
      ensures MayGiveUp(o, old(clock.time), |old(subscription.pollLog)|)
      ensures QuietOnTimeout(o, AwaitDescriptors(controlSessionId, correlationId, recordCount),
                             old(subscription.cursor))
      ensures |old(subscription.pollLog)| < |subscription.pollLog|
      ensures AllOnTime(AwaitDescriptors(controlSessionId, correlationId, recordCount), subscription.stream,
                        old(subscription.cursor), subscription.pollLog, |old(subscription.pollLog)|,
                        |subscription.pollLog| - 1, messageTimeout)
    {
      hide StoppedShowing, DeliveredBy, DeliveredBetween, AllOnTime, Timely;
      hide MayGiveUp, QuietOnTimeout;
      hide RecordingDescriptorPoller.Listing, RecordingDescriptorPoller.Ended;
      ghost var q, start := AwaitDescriptors(controlSessionId, correlationId, recordCount), subscription.cursor;
      var existingRemainCount := recordCount;
      var started := clock.Now();
      var deadline := started + messageTimeout;
      var poller := descriptorPoller;
      poller.Reset(correlationId, recordCount, consumer);
      ghost var polls := |subscription.pollLog|;
      ghost var k: nat := polls;  // the poll that began the time of the deadline, which may be the next one
      NotPolledYet(q, subscription.stream, start, subscription.pollLog, start, deadline, messageTimeout);
      while true
        invariant subscription.Valid() && consumer.Valid()
        invariant poller.Listing() && poller.Is(q, start, consumer, old(consumer.seen))
        invariant started + messageTimeout <= deadline && poller.deliveredAt + messageTimeout <= deadline
        invariant poller.deliveredAt <= clock.time && started <= clock.time && deadline - messageTimeout <= clock.time
        invariant existingRemainCount == poller.remainingRecordCount
        invariant |old(subscription.pollLog)| <= |subscription.pollLog| && start <= subscription.cursor
        invariant Timely(q, subscription.stream, start, subscription.pollLog, polls, |subscription.pollLog|, k,
                         subscription.cursor, deadline, messageTimeout)
        decreases |subscription.stream| - subscription.cursor, deadline - clock.time
      {
        ghost var log, before := subscription.pollLog, subscription.cursor;
        var polled := poller.Poll();
        ghost var poll := PollRecord(clock.time, before, subscription.lastBatch == 0);
        MorePolled(q, subscription.stream, start, log, poll, polls, k, subscription.cursor, deadline, messageTimeout);
        var remainingRecordCount := poller.remainingRecordCount;
        if polled.Threw? {
          poller.EndedStopped(q, start, consumer, old(consumer.seen), polled.outcome);
          DecisionIsNoGivingUp(polled.outcome, q, start, old(clock.time), polls);
          return polled.outcome;
        }
        if poller.isDispatchComplete {
          o := Returned(recordCount - remainingRecordCount);
          poller.EndedStopped(q, start, consumer, old(consumer.seen), o);
          DecisionIsNoGivingUp(o, q, start, old(clock.time), polls);
          return;
        }
        var failure;
        deadline, failure, k := RenewAndIdle(existingRemainCount != remainingRecordCount, polled.fragments, deadline,
                                             q, start, polls, k);
        existingRemainCount := remainingRecordCount;
        if failure.Some? {
          poller.ListingStopped(q, start, consumer, old(consumer.seen), failure.value);
          GivesUpQuiet(failure.value, q, start, old(clock.time), polls);
          return failure.value;
        }
      }
    }

    /** Opens the control session: sends the connect request and waits for its answer. */
    method Connect(build: int -> Request) returns (r: CallResult, ghost id: int)
      requires Valid() && !locked
      modifies this, subscription, clock, ids, proxy, proxy.publication, responsePoller
      ensures Valid() && !locked
      ensures old(ids.next) <= id < ids.next
      ensures proxy.publication.accepted == old(proxy.publication.accepted) + if r.Waited? then [build(id)] else []
      ensures old(proxy.publication.offers) < proxy.publication.offers
      ensures var tried := proxy.publication.offers[|old(proxy.publication.offers)|..];
              && (forall i :: 0 <= i < |tried| - 1 ==>
                    tried[i] in {BackPressured, AdminAction, OtherResult, NotConnected})
              && match r
                 case NotSentResult =>
                   && tried[|tried| - 1] in {BackPressured, AdminAction, OtherResult, NotConnected}
                   && clock.time > old(clock.time) + messageTimeout
                 case SendThrewResult(x) => tried[|tried| - 1] == x && x in {PublicationClosed, MaxPositionExceeded}
                 case Waited(_) => tried[|tried| - 1] == Accepted
      ensures old(proxy.publication.offeredAt) < proxy.publication.offeredAt
      ensures var at := proxy.publication.offeredAt[|old(proxy.publication.offeredAt)|..];
              forall i :: 0 <= i < |at| - 1 ==> at[i] <= at[0] + messageTimeout
      ensures if r.Waited?
              then Stopped(OpenSession(id), subscription.stream,
                           old(subscription.cursor), subscription.cursor, r.outcome)
              else subscription.cursor == old(subscription.cursor) && subscription.pollLog == old(subscription.pollLog)
      ensures r == Waited(TimedOut) ==>
                && clock.time > old(clock.time) + messageTimeout
                && |old(subscription.pollLog)| <= |subscription.pollLog|
                && if |subscription.pollLog| == |old(subscription.pollLog)| then !subscription.connected
                   else subscription.connected && subscription.pollLog[|subscription.pollLog| - 1].empty
      ensures r == Waited(Disconnected) ==>
                && !subscription.connected
                && |old(subscription.pollLog)| < |subscription.pollLog|
                && subscription.pollLog[|subscription.pollLog| - 1].empty
      ensures r.Waited? ==>
                && |old(subscription.pollLog)| <= |subscription.pollLog|
                && old(subscription.observedAt) < subscription.observedAt
                && var last := subscription.observedAt[|old(subscription.observedAt)|] + messageTimeout;
                   && (forall j :: |old(subscription.pollLog)| <= j < |subscription.pollLog| - 1
                                   && subscription.pollLog[j].empty
                                   ==> subscription.pollLog[j].at <= last)
                   && (|subscription.pollLog| == |old(subscription.pollLog)| ==>
                         forall i :: |old(subscription.observedAt)| <= i < |subscription.observedAt| - 1 ==>
                           subscription.observedAt[i] <= last)
      ensures if r.Waited? && r.outcome.Returned?
              then Connected() && controlSessionId == r.outcome.value
              else controlSessionId == old(controlSessionId) && descriptorPoller == old(descriptorPoller)
    {
      var correlationId := ids.NextCorrelationId();
      id := correlationId;
      var sent := proxy.Connect(build(correlationId));
      match sent {
        case NotSent => return NotSentResult, id;
        case SendThrew(x) => return SendThrewResult(x), id;
        case Sent =>
      }
      var o := AwaitSessionOpened(correlationId);
      if o.Returned? {
        controlSessionId := o.value;
        descriptorPoller := new RecordingDescriptorPoller(subscription, FRAGMENT_LIMIT, o.value);
      }
      r := Waited(o);
    }

    /** A call that waits for one response. Nothing is polled unless its request was published, once. */
    method CallAndPollForResponse(build: int -> Request) returns (r: CallResult, ghost id: int)
      requires Connected() && !locked
      modifies this`locked, subscription, clock, ids, proxy, proxy.publication, responsePoller
      ensures Connected() && !locked
      ensures old(ids.next) <= id < ids.next
      ensures proxy.publication.accepted == old(proxy.publication.accepted) + if r.Waited? then [build(id)] else []
      ensures old(proxy.publication.offers) < proxy.publication.offers
      ensures var tried := proxy.publication.offers[|old(proxy.publication.offers)|..];
              && |tried| <= (if proxy.retryAttempts < 1 then 1 else proxy.retryAttempts)
              && (forall i :: 0 <= i < |tried| - 1 ==> tried[i] in {BackPressured, AdminAction, OtherResult})
              && match r
                 case NotSentResult =>
                   && |tried| == (if proxy.retryAttempts < 1 then 1 else proxy.retryAttempts)
                   && tried[|tried| - 1] in {BackPressured, AdminAction, OtherResult}
                 case SendThrewResult(x) =>
                   tried[|tried| - 1] == x && x in {NotConnected, PublicationClosed, MaxPositionExceeded}
                 case Waited(_) => tried[|tried| - 1] == Accepted
      ensures if r.Waited?
              then Stopped(AwaitResponse(controlSessionId, id), subscription.stream,
                           old(subscription.cursor), subscription.cursor, r.outcome)
              else subscription.cursor == old(subscription.cursor) && subscription.pollLog == old(subscription.pollLog)
      ensures r == Waited(TimedOut) || r == Waited(Disconnected) ==>
                && |old(subscription.pollLog)| < |subscription.pollLog|
                && subscription.pollLog[|subscription.pollLog| - 1].empty
      ensures r == Waited(TimedOut) ==> subscription.connected && clock.time > old(clock.time) + messageTimeout
      ensures r == Waited(Disconnected) ==> !subscription.connected
      ensures r.Waited? ==>
                forall j :: |old(subscription.pollLog)| <= j < |subscription.pollLog| - 1
                            && subscription.pollLog[j].empty ==>
                  subscription.pollLog[j].at <= subscription.pollLog[|old(subscription.pollLog)|].at + messageTimeout
    {
      locked := true;
      var correlationId := ids.NextCorrelationId();
      id := correlationId;
      var sent := proxy.Send(build(correlationId));
      match sent
      case NotSent =>
        r := NotSentResult;
        locked := false;
      case SendThrew(x) =>
        r := SendThrewResult(x);
        locked := false;
      case Sent =>
        var o := PollForResponse(correlationId);
        r := Waited(o);
        locked := false;
    }

    /** A call that lists descriptors. */
    method CallAndPollForDescriptors(build: int -> Request, recordCount: int, consumer: RecordingConsumer)
      returns (r: CallResult, ghost id: int)
      requires Connected() && !locked && consumer.Valid()
      modifies this`locked, subscription, clock, ids, proxy, proxy.publication, descriptorPoller, consumer
      ensures Connected() && !locked && consumer.Valid()
      ensures old(ids.next) <= id < ids.next
      ensures proxy.publication.accepted == old(proxy.publication.accepted) + if r.Waited? then [build(id)] else []
      ensures old(proxy.publication.offers) < proxy.publication.offers
      ensures var tried := proxy.publication.offers[|old(proxy.publication.offers)|..];
              && |tried| <= (if proxy.retryAttempts < 1 then 1 else proxy.retryAttempts)
              && (forall i :: 0 <= i < |tried| - 1 ==> tried[i] in {BackPressured, AdminAction, OtherResult})
              && match r
                 case NotSentResult =>
                   && |tried| == (if proxy.retryAttempts < 1 then 1 else proxy.retryAttempts)
                   && tried[|tried| - 1] in {BackPressured, AdminAction, OtherResult}
                 case SendThrewResult(x) =>
                   tried[|tried| - 1] == x && x in {NotConnected, PublicationClosed, MaxPositionExceeded}
                 case Waited(_) => tried[|tried| - 1] == Accepted
      ensures if r.Waited?
              then StoppedShowing(AwaitDescriptors(controlSessionId, id, recordCount), subscription.stream,
                                  old(subscription.cursor), subscription.cursor, r.outcome,
                                  old(consumer.seen), consumer.seen)
              else
                && subscription.cursor == old(subscription.cursor) && subscription.pollLog == old(subscription.pollLog)
                && consumer.seen == old(consumer.seen)
      ensures r == Waited(TimedOut) || r == Waited(Disconnected) ==>
                && |old(subscription.pollLog)| < |subscription.pollLog|
                && subscription.pollLog[|subscription.pollLog| - 1].empty
      ensures r == Waited(TimedOut) ==>
                && subscription.connected && clock.time > old(clock.time) + messageTimeout
                && forall i, recording :: old(subscription.cursor) <= i < subscription.cursor
                                          && subscription.stream[i]
                                             == Final(RecordingDescriptor(controlSessionId, id, recording)) ==>
                     clock.time > subscription.takenAt[i] + messageTimeout
      ensures r == Waited(Disconnected) ==> !subscription.connected
      ensures r.Waited? ==>
                var q := AwaitDescriptors(controlSessionId, id, recordCount);
                var first, log := |old(subscription.pollLog)|, subscription.pollLog;
                forall j: nat :: first <= j < |log| - 1 && log[j].empty ==>
                  OnTime(q, subscription.stream, old(subscription.cursor), log, first, j, messageTimeout)
    {
      locked := true;
      var correlationId := ids.NextCorrelationId();
      id := correlationId;
      var sent := proxy.Send(build(correlationId));
      match sent
      case NotSent =>
        r := NotSentResult;
        locked := false;
      case SendThrew(x) =>
        r := SendThrewResult(x);
        locked := false;
      case Sent =>
        var o := PollForDescriptors(correlationId, recordCount, consumer);
        r := Waited(o);
        locked := false;
    }

    /** Handles at most one message, and reports it when it is an error of the own session. */
    method PollForErrorResponse() returns (r: Option<string>, thrown: bool)
      requires Connected() && !locked
      modifies this`locked, subscription, responsePoller
      ensures Connected() && !locked && old(subscription.cursor) <= subscription.cursor
      ensures |subscription.pollLog| == |old(subscription.pollLog)| + 1
      ensures forall i :: old(subscription.cursor) <= i < subscription.cursor - 1 ==> subscription.stream[i].Part?
      ensures if old(subscription.cursor) < subscription.cursor && subscription.stream[subscription.cursor - 1].Final?
              then
                var m := subscription.stream[subscription.cursor - 1].msg;
                && thrown == m.UnknownMessage?
                && forall e :: r == Some(e) <==>
                     m.ControlResponse? && m.session == controlSessionId && m.code == Error && m.error == e
              else !thrown && r == None
    {
      locked := true;
      r, thrown := None, false;
      var polled := responsePoller.Poll();
      if polled.Threw? {
        thrown := true;
      } else if polled.fragments != 0 && responsePoller.isPollComplete {
        if responsePoller.controlSessionId == controlSessionId && responsePoller.templateId == ControlResponseTemplate
           && responsePoller.code == Error {
          r := Some(responsePoller.errorMessage);
        }
      }
      locked := false;
    }
  }
}
