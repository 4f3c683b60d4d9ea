/** The small part of the Aeron client library that the archive client relies on, as assumed contracts.

The library is not part of the repository. Every method here is as nondeterministic as its contract:
how much has arrived, how many fragments a poll may take, whether an image is connected, what an offer
returns and how fast time passes are all left open. */
module Transport {
  import opened Messages

  class Clock {
    var time: int

    constructor () { }

    method Now() returns (t: int)
      modifies this
      ensures old(time) <= time == t
    {
      var elapsed: nat :| 0 <= elapsed;
      time := time + elapsed;
      t := time;
    }

    method Idle()
      modifies this
      ensures old(time) < time
    {
      var elapsed: nat :| 0 <= elapsed;
      time := time + 1 + elapsed;
    }
  }

  /** A poll: when it began and at which fragment, and whether it found nothing to take. */
  datatype PollRecord = PollRecord(at: int, from: nat, empty: bool)

  /** One ordered stream of fragments and a cursor into it. The stream is everything that will ever
      arrive; only the fragments before arrived can be polled yet. */
  class Subscription {
    const stream: seq<Frag>
    const clock: Clock
    var arrived: nat
    var cursor: nat
    var connected: bool       // as last observed
    ghost var lastBatch: nat  // how many fragments the latest poll consumed
    ghost var takenAt: seq<int>        // when each fragment before the cursor was consumed
    ghost var pollLog: seq<PollRecord>  // all polls so far
    ghost var observedAt: seq<int>      // when it was observed whether the subscription is connected

    ghost predicate Valid()
      reads this`arrived, this`cursor, this`lastBatch, this`takenAt
    {
      cursor <= arrived <= |stream| && lastBatch <= cursor == |takenAt|
    }

    constructor (stream: seq<Frag>, clock: Clock)
      ensures Valid() && this.stream == stream && this.clock == clock && cursor == 0
    {
      this.stream, this.clock := stream, clock;
      arrived, cursor, connected, lastBatch, takenAt, pollLog, observedAt := 0, 0, false, 0, [], [], [];
    }

    /** More may arrive; the poll that begins may take up to budget fragments. */
    method BeginPoll(limit: nat) returns (budget: nat)
      requires Valid()
      modifies this`arrived, this`lastBatch, this`pollLog
      ensures Valid() && lastBatch == 0
      ensures pollLog == old(pollLog) + [PollRecord(clock.time, cursor, budget == 0)]
      ensures budget <= limit && cursor + budget <= arrived
    {
      var more: nat :| 0 <= more;
      arrived := if arrived + more <= |stream| then arrived + more else |stream|;
      assert cursor + 0 <= arrived;  // taking nothing is always possible
      budget :| 0 <= budget <= limit && cursor + budget <= arrived;
      pollLog, lastBatch := pollLog + [PollRecord(clock.time, cursor, budget == 0)], 0;
    }

    method Take() returns (f: Frag)
      requires Valid() && cursor < arrived
      modifies this`cursor, this`lastBatch, this`takenAt
      ensures Valid() && cursor == old(cursor) + 1 && lastBatch == old(lastBatch) + 1
      ensures takenAt == old(takenAt) + [clock.time]
      ensures f == stream[old(cursor)]
    {
      f := stream[cursor];
      cursor, lastBatch, takenAt := cursor + 1, lastBatch + 1, takenAt + [clock.time];
    }

    method IsConnected() returns (now: bool)
      modifies this`connected, this`observedAt
      ensures now == connected && observedAt == old(observedAt) + [clock.time]
    {
      connected, observedAt := *, observedAt + [clock.time];
      now := connected;
    }
  }

  /** A request as its encoder leaves it in the buffer: the header's template id, then the fields. */
  datatype Field = NumberField(n: int) | TextField(s: string)
  datatype Request = Request(templateId: int, correlationId: int, fields: seq<Field>)

  /** What an offer returns. OtherResult stands for any further non-positive result. */
  datatype OfferResult =
    | Accepted
    | BackPressured
    | AdminAction
    | OtherResult
    | NotConnected
    | PublicationClosed
    | MaxPositionExceeded

  class Publication {
    var accepted: seq<Request>
    ghost const clock: Clock
    ghost var offers: seq<OfferResult>  // the results of all offers so far
    ghost var offeredAt: seq<int>       // when they were made

    constructor (ghost clock: Clock)
      ensures accepted == [] && offers == [] && offeredAt == [] && this.clock == clock
    {
      accepted, offers, offeredAt := [], [], [];
      this.clock := clock;
    }

    method Offer(request: Request) returns (result: OfferResult)
      modifies this
      ensures offers == old(offers) + [result] && offeredAt == old(offeredAt) + [clock.time]
      ensures accepted == old(accepted) + (if result == Accepted then [request] else [])
    {
      result := *;
      offers, offeredAt := offers + [result], offeredAt + [clock.time];
      if result == Accepted {
        accepted := accepted + [request];
      }
    }
  }

  /** The source of correlation ids: it never hands out the same one twice. */
  class CorrelationIds {
    var next: int

    constructor () { }

    method NextCorrelationId() returns (id: int)
      modifies this
      ensures old(next) <= id < next
    {
      var others: nat :| 0 <= others;  // drawn by other users of the same client
      id := next + others;
      next := id + 1;
    }
  }
}
