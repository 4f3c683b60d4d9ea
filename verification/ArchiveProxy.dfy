/** Encodes every request into one shared buffer and offers that buffer, with bounded retries. */
module ArchiveProxies {
  import opened Transport

  datatype SendResult = Sent | NotSent | SendThrew(reason: OfferResult)

  class ArchiveProxy {
    const publication: Publication
    const clock: Clock
    const connectTimeout: int
    const retryAttempts: int
    var buffer: Request

    constructor (publication: Publication, clock: Clock, connectTimeout: int, retryAttempts: int)
      ensures this.publication == publication && this.clock == clock
      ensures this.connectTimeout == connectTimeout && this.retryAttempts == retryAttempts
    {
      this.publication, this.clock := publication, clock;
      this.connectTimeout, this.retryAttempts := connectTimeout, retryAttempts;
      buffer := Request(0, 0, []);
    }

    /** Writes the header of a request; the fields of the previous request are still behind it. */
    method WrapAndApplyHeader(templateId: int)
      modifies this
      ensures buffer == old(buffer).(templateId := templateId)
    {
      buffer := buffer.(templateId := templateId);
    }

    method PutFields(correlationId: int, fields: seq<Field>)
      modifies this
      ensures buffer == Request(old(buffer).templateId, correlationId, fields)
    {
      buffer := buffer.(correlationId := correlationId, fields := fields);
    }

    /** Offers the buffer until it is accepted, a fatal result throws, or the attempts run out. */
    method Offer() returns (r: SendResult)
      modifies publication, clock
      ensures old(publication.offers) < publication.offers && old(clock.time) <= clock.time
      ensures var tried := publication.offers[|old(publication.offers)|..];
              && |tried| <= (if retryAttempts < 1 then 1 else retryAttempts)
              && (forall i :: 0 <= i < |tried| - 1 ==> tried[i] in {BackPressured, AdminAction, OtherResult})
              && match r
                 case Sent => tried[|tried| - 1] == Accepted
                 case NotSent =>
                   && |tried| == (if retryAttempts < 1 then 1 else retryAttempts)
                   && tried[|tried| - 1] in {BackPressured, AdminAction, OtherResult}
                 case SendThrew(x) =>
                   tried[|tried| - 1] == x && x in {NotConnected, PublicationClosed, MaxPositionExceeded}
      ensures publication.accepted == old(publication.accepted) + (if r == Sent then [buffer] else [])
    {
      var attempts := retryAttempts;
      ghost var before := publication.offers;
      while true
        invariant before <= publication.offers && old(clock.time) <= clock.time
        invariant |publication.offers| - |before| == retryAttempts - attempts
        invariant attempts == retryAttempts || attempts > 0
        invariant forall i :: |before| <= i < |publication.offers| ==>
                    publication.offers[i] in {BackPressured, AdminAction, OtherResult}
        invariant publication.accepted == old(publication.accepted)
        decreases attempts
      {
        var result := publication.Offer(buffer);
        if result == Accepted {
          return Sent;
        }
        if result == PublicationClosed || result == NotConnected || result == MaxPositionExceeded {
          return SendThrew(result);
        }
        attempts := attempts - 1;
        if attempts <= 0 {
          return NotSent;
        }
        clock.Idle();
      }
    }

    /** Offers the buffer until it is accepted, a fatal result throws, or the connect time-out has passed. It goes on
        after an offer only if that was made within the time-out of the first one. */
    method OfferWithTimeout() returns (r: SendResult)
      requires publication.clock == clock
      modifies publication, clock
      ensures old(publication.offers) < publication.offers && old(clock.time) <= clock.time
      ensures var tried := publication.offers[|old(publication.offers)|..];
              && (forall i :: 0 <= i < |tried| - 1 ==>
                    tried[i] in {BackPressured, AdminAction, OtherResult, NotConnected})
              && match r
                 case Sent => tried[|tried| - 1] == Accepted
                 case NotSent =>
                   && tried[|tried| - 1] in {BackPressured, AdminAction, OtherResult, NotConnected}
                   && clock.time > old(clock.time) + connectTimeout
                 case SendThrew(x) => tried[|tried| - 1] == x && x in {PublicationClosed, MaxPositionExceeded}
      ensures publication.accepted == old(publication.accepted) + (if r == Sent then [buffer] else [])
      ensures old(publication.offeredAt) < publication.offeredAt
      ensures var at := publication.offeredAt[|old(publication.offeredAt)|..];
              forall i :: 0 <= i < |at| - 1 ==> at[i] <= at[0] + connectTimeout
    {
      var started := clock.Now();
      var deadline := started + connectTimeout;
      ghost var before, beforeAt := publication.offers, publication.offeredAt;
      while true
        invariant before <= publication.offers && beforeAt <= publication.offeredAt && started <= clock.time
        invariant forall i :: |before| <= i < |publication.offers| ==>
                    publication.offers[i] in {BackPressured, AdminAction, OtherResult, NotConnected}
        invariant forall i :: |beforeAt| <= i < |publication.offeredAt| ==>
                    started <= publication.offeredAt[i] <= deadline
        invariant publication.accepted == old(publication.accepted)
        decreases deadline - clock.time
      {
        var result := publication.Offer(buffer);
        assert started <= publication.offeredAt[|beforeAt|];
        if result == Accepted {
          return Sent;
        }
        if result == PublicationClosed || result == MaxPositionExceeded {
          return SendThrew(result);
        }
        var now := clock.Now();
        if now > deadline {
          return NotSent;
        }
        clock.Idle();
      }
    }

    /** Every request but connect: encode it completely, then offer it. */
    method Send(request: Request) returns (r: SendResult)
      modifies this, publication, clock
      ensures old(publication.offers) < publication.offers && old(clock.time) <= clock.time
      ensures publication.accepted == old(publication.accepted) + (if r == Sent then [request] else [])
      ensures var tried := publication.offers[|old(publication.offers)|..];
              && |tried| <= (if retryAttempts < 1 then 1 else retryAttempts)
              && (forall i :: 0 <= i < |tried| - 1 ==> tried[i] in {BackPressured, AdminAction, OtherResult})
              && match r
                 case Sent => tried[|tried| - 1] == Accepted
                 case NotSent =>
                   && |tried| == (if retryAttempts < 1 then 1 else retryAttempts)
                   && tried[|tried| - 1] in {BackPressured, AdminAction, OtherResult}
                 case SendThrew(x) =>
                   tried[|tried| - 1] == x && x in {NotConnected, PublicationClosed, MaxPositionExceeded}
    {
      WrapAndApplyHeader(request.templateId);
      PutFields(request.correlationId, request.fields);
      r := Offer();
    }

    /** The connect request. */
    method Connect(request: Request) returns (r: SendResult)
      requires publication.clock == clock
      modifies this, publication, clock
      ensures old(publication.offers) < publication.offers && old(clock.time) <= clock.time
      ensures publication.accepted == old(publication.accepted) + (if r == Sent then [request] else [])
      ensures var tried := publication.offers[|old(publication.offers)|..];
              && (forall i :: 0 <= i < |tried| - 1 ==>
                    tried[i] in {BackPressured, AdminAction, OtherResult, NotConnected})
              && match r
                 case Sent => tried[|tried| - 1] == Accepted
                 case NotSent =>
                   && tried[|tried| - 1] in {BackPressured, AdminAction, OtherResult, NotConnected}
                   && clock.time > old(clock.time) + connectTimeout
                 case SendThrew(x) => tried[|tried| - 1] == x && x in {PublicationClosed, MaxPositionExceeded}
      ensures old(publication.offeredAt) < publication.offeredAt
      ensures var at := publication.offeredAt[|old(publication.offeredAt)|..];
              forall i :: 0 <= i < |at| - 1 ==> at[i] <= at[0] + connectTimeout
    {
      WrapAndApplyHeader(request.templateId);
      PutFields(request.correlationId, request.fields);
      r := OfferWithTimeout();
    }
  }
}
