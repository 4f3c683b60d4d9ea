/** Extending the latest recording of a channel: the channel that makes a publication continue where
the recording stopped. */
module RecordedPublishers {
  import opened Messages
  import opened Protocol
  import opened Transport
  import opened ChannelUris
  import opened Decimals
  import opened TermPositions
  import opened RecordingDescriptorPollers
  import opened AeronArchives

  /** The five parameters appended to the channel, in order. */
  function ExtensionParams(r: Recording, termId: int, termOffset: int): seq<Param> {
    [ ("init-term-id", Decimal(r.initialTermId)),
      ("term-length", Decimal(r.termBufferLength)),
      ("term-id", Decimal(termId)),
      ("term-offset", Decimal(termOffset)),
      ("mtu", "1408") ]
  }

  function OneAppended(p: Param): string {
    "|" + p.0 + "=" + p.1
  }

  /** The text |key=value|key=value... of these parameters. */
  function Appended(pairs: seq<Param>): string {
    if pairs == [] then ""
    else Appended(pairs[..|pairs| - 1]) + OneAppended(pairs[|pairs| - 1])
  }

  /** base overridden with pairs, left to right. */
  function Override(base: map<string, string>, pairs: seq<Param>): map<string, string> {
    if pairs == [] then base
    else Override(base, pairs[..|pairs| - 1])[pairs[|pairs| - 1].0 := pairs[|pairs| - 1].1]
  }

  lemma AppendOneParam(pairs: seq<Param>, p: Param)
    requires pairs != []
    ensures ParamText(pairs + [p]) == ParamText(pairs) + OneAppended(p)
  {
    ParamTextSnoc(pairs, p.0, p.1);
    assert p == (p.0, p.1);
    var t := ParamText(pairs);
    Regroup(t + "|", p.0, "=", p.1);
    Regroup("|", p.0, "=", p.1);
    Associative(t, "|", p.0 + "=" + p.1);
  }

  lemma {:induction false} AppendToText(base: seq<Param>, pairs: seq<Param>)
    requires base != []
    ensures ParamText(base + pairs) == ParamText(base) + Appended(pairs)
  {
    if pairs == [] {
      assert base + pairs == base;
    } else {
      var init, last := pairs[..|pairs| - 1], pairs[|pairs| - 1];
      AppendToText(base, init);
      hide ParamText;
      assert pairs == init + [last];
      assert base + (init + [last]) == base + init + [last];
      AppendOneParam(base + init, last);
      Associative(ParamText(base), Appended(init), OneAppended(last));
    }
  }

  lemma {:induction false} AppendToFold(base: seq<Param>, pairs: seq<Param>)
    ensures Fold(base + pairs) == Override(Fold(base), pairs)
  {
    if pairs == [] {
      assert base + pairs == base;
    } else {
      AppendToFold(base, pairs[..|pairs| - 1]);
      assert (base + pairs)[..|base + pairs| - 1] == base + pairs[..|pairs| - 1];
    }
  }

  /** Text that can stand in a key, in a value and in the media. */
  ghost predicate PlainText(s: string) {
    ValidMedia(s) && '=' !in s && '|' !in s
  }

  ghost predicate PlainParams(pairs: seq<Param>) {
    forall i :: 0 <= i < |pairs| ==> PlainText(pairs[i].0) && PlainText(pairs[i].1)
  }

  lemma {:induction false} AppendedIsMedia(pairs: seq<Param>)
    requires PlainParams(pairs)
    ensures ValidMedia(Appended(pairs))
  {
    if pairs != [] {
      AppendedIsMedia(pairs[..|pairs| - 1]);
    }
  }

  lemma QuestionMarkMeansParams(p: Parts)
    requires ValidParts(p)
    ensures '?' in Text(p) <==> p.pairs != []
  {
    if p.pairs != [] {
      ScanParamsReads(p.spy, p.media, p.pairs, "");
      assert Text(p)[|Text(p)| - |ParamText(p.pairs)|] == '?';
    }
  }

  lemma AppendedToParams(p: Parts, pairs: seq<Param>)
    requires ValidParts(p) && PlainParams(pairs) && p.pairs != []
    ensures Scan(Text(p) + Appended(pairs)) == Some(p.(pairs := p.pairs + pairs))
  {
    AppendToText(p.pairs, pairs);
    Associative((if p.spy then SPY_PREFIX else "") + AERON_PREFIX + p.media, ParamText(p.pairs), Appended(pairs));
    assert ValidParams(p.pairs + pairs);
    ScanComplete(p.(pairs := p.pairs + pairs));
  }

  lemma AppendedToMedia(p: Parts, pairs: seq<Param>)
    requires ValidParts(p) && PlainParams(pairs) && p.pairs == []
    ensures Scan(Text(p) + Appended(pairs)) == Some(p.(media := p.media + Appended(pairs)))
  {
    var head := (if p.spy then SPY_PREFIX else "") + AERON_PREFIX;
    AppendedIsMedia(pairs);
    Associative(head, p.media, Appended(pairs));
    Associative(head + p.media, "", Appended(pairs));
    assert "" + Appended(pairs) == Appended(pairs);
    ScanComplete(p.(media := p.media + Appended(pairs)));
    assert head + p.media + Appended(pairs) + "" == head + p.media + Appended(pairs);
  }

  /** Appending parameters to an accepted channel overrides its parameters when it has a parameter
      list. When it has none, the text becomes part of the media instead. */
  lemma AppendingParams(channel: string, u: Uri, pairs: seq<Param>)
    requires ParseUri(channel) == Some(u) && PlainParams(pairs)
    ensures ParseUri(channel + Appended(pairs)) ==
            if '?' in channel then Some(u.(params := Override(u.params, pairs)))
            else Some(u.(media := u.media + Appended(pairs)))
  {
    ScanSound(channel);
    var p := Scan(channel).value;
    QuestionMarkMeansParams(p);
    if p.pairs != [] {
      AppendedToParams(p, pairs);
      AppendToFold(p.pairs, pairs);
    } else {
      AppendedToMedia(p, pairs);
    }
  }

  function ExtendedChannel(channel: string, r: Recording, termId: int, termOffset: int): string {
    channel + "|init-term-id=" + Decimal(r.initialTermId) + "|term-length=" + Decimal(r.termBufferLength)
    + "|term-id=" + Decimal(termId) + "|term-offset=" + Decimal(termOffset) + "|mtu=1408"
  }

  lemma ExtendedChannelAppends(channel: string, r: Recording, termId: int, termOffset: int)
    ensures ExtendedChannel(channel, r, termId, termOffset)
            == channel + Appended(ExtensionParams(r, termId, termOffset))
  {
    var ps := ExtensionParams(r, termId, termOffset);
    LeadTexts();
    AppendStep(channel, ps, 1, "|init-term-id=");
    AppendStep(channel, ps, 2, "|term-length=");
    AppendStep(channel, ps, 3, "|term-id=");
    AppendStep(channel, ps, 4, "|term-offset=");
    AppendStep(channel, ps, 5, "|mtu=");
    assert ps[..5] == ps && channel + Appended(ps[..0]) == channel;
    Associative(channel + Appended(ps[..4]), "|mtu=", "1408");
  }

  lemma LeadTexts()
    ensures "|init-term-id=" == "|" + "init-term-id" + "="
    ensures "|term-length=" == "|" + "term-length" + "="
    ensures "|term-id=" == "|" + "term-id" + "="
    ensures "|term-offset=" == "|" + "term-offset" + "="
    ensures "|mtu=" == "|" + "mtu" + "=" && "|mtu=" + "1408" == "|mtu=1408"
  {
  }

  lemma AppendStep(channel: string, ps: seq<Param>, n: nat, lead: string)
    requires 0 < n <= |ps| && lead == "|" + ps[n - 1].0 + "="
    ensures channel + Appended(ps[..n]) == channel + Appended(ps[..n - 1]) + lead + ps[n - 1].1
  {
    assert ps[..n][..n - 1] == ps[..n - 1];
    Associative(channel, Appended(ps[..n - 1]), OneAppended(ps[n - 1]));
    Associative(channel + Appended(ps[..n - 1]), lead, ps[n - 1].1);
  }

  lemma ExtensionParamsPlain(r: Recording, termId: int, termOffset: int)
    ensures PlainParams(ExtensionParams(r, termId, termOffset))
  {
    DecimalIsPlain(r.initialTermId);
    DecimalIsPlain(r.termBufferLength);
    DecimalIsPlain(termId);
    DecimalIsPlain(termOffset);
    ExtensionKeysPlain();
    var ps := ExtensionParams(r, termId, termOffset);
    hide Decimal;
    assert forall i :: 0 <= i < |ps| ==> PlainText(ps[i].0) && PlainText(ps[i].1);
  }

  lemma ExtensionKeysPlain()
    ensures PlainText("init-term-id") && PlainText("term-length") && PlainText("term-id")
    ensures PlainText("term-offset") && PlainText("mtu") && PlainText("1408")
  {
    assert "init-term-id" == "init-" + "term-id";
    TermKeysPlain();
    assert PlainText("init-") && PlainText("mtu") && PlainText("1408");
  }

  lemma TermKeysPlain()
    ensures PlainText("term-length") && PlainText("term-id") && PlainText("term-offset")
  {
    assert "term-length" == "term-" + "length";
    assert "term-offset" == "term-" + "offset";
    assert "term-id" == "term-" + "id";
    assert PlainText("term-") && PlainText("length") && PlainText("id") && PlainText("offset");
  }

  /** The position that the parameters of a URI place a publication at, if they are all there and it is one that
      a publication can have. */
  ghost function PositionIn(u: Uri): Option<int> {
    var ps := u.params;
    if {"init-term-id", "term-length", "term-id", "term-offset"} <= ps.Keys
       && IsDecimal(ps["init-term-id"]) && IsDecimal(ps["term-length"])
       && IsDecimal(ps["term-id"]) && IsDecimal(ps["term-offset"])
    then
      var position := PositionOf(DecimalValue(ps["term-id"]), DecimalValue(ps["term-offset"]),
                                 DecimalValue(ps["term-length"]), DecimalValue(ps["init-term-id"]));
      if position < 0 then None else Some(position)
    else None
  }

  function KeysOf(pairs: seq<Param>): set<string> {
    set p <- pairs :: p.0
  }

  lemma KeysOfSnoc(pairs: seq<Param>)
    requires pairs != []
    ensures KeysOf(pairs) == KeysOf(pairs[..|pairs| - 1]) + {pairs[|pairs| - 1].0}
    ensures forall i :: 0 <= i < |pairs| ==> pairs[i].0 in KeysOf(pairs)
  {
    assert pairs == pairs[..|pairs| - 1] + [pairs[|pairs| - 1]];
  }

  ghost predicate DistinctKeys(pairs: seq<Param>) {
    forall i, j :: 0 <= i < j < |pairs| ==> pairs[i].0 != pairs[j].0
  }

  /** Overriding with distinct keys gives each its value and leaves all others. */
  lemma {:induction false} OverrideIs(base: map<string, string>, pairs: seq<Param>)
    requires DistinctKeys(pairs)
    ensures Override(base, pairs).Keys == base.Keys + KeysOf(pairs)
    ensures forall i :: 0 <= i < |pairs| ==> Override(base, pairs)[pairs[i].0] == pairs[i].1
    ensures forall k :: k in base && k !in KeysOf(pairs) ==> Override(base, pairs)[k] == base[k]
  {
    if pairs != [] {
      var init, last := pairs[..|pairs| - 1], pairs[|pairs| - 1];
      OverrideIs(base, init);
      KeysOfSnoc(pairs);
      assert Override(base, pairs) == Override(base, init)[last.0 := last.1];
      hide *;
      forall i | 0 <= i < |init|
        ensures pairs[i] == init[i] && init[i].0 != last.0
      {
      }
    }
  }

  lemma ExtensionKeys(r: Recording, termId: int, termOffset: int)
    ensures DistinctKeys(ExtensionParams(r, termId, termOffset))
    ensures KeysOf(ExtensionParams(r, termId, termOffset))
            == {"init-term-id", "term-length", "term-id", "term-offset", "mtu"}
  {
    hide Decimal;
    var ps := ExtensionParams(r, termId, termOffset);
    KeysDiffer();
    assert ps == [ps[0], ps[1], ps[2], ps[3], ps[4]];
  }

  /** The five appended keys have their appended values; every other key is as it was. */
  lemma OverriddenParams(base: map<string, string>, r: Recording, termId: int, termOffset: int)
    ensures var ps := Override(base, ExtensionParams(r, termId, termOffset));
            var added := {"init-term-id", "term-length", "term-id", "term-offset", "mtu"};
            && ps.Keys == base.Keys + added
            && ps["init-term-id"] == Decimal(r.initialTermId) && ps["term-length"] == Decimal(r.termBufferLength)
            && ps["term-id"] == Decimal(termId) && ps["term-offset"] == Decimal(termOffset) && ps["mtu"] == "1408"
            && forall k :: k in base && k !in added ==> ps[k] == base[k]
  {
    var ps := ExtensionParams(r, termId, termOffset);
    ExtensionKeys(r, termId, termOffset);
    OverrideIs(base, ps);
    hide Override, Decimal;
    assert ps[0].1 == Decimal(r.initialTermId) && ps[1].1 == Decimal(r.termBufferLength);
  }

  lemma KeysDiffer()
    ensures |{"init-term-id", "term-length", "term-id", "term-offset", "mtu"}| == 5
    ensures "init-term-id" !in {"term-length", "term-id", "term-offset", "mtu"}
    ensures "term-length" !in {"term-id", "term-offset", "mtu"}
    ensures "term-id" !in {"term-offset", "mtu"} && "term-offset" != "mtu"
  {
    assert |"init-term-id"| == 12 && |"term-length"| == 11 && |"term-id"| == 7 && |"mtu"| == 3;
    assert |"term-offset"| == 11 && "term-length"[5] != "term-offset"[5];
  }

  /** The channel that extends recording r of an accepted channel. */
  function ExtensionOf(channel: string, r: Recording): string
    requires PositionBitsToShift(r.termBufferLength).Some?
  {
    var bits := PositionBitsToShift(r.termBufferLength).value;
    ExtendedChannel(channel, r, ComputeTermIdFromPosition(r.stopPosition, bits, r.initialTermId),
                    TermOffset(r.stopPosition, r.termBufferLength))
  }

  lemma ExtensionAppends(channel: string, r: Recording)
    requires PositionBitsToShift(r.termBufferLength).Some?
    ensures var bits := PositionBitsToShift(r.termBufferLength).value;
            ExtensionOf(channel, r)
            == channel + "|init-term-id=" + Decimal(r.initialTermId) + "|term-length=" + Decimal(r.termBufferLength)
               + "|term-id=" + Decimal(ComputeTermIdFromPosition(r.stopPosition, bits, r.initialTermId))
               + "|term-offset=" + Decimal(TermOffset(r.stopPosition, r.termBufferLength)) + "|mtu=1408"
  {
  }

  /** The text of the extended channel, and its numbers: so many whole terms and the offset make up the stop
      position, and the term id lies that many terms, in 32 bits, after the initial one. */
  lemma ExtensionText(channel: string, r: Recording) returns (terms: int, termId: int, termOffset: int)
    requires PositionBitsToShift(r.termBufferLength).Some? && IsInt32(r.initialTermId)
    ensures ExtensionOf(channel, r)
            == channel + "|init-term-id=" + Decimal(r.initialTermId) + "|term-length=" + Decimal(r.termBufferLength)
               + "|term-id=" + Decimal(termId) + "|term-offset=" + Decimal(termOffset) + "|mtu=1408"
    ensures r.stopPosition == terms * r.termBufferLength + termOffset && 0 <= termOffset < r.termBufferLength
    ensures -0x8000_0000 <= termId < 0x8000_0000 && (termId - r.initialTermId - terms) % 0x1_0000_0000 == 0
  {
    ExtensionAppends(channel, r);
    hide *;
    terms := r.stopPosition / r.termBufferLength;
    termId := ComputeTermIdFromPosition(
      r.stopPosition, PositionBitsToShift(r.termBufferLength).value, r.initialTermId);
    termOffset := TermOffset(r.stopPosition, r.termBufferLength);
    TermRoundTrip(r.stopPosition, r.termBufferLength, r.initialTermId);
  }

  /** End to end: parsing the extended channel overrides the five keys of the original URI and places the
      publication at the position where the recording stopped. It does so exactly when the channel has a
      parameter list and the position is expressible and not negative. */
  lemma ExtensionContinuesRecording(channel: string, u: Uri, r: Recording)
    requires ParseUri(channel) == Some(u)
    requires PositionBitsToShift(r.termBufferLength).Some? && IsInt32(r.initialTermId)
    ensures var bits := PositionBitsToShift(r.termBufferLength).value;
            var termId := ComputeTermIdFromPosition(r.stopPosition, bits, r.initialTermId);
            var termOffset := TermOffset(r.stopPosition, r.termBufferLength);
            '?' in channel ==>
              ParseUri(ExtensionOf(channel, r))
              == Some(u.(params := Override(u.params, ExtensionParams(r, termId, termOffset))))
    ensures ParseUri(ExtensionOf(channel, r)).Some?
    ensures PositionIn(ParseUri(ExtensionOf(channel, r)).value) == Some(r.stopPosition)
            <==> '?' in channel && 0 <= r.stopPosition && Expressible(r.stopPosition, r.termBufferLength)
  {
    var bits := PositionBitsToShift(r.termBufferLength).value;
    var termId := ComputeTermIdFromPosition(r.stopPosition, bits, r.initialTermId);
    var termOffset := TermOffset(r.stopPosition, r.termBufferLength);
    var pairs := ExtensionParams(r, termId, termOffset);
    ExtendedChannelAppends(channel, r, termId, termOffset);
    ExtensionParamsPlain(r, termId, termOffset);
    AppendingParams(channel, u, pairs);
    if '?' in channel {
      ReadPosition(u.(params := Override(u.params, pairs)), u.params, r, termId, termOffset);
      TermRoundTrip(r.stopPosition, r.termBufferLength, r.initialTermId);
    } else {
      ScanSound(channel);
      QuestionMarkMeansParams(Scan(channel).value);
      assert "term-id" !in u.params;
    }
  }

  lemma IpcHasNoParams()
    ensures ParseUri("aeron:ipc") == Some(Uri("", "ipc", map[])) && '?' !in "aeron:ipc"
  {
    var p := Parts(false, "ipc", []);
    assert Text(p) == "aeron:ipc";
    ScanComplete(p);
    assert forall c <- "aeron:ipc" :: c != '?';
  }

  /** The default channel of the archive's local control, which has no parameter list, is accepted; extended
      with any recording it is still accepted, and places the publication nowhere. */
  lemma ChannelWithoutParamsNotExtended(r: Recording)
    requires PositionBitsToShift(r.termBufferLength).Some? && IsInt32(r.initialTermId)
    ensures ParseUri("aeron:ipc") == Some(Uri("", "ipc", map[]))
    ensures var extended := ParseUri(ExtensionOf("aeron:ipc", r));
            extended.Some? && extended.value.params == map[] && PositionIn(extended.value) == None
  {
    IpcHasNoParams();
    var bits := PositionBitsToShift(r.termBufferLength).value;
    var termId := ComputeTermIdFromPosition(r.stopPosition, bits, r.initialTermId);
    var termOffset := TermOffset(r.stopPosition, r.termBufferLength);
    ExtendedChannelAppends("aeron:ipc", r, termId, termOffset);
    ExtensionParamsPlain(r, termId, termOffset);
    hide ParseUri;
    AppendingParams("aeron:ipc", Uri("", "ipc", map[]), ExtensionParams(r, termId, termOffset));
  }

  /** A stop position of -1: the channel names the last byte of the term before the first, and so no position. */
  lemma NegativeStopNotExtended(channel: string, u: Uri, r: Recording)
    requires ParseUri(channel) == Some(u) && '?' in channel && r.stopPosition == -1
    requires PositionBitsToShift(r.termBufferLength).Some? && IsInt32(r.initialTermId)
    ensures var extended := ParseUri(ExtensionOf(channel, r));
            && extended.Some? && PositionIn(extended.value) == None
            && {"term-id", "term-offset"} <= extended.value.params.Keys
            && extended.value.params["term-id"] == Decimal(ToInt32(r.initialTermId - 1))
            && extended.value.params["term-offset"] == Decimal(r.termBufferLength - 1)
  {
    var bits := PositionBitsToShift(r.termBufferLength).value;
    var termId := ComputeTermIdFromPosition(-1, bits, r.initialTermId);
    var termOffset := TermOffset(-1, r.termBufferLength);
    hide *;
    MinusOneInTerms(r);
    ExtensionContinuesRecording(channel, u, r);
    NoPosition(ParseUri(ExtensionOf(channel, r)).value, u.params, r, termId, termOffset);
  }

  lemma NoPosition(u: Uri, base: map<string, string>, r: Recording, termId: int, termOffset: int)
    requires u.params == Override(base, ExtensionParams(r, termId, termOffset))
    requires PositionOf(termId, termOffset, r.termBufferLength, r.initialTermId) < 0
    ensures PositionIn(u) == None && {"term-id", "term-offset"} <= u.params.Keys
    ensures u.params["term-id"] == Decimal(termId) && u.params["term-offset"] == Decimal(termOffset)
  {
    hide *;
    OverriddenParams(base, r, termId, termOffset);
    ReadPosition(u, base, r, termId, termOffset);
  }

  lemma MinusOneInTerms(r: Recording)
    requires PositionBitsToShift(r.termBufferLength).Some? && IsInt32(r.initialTermId)
    ensures var bits := PositionBitsToShift(r.termBufferLength).value;
            var termId := ComputeTermIdFromPosition(-1, bits, r.initialTermId);
            && termId == ToInt32(r.initialTermId - 1)
            && TermOffset(-1, r.termBufferLength) == r.termBufferLength - 1
            && PositionOf(termId, r.termBufferLength - 1, r.termBufferLength, r.initialTermId) == -1
  {
    var bits := PositionBitsToShift(r.termBufferLength).value;
    BitsOfTermLength(r.termBufferLength, bits);
    TermRoundTrip(-1, r.termBufferLength, r.initialTermId);
    DivUnique(-1, r.termBufferLength, -1, r.termBufferLength - 1);
  }

  lemma ReadPosition(u: Uri, base: map<string, string>, r: Recording, termId: int, termOffset: int)
    requires u.params == Override(base, ExtensionParams(r, termId, termOffset))
    ensures var position := PositionOf(termId, termOffset, r.termBufferLength, r.initialTermId);
            PositionIn(u) == if position < 0 then None else Some(position)
  {
    OverriddenParams(base, r, termId, termOffset);
    DecimalReadBack(r.initialTermId);
    DecimalReadBack(r.termBufferLength);
    DecimalReadBack(termId);
    DecimalReadBack(termOffset);
  }

  // ----- The sample program -----

  /** Lists the recordings of a channel and keeps the last descriptor delivered. */
  method GetLatestRecordingData(archive: AeronArchive, build: int -> Request)
    returns (r: CallResult, latest: Recording, ghost id: int)
    requires archive.Connected() && !archive.locked
    modifies archive`locked, archive.subscription, archive.clock, archive.ids, archive.proxy, archive.proxy.publication,
             archive.descriptorPoller
    ensures archive.Connected() && !archive.locked
    ensures archive.proxy.publication.accepted
            == old(archive.proxy.publication.accepted) + if r.Waited? then [build(id)] else []
    ensures r.Waited? ==>
              var q := AwaitDescriptors(archive.controlSessionId, id, 100);
              var from, end := old(archive.subscription.cursor), archive.subscription.cursor;
              && Stopped(q, archive.subscription.stream, from, end, r.outcome)
              && var seen := Delivered(q, archive.subscription.stream, from, end);
                 if seen == [] then latest.recordingId == -1 else latest == seen[|seen| - 1]
  {
    var consumer := new RecordingConsumer();
    r, id := archive.CallAndPollForDescriptors(build, 100, consumer);
    latest := consumer.latest;
  }

  datatype Rebuilt = CallFailed | NewRecording | InvalidTermBufferLength | Extend(channel: string)

  /** Finds the latest recording and rebuilds the channel to continue it, piece by piece. */
  method RebuildChannel(archive: AeronArchive, channel: string, build: int -> Request)
    returns (r: Rebuilt, ghost call: CallResult, ghost id: int)
    requires archive.Connected() && !archive.locked
    modifies archive`locked, archive.subscription, archive.clock, archive.ids, archive.proxy, archive.proxy.publication,
             archive.descriptorPoller
    ensures archive.Connected() && !archive.locked
    ensures r.CallFailed? <==> !(call.Waited? && call.outcome.Returned?)
    ensures !r.CallFailed? ==>
              var q := AwaitDescriptors(archive.controlSessionId, id, 100);
              var from, end := old(archive.subscription.cursor), archive.subscription.cursor;
              && DecidedAt(q, archive.subscription.stream, from, end, call.outcome)
              && var seen := Delivered(q, archive.subscription.stream, from, end);
                 if seen == [] || seen[|seen| - 1].recordingId == -1 then r == NewRecording
                 else
                   var last := seen[|seen| - 1];
                   if PositionBitsToShift(last.termBufferLength) == None then r == InvalidTermBufferLength
                   else
                     && r.Extend?
                     && r.channel == ExtensionOf(channel, last)
                     && (ParseUri(channel).Some? && IsInt32(last.initialTermId) ==>
                          (ParseUri(r.channel).Some?
                           && PositionIn(ParseUri(r.channel).value) == Some(last.stopPosition)
                           <==> '?' in channel && 0 <= last.stopPosition
                                && Expressible(last.stopPosition, last.termBufferLength)))
  {
    var result, recording, callId := GetLatestRecordingData(archive, build);
    call, id := result, callId;
    if !result.Waited? || !result.outcome.Returned? {
      return CallFailed, call, id;
    }
    if recording.recordingId == -1 {
      return NewRecording, call, id;
    }
    var bits := PositionBitsToShift(recording.termBufferLength);
    if bits == None {
      return InvalidTermBufferLength, call, id;
    }
    var termId := ComputeTermIdFromPosition(recording.stopPosition, bits.value, recording.initialTermId);
    BitsOfTermLength(recording.termBufferLength, bits.value);
    PositivePow2(bits.value);
    var termOffset := TermOffset(recording.stopPosition, recording.termBufferLength);
    var ss := channel;
    ss := ss + "|init-term-id=" + Decimal(recording.initialTermId);
    ss := ss + "|term-length=" + Decimal(recording.termBufferLength);
    ss := ss + "|term-id=" + Decimal(termId);
    ss := ss + "|term-offset=" + Decimal(termOffset);
    ss := ss + "|mtu=1408";
    if ParseUri(channel).Some? && IsInt32(recording.initialTermId) {
      ExtensionContinuesRecording(channel, ParseUri(channel).value, recording);
    }
    r := Extend(ss);
  }
}
