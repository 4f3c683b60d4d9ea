/** addSessionId, the replay channel, and the control request channel of a context: clients of the URI
parser and printer that set parameters of a channel. */
module SessionChannels {
  import opened Messages
  import opened ChannelUris
  import opened Decimals

  const TERM_LENGTH_PARAM_NAME := "term-length"
  const MTU_LENGTH_PARAM_NAME := "mtu"
  const SPARSE_PARAM_NAME := "sparse"

  ghost function WithParam(u: Uri, key: string, value: string): Uri {
    u.(params := u.params[key := value])
  }

  /** out is a text that toString may return for u. */
  ghost predicate PrintedAs(u: Uri, out: string) {
    exists order :: IsEnumeration(order, u.params) && out == Print(u.prefix, u.media, order)
  }

  lemma PrintedReadsBack(u: Uri, out: string)
    requires PrintedAs(u, out)
    ensures ParseUri(out) == Some(u) <==> WellFormed(u)
  {
    var order :| IsEnumeration(order, u.params) && out == Print(u.prefix, u.media, order);
    RoundTrip(u, order);
  }

  /** out is a text that addSessionId may return for channel and sessionId. */
  ghost predicate SessionChannel(channel: string, sessionId: int, out: string) {
    && ParseUri(channel).Some?
    && PrintedAs(WithParam(ParseUri(channel).value, SESSION_ID_PARAM_NAME, Decimal(sessionId)), out)
  }

  method AddSessionId(channel: string, sessionId: int) returns (r: Option<string>)
    ensures r == None <==> ParseUri(channel) == None
    ensures r.Some? ==> SessionChannel(channel, sessionId, r.value)
    ensures r.Some? ==>
              var u := ParseUri(channel).value;
              ParseUri(r.value) == Some(u.(params := u.params["session-id" := Decimal(sessionId)]))
  {
    var parsed := ChannelUri.Parse(channel);
    if parsed.IllegalArgument? {
      return None;
    }
    parsed.uri.Put(SESSION_ID_PARAM_NAME, Decimal(sessionId));
    var s, order := parsed.uri.ToString();
    assert parsed.uri.Value() == WithParam(ParseUri(channel).value, SESSION_ID_PARAM_NAME, Decimal(sessionId));
    SessionIdSetsItsKey(channel, sessionId, s);
    r := Some(s);
  }

  /** The channel of a replay: it carries the low 32 bits of the replay session id. */
  method ReplayChannel(replayChannel: string, replaySessionId: int) returns (r: Option<string>)
    ensures r == None <==> ParseUri(replayChannel) == None
    ensures r.Some? ==> ParseUri(r.value) == Some(
              WithParam(ParseUri(replayChannel).value, SESSION_ID_PARAM_NAME, Decimal(ToInt32(replaySessionId))))
    ensures r.Some? ==>
              exists id :: -0x8000_0000 <= id < 0x8000_0000 && (id - replaySessionId) % 0x1_0000_0000 == 0
                && var u := ParseUri(replayChannel).value;
                   ParseUri(r.value) == Some(u.(params := u.params["session-id" := Decimal(id)]))
  {
    r := AddSessionId(replayChannel, ToInt32(replaySessionId));
    ToInt32Is(replaySessionId);
  }

  /** Setting parameters with plain values keeps a parsed URI printable. */
  lemma SettingKeepsWellFormed(u: Uri, key: string, value: string)
    requires WellFormed(u) && '=' !in key && '|' !in value
    ensures WellFormed(WithParam(u, key, value))
  {
  }

  /** After re-parsing, only the session id has changed. */
  lemma SessionIdSetsItsKey(channel: string, sessionId: int, out: string)
    requires SessionChannel(channel, sessionId, out)
    ensures ParseUri(out) == Some(WithParam(ParseUri(channel).value, SESSION_ID_PARAM_NAME, Decimal(sessionId)))
    ensures var u := ParseUri(channel).value;
            ParseUri(out) == Some(u.(params := u.params["session-id" := Decimal(sessionId)]))
  {
    var u := WithParam(ParseUri(channel).value, SESSION_ID_PARAM_NAME, Decimal(sessionId));
    ParsedIsWellFormed(channel);
    DecimalIsPlain(sessionId);
    SettingKeepsWellFormed(ParseUri(channel).value, SESSION_ID_PARAM_NAME, Decimal(sessionId));
    PrintedReadsBack(u, out);
  }

  /** Setting the session id twice means the same as setting the last one. */
  lemma LastSessionIdWins(channel: string, a: int, b: int, first: string, both: string, direct: string)
    requires SessionChannel(channel, a, first) && SessionChannel(first, b, both) && SessionChannel(channel, b, direct)
    ensures ParseUri(both) == ParseUri(direct)
  {
    hide ParseUri, Decimal, IsEnumeration;
    SessionIdSetsItsKey(channel, a, first);
    SessionIdSetsItsKey(first, b, both);
    SessionIdSetsItsKey(channel, b, direct);
    var params := ParseUri(channel).value.params;
    assert params[SESSION_ID_PARAM_NAME := Decimal(a)][SESSION_ID_PARAM_NAME := Decimal(b)]
           == params[SESSION_ID_PARAM_NAME := Decimal(b)];
  }

  /** Sessions are told apart: different ids never give the same channel, from whatever channels they start. */
  lemma SessionChannelsDistinct(c: string, d: string, a: int, b: int, out: string)
    requires SessionChannel(c, a, out) && SessionChannel(d, b, out)
    ensures a == b
  {
    SessionIdSetsItsKey(c, a, out);
    SessionIdSetsItsKey(d, b, out);
    ReadSessionId(ParseUri(c).value, a);
    ReadSessionId(ParseUri(d).value, b);
    DecimalInjective(a, b);
  }

  /** Replay sessions get the same channel exactly when their ids agree in the low 32 bits. */
  lemma ReplaySessionsDistinct(channel: string, a: int, b: int, outA: string, outB: string)
    requires SessionChannel(channel, ToInt32(a), outA) && SessionChannel(channel, ToInt32(b), outB)
    ensures ParseUri(outA) == ParseUri(outB) <==> a % 0x1_0000_0000 == b % 0x1_0000_0000
  {
    SessionIdSetsItsKey(channel, ToInt32(a), outA);
    SessionIdSetsItsKey(channel, ToInt32(b), outB);
    ToInt32Congruent(a, b);
    if ParseUri(outA) == ParseUri(outB) {
      ReadSessionId(ParseUri(channel).value, ToInt32(a));
      ReadSessionId(ParseUri(channel).value, ToInt32(b));
      DecimalInjective(ToInt32(a), ToInt32(b));
    }
  }

  lemma ReadSessionId(u: Uri, sessionId: int)
    ensures var params := WithParam(u, SESSION_ID_PARAM_NAME, Decimal(sessionId)).params;
            SESSION_ID_PARAM_NAME in params && params[SESSION_ID_PARAM_NAME] == Decimal(sessionId)
  {
  }

  /** The settings of a control request channel, on top of the URI it was given. */
  ghost function WithControlParams(u: Uri, termLength: int, mtu: int, sparse: bool): Uri {
    WithParam(WithParam(WithParam(u,
      TERM_LENGTH_PARAM_NAME, Decimal(termLength)),
      MTU_LENGTH_PARAM_NAME, Decimal(mtu)),
      SPARSE_PARAM_NAME, Decimal(if sparse then 1 else 0))
  }

  class Context {
    var controlTermBufferLength: int
    var controlMtuLength: int
    var controlTermBufferSparse: bool
    var controlRequestChannel: string

    constructor (controlTermBufferLength: int, controlMtuLength: int, controlTermBufferSparse: bool) {
      this.controlTermBufferLength, this.controlMtuLength := controlTermBufferLength, controlMtuLength;
      this.controlTermBufferSparse, controlRequestChannel := controlTermBufferSparse, "";
    }

    /** Stores the channel with the three settings of the context; a rejected channel changes nothing. */
    method SetControlRequestChannel(value: string) returns (ok: bool)
      modifies this`controlRequestChannel
      ensures ok <==> ParseUri(value).Some?
      ensures if ok
              then ParseUri(controlRequestChannel) == Some(WithControlParams(
                     ParseUri(value).value, controlTermBufferLength, controlMtuLength, controlTermBufferSparse))
              else controlRequestChannel == old(controlRequestChannel)
      ensures ok ==>
                var u := ParseUri(value).value;
                ParseUri(controlRequestChannel) == Some(u.(params := u.params[
                  "term-length" := Decimal(controlTermBufferLength)][
                  "mtu" := Decimal(controlMtuLength)][
                  "sparse" := if controlTermBufferSparse then "1" else "0"]))
    {
      var parsed := ChannelUri.Parse(value);
      if parsed.IllegalArgument? {
        return false;
      }
      var uri := parsed.uri;
      ghost var u0 := uri.Value();
      var termLength, mtu := Decimal(controlTermBufferLength), Decimal(controlMtuLength);
      var sparse := Decimal(if controlTermBufferSparse then 1 else 0);
      uri.Put(TERM_LENGTH_PARAM_NAME, termLength);
      uri.Put(MTU_LENGTH_PARAM_NAME, mtu);
      uri.Put(SPARSE_PARAM_NAME, sparse);
      ControlParamsWellFormed(value, u0, controlTermBufferLength, controlMtuLength, controlTermBufferSparse);
      var s, order := uri.ToString();
      controlRequestChannel := s;
      ok := true;
    }
  }

  lemma ControlParamsWellFormed(value: string, u: Uri, termLength: int, mtu: int, sparse: bool)
    requires ParseUri(value) == Some(u)
    ensures WellFormed(WithControlParams(u, termLength, mtu, sparse))
  {
    ParsedIsWellFormed(value);
    DecimalIsPlain(termLength);
    DecimalIsPlain(mtu);
    DecimalIsPlain(if sparse then 1 else 0);
    var u1 := WithParam(u, TERM_LENGTH_PARAM_NAME, Decimal(termLength));
    SettingKeepsWellFormed(u, TERM_LENGTH_PARAM_NAME, Decimal(termLength));
    SettingKeepsWellFormed(u1, MTU_LENGTH_PARAM_NAME, Decimal(mtu));
  }

  /** after has this one key set to the value, and is otherwise before. */
  ghost predicate OnlySets(before: map<string, string>, after: map<string, string>, key: string, value: string) {
    && after.Keys == before.Keys + {key} && after[key] == value
    && forall k :: k in before && k != key ==> after[k] == before[k]
  }

  lemma ParamSetsOnlyItsKey(u: Uri, key: string, value: string)
    ensures OnlySets(u.params, WithParam(u, key, value).params, key, value)
  {
  }

  lemma ControlKeysDiffer()
    ensures TERM_LENGTH_PARAM_NAME != MTU_LENGTH_PARAM_NAME && TERM_LENGTH_PARAM_NAME != SPARSE_PARAM_NAME
    ensures MTU_LENGTH_PARAM_NAME != SPARSE_PARAM_NAME
  {
    assert TERM_LENGTH_PARAM_NAME[0] == 't' && MTU_LENGTH_PARAM_NAME[0] == 'm' && SPARSE_PARAM_NAME[0] == 's';
  }

  /** The settings change their own keys and nothing else, and setting them again changes nothing. */
  lemma ControlParamsOnlyOwnKeys(u: Uri, termLength: int, mtu: int, sparse: bool)
    ensures var w := WithControlParams(u, termLength, mtu, sparse);
            && w.prefix == u.prefix && w.media == u.media
            && w.params.Keys == u.params.Keys + {TERM_LENGTH_PARAM_NAME, MTU_LENGTH_PARAM_NAME, SPARSE_PARAM_NAME}
            && w.params[TERM_LENGTH_PARAM_NAME] == Decimal(termLength)
            && w.params[MTU_LENGTH_PARAM_NAME] == Decimal(mtu)
            && w.params[SPARSE_PARAM_NAME] == Decimal(if sparse then 1 else 0)
            && (forall k :: k in u.params && k !in {TERM_LENGTH_PARAM_NAME, MTU_LENGTH_PARAM_NAME, SPARSE_PARAM_NAME}
                            ==> w.params[k] == u.params[k])
            && WithControlParams(w, termLength, mtu, sparse) == w
  {
    hide Decimal;
    ControlKeysDiffer();
    var w := WithControlParams(u, termLength, mtu, sparse);
    var u1 := WithParam(u, TERM_LENGTH_PARAM_NAME, Decimal(termLength));
    var u2 := WithParam(u1, MTU_LENGTH_PARAM_NAME, Decimal(mtu));
    ParamSetsOnlyItsKey(u, TERM_LENGTH_PARAM_NAME, Decimal(termLength));
    ParamSetsOnlyItsKey(u1, MTU_LENGTH_PARAM_NAME, Decimal(mtu));
    ParamSetsOnlyItsKey(u2, SPARSE_PARAM_NAME, Decimal(if sparse then 1 else 0));
    SettingAgain(w, TERM_LENGTH_PARAM_NAME, Decimal(termLength));
    SettingAgain(w, MTU_LENGTH_PARAM_NAME, Decimal(mtu));
    SettingAgain(w, SPARSE_PARAM_NAME, Decimal(if sparse then 1 else 0));
  }

  lemma SettingAgain(u: Uri, key: string, value: string)
    requires key in u.params && u.params[key] == value
    ensures WithParam(u, key, value) == u
  {
    assert u.params[key := value] == u.params;
  }
}
