/** Channel URIs: the grammar of their text, the parser, and the printer.

    [aeron-spy:]aeron:media[?key=value(|key=value)*]

A key may contain anything but '=', so it may contain '|'; a value may contain anything but '|', so it
may contain '='. */
module ChannelUris {
  import opened Messages

  const SPY_QUALIFIER := "aeron-spy"
  const SPY_PREFIX := "aeron-spy:"
  const AERON_PREFIX := "aeron:"
  const SESSION_ID_PARAM_NAME := "session-id"

  type Param = (string, string)

  datatype Uri = Uri(prefix: string, media: string, params: map<string, string>)

  lemma Associative(a: string, b: string, c: string)
    ensures a + (b + c) == a + b + c
  {
  }

  lemma Regroup(t: string, a: string, b: string, c: string)
    ensures t + a + b + c == t + (a + b + c)
  {
    Associative(t, a, b);
    Associative(t, a + b, c);
  }

  // ----- The grammar -----

  datatype Parts = Parts(spy: bool, media: string, pairs: seq<Param>)

  ghost predicate ValidMedia(media: string) {
    '?' !in media && ':' !in media
  }

  ghost predicate ValidParams(pairs: seq<Param>) {
    forall i :: 0 <= i < |pairs| ==> '=' !in pairs[i].0 && '|' !in pairs[i].1
  }

  ghost predicate ValidParts(p: Parts) {
    ValidMedia(p.media) && ValidParams(p.pairs)
  }

  /** The text of a parameter list, with its question mark. */
  function ParamText(pairs: seq<Param>): string {
    if pairs == [] then ""
    else
      var (key, value) := pairs[|pairs| - 1];
      (if |pairs| == 1 then "?" else ParamText(pairs[..|pairs| - 1]) + "|") + key + "=" + value
  }

  /** The text before the next key, which follows these parameters. */
  function Lead(pairs: seq<Param>): string {
    if pairs == [] then "?" else ParamText(pairs) + "|"
  }

  lemma ParamTextSnoc(pairs: seq<Param>, key: string, value: string)
    ensures ParamText(pairs + [(key, value)]) == Lead(pairs) + key + "=" + value
  {
    assert (pairs + [(key, value)])[..|pairs|] == pairs;
  }

  function Text(p: Parts): string {
    (if p.spy then SPY_PREFIX else "") + AERON_PREFIX + p.media + ParamText(p.pairs)
  }

  /** The map of a parameter list: left to right, the last value of a key wins. */
  function Fold(pairs: seq<Param>): map<string, string> {
    if pairs == [] then map[]
    else
      var (key, value) := pairs[|pairs| - 1];
      Fold(pairs[..|pairs| - 1])[key := value]
  }

  function UriOf(p: Parts): Uri {
    Uri(if p.spy then SPY_QUALIFIER else "", p.media, Fold(p.pairs))
  }

  // ----- The parser's states, as functions of the rest of the input -----

  datatype State = Media | ParamsKey | ParamsValue

  function ScanMedia(spy: bool, buffer: string, rest: string): Option<Parts>
    decreases |rest|
  {
    if rest == "" then Some(Parts(spy, buffer, []))
    else if rest[0] == '?' then ScanKey(spy, buffer, [], "", rest[1..])
    else if rest[0] == ':' then None
    else ScanMedia(spy, buffer + [rest[0]], rest[1..])
  }

  function ScanKey(spy: bool, media: string, pairs: seq<Param>, buffer: string, rest: string): Option<Parts>
    decreases |rest|
  {
    if rest == "" then None
    else if rest[0] == '=' then ScanValue(spy, media, pairs, buffer, "", rest[1..])
    else ScanKey(spy, media, pairs, buffer + [rest[0]], rest[1..])
  }

  function ScanValue(spy: bool, media: string, pairs: seq<Param>, key: string, buffer: string, rest: string)
    : Option<Parts>
    decreases |rest|
  {
    if rest == "" then Some(Parts(spy, media, pairs + [(key, buffer)]))
    else if rest[0] == '|' then ScanKey(spy, media, pairs + [(key, buffer)], "", rest[1..])
    else ScanValue(spy, media, pairs, key, buffer + [rest[0]], rest[1..])
  }

  /** The scan from any state of the parser's loop. */
  function ScanFrom(state: State, spy: bool, media: string, pairs: seq<Param>, key: string, buffer: string,
                    rest: string): Option<Parts>
  {
    match state
    case Media => ScanMedia(spy, buffer, rest)
    case ParamsKey => ScanKey(spy, media, pairs, buffer, rest)
    case ParamsValue => ScanValue(spy, media, pairs, key, buffer, rest)
  }

  function Scan(str: string): Option<Parts> {
    var spy := SPY_PREFIX <= str;
    var body := if spy then str[|SPY_PREFIX|..] else str;
    if AERON_PREFIX <= body then ScanMedia(spy, "", body[|AERON_PREFIX|..]) else None
  }

  // ----- The scan accepts exactly the grammar -----

  lemma {:induction false} ScanMediaSound(spy: bool, buffer: string, rest: string)
    requires ValidMedia(buffer)
    ensures match ScanMedia(spy, buffer, rest)
            case None => true
            case Some(p) => p.spy == spy && ValidParts(p) && buffer + rest == p.media + ParamText(p.pairs)
    decreases |rest|
  {
    if rest != "" {
      var c := rest[0];
      if c == '?' {
        ScanKeySound(spy, buffer, [], "", rest[1..]);
        assert buffer + rest == buffer + ("?" + "" + rest[1..]);
      } else if c != ':' {
        ScanMediaSound(spy, buffer + [c], rest[1..]);
        assert buffer + [c] + rest[1..] == buffer + rest;
      }
    }
  }

  lemma {:induction false} ScanKeySound(spy: bool, media: string, pairs: seq<Param>, buffer: string, rest: string)
    requires ValidMedia(media) && ValidParams(pairs) && '=' !in buffer
    ensures match ScanKey(spy, media, pairs, buffer, rest)
            case None => true
            case Some(p) =>
              && p.spy == spy && p.media == media && ValidParts(p)
              && Lead(pairs) + buffer + rest == ParamText(p.pairs)
    decreases |rest|
  {
    if rest != "" {
      var c := rest[0];
      if c == '=' {
        ScanValueSound(spy, media, pairs, buffer, "", rest[1..]);
        assert Lead(pairs) + buffer + "=" + "" + rest[1..] == Lead(pairs) + buffer + rest;
      } else {
        ScanKeySound(spy, media, pairs, buffer + [c], rest[1..]);
        assert Lead(pairs) + (buffer + [c]) + rest[1..] == Lead(pairs) + buffer + rest;
      }
    }
  }

  lemma {:induction false} ScanValueSound(spy: bool, media: string, pairs: seq<Param>,
                                          key: string, buffer: string, rest: string)
    requires ValidMedia(media) && ValidParams(pairs) && '=' !in key && '|' !in buffer
    ensures match ScanValue(spy, media, pairs, key, buffer, rest)
            case None => true
            case Some(p) =>
              && p.spy == spy && p.media == media && ValidParts(p)
              && Lead(pairs) + key + "=" + buffer + rest == ParamText(p.pairs)
    decreases |rest|
  {
    var pairs' := pairs + [(key, buffer)];
    ParamTextSnoc(pairs, key, buffer);
    if rest == "" {
      assert ParamText(pairs') + rest == ParamText(pairs');
    } else {
      var c := rest[0];
      if c == '|' {
        ScanKeySound(spy, media, pairs', "", rest[1..]);
        assert Lead(pairs') + "" + rest[1..] == ParamText(pairs') + rest;
      } else {
        ScanValueSound(spy, media, pairs, key, buffer + [c], rest[1..]);
        assert Lead(pairs) + key + "=" + (buffer + [c]) + rest[1..] == ParamText(pairs') + rest;
      }
    }
  }

  /** The media part is read up to the parameters. */
  lemma {:induction false} ScanMediaReads(spy: bool, buffer: string, media: string, rest: string)
    requires ValidMedia(media) && (rest == "" || rest[0] == '?')
    ensures ScanMedia(spy, buffer, media + rest) ==
            if rest == "" then Some(Parts(spy, buffer + media, [])) else ScanKey(spy, buffer + media, [], "", rest[1..])
    decreases |media|
  {
    if media == "" {
      assert media + rest == rest && buffer + media == buffer;
    } else {
      ScanMediaReads(spy, buffer + [media[0]], media[1..], rest);
      assert (media + rest)[1..] == media[1..] + rest;
      assert buffer + [media[0]] + media[1..] == buffer + media;
    }
  }

  lemma {:induction false} ScanKeyReads(spy: bool, media: string, pairs: seq<Param>,
                                        buffer: string, key: string, rest: string)
    requires '=' !in key && rest != "" && rest[0] == '='
    ensures ScanKey(spy, media, pairs, buffer, key + rest) == ScanValue(spy, media, pairs, buffer + key, "", rest[1..])
    decreases |key|
  {
    if key == "" {
      assert key + rest == rest && buffer + key == buffer;
    } else {
      ScanKeyReads(spy, media, pairs, buffer + [key[0]], key[1..], rest);
      assert (key + rest)[1..] == key[1..] + rest;
      assert buffer + [key[0]] + key[1..] == buffer + key;
    }
  }

  lemma {:induction false} ScanValueReads(spy: bool, media: string, pairs: seq<Param>,
                                          key: string, buffer: string, value: string, rest: string)
    requires '|' !in value && (rest == "" || rest[0] == '|')
    ensures var pairs' := pairs + [(key, buffer + value)];
            ScanValue(spy, media, pairs, key, buffer, value + rest) ==
            if rest == "" then Some(Parts(spy, media, pairs')) else ScanKey(spy, media, pairs', "", rest[1..])
    decreases |value|
  {
    if value == "" {
      assert value + rest == rest && buffer + value == buffer;
    } else {
      ScanValueReads(spy, media, pairs, key, buffer + [value[0]], value[1..], rest);
      assert (value + rest)[1..] == value[1..] + rest;
      assert buffer + [value[0]] + value[1..] == buffer + value;
    }
  }

  /** One parameter is read from its key on. */
  lemma ScanParamReads(spy: bool, media: string, pairs: seq<Param>, key: string, value: string, rest: string)
    requires '=' !in key && '|' !in value && (rest == "" || rest[0] == '|')
    ensures var pairs' := pairs + [(key, value)];
            ScanKey(spy, media, pairs, "", key + "=" + value + rest) ==
            if rest == "" then Some(Parts(spy, media, pairs')) else ScanKey(spy, media, pairs', "", rest[1..])
  {
    var tail := "=" + (value + rest);
    assert key + "=" + value + rest == key + tail;
    ScanKeyReads(spy, media, pairs, "", key, tail);
    assert tail[1..] == value + rest && "" + key == key;
    ScanValueReads(spy, media, pairs, key, "", value, rest);
    assert "" + value == value;
  }

  /** A non-empty parameter list is read up to what follows it. */
  lemma {:induction false} ScanParamsReads(spy: bool, media: string, pairs: seq<Param>, rest: string)
    requires pairs != [] && ValidParams(pairs) && (rest == "" || rest[0] == '|')
    ensures ParamText(pairs) != "" && ParamText(pairs)[0] == '?'
    ensures ScanKey(spy, media, [], "", ParamText(pairs)[1..] + rest) ==
            if rest == "" then Some(Parts(spy, media, pairs)) else ScanKey(spy, media, pairs, "", rest[1..])
    decreases |pairs|
  {
    var init, last := pairs[..|pairs| - 1], pairs[|pairs| - 1];
    assert pairs == init + [(last.0, last.1)];
    ParamTextSnoc(init, last.0, last.1);
    var param := last.0 + "=" + last.1 + rest;
    ScanParamReads(spy, media, init, last.0, last.1, rest);
    if init == [] {
      SplitLead("?", last.0, last.1, rest);
      assert "?"[1..] + param == param;
    } else {
      ScanParamsReads(spy, media, init, "|" + param);
      assert ("|" + param)[1..] == param;
      SplitLead(ParamText(init) + "|", last.0, last.1, rest);
      assert (ParamText(init) + "|")[1..] == ParamText(init)[1..] + "|";
      Associative(ParamText(init)[1..], "|", param);
    }
  }

  /** The text of a parameter behind a lead, without the lead's first character. */
  lemma SplitLead(lead: string, key: string, value: string, rest: string)
    requires lead != ""
    ensures (lead + key + "=" + value)[0] == lead[0]
    ensures (lead + key + "=" + value)[1..] + rest == lead[1..] + (key + "=" + value + rest)
  {
    var param := key + "=" + value;
    Regroup(lead, key, "=", value);
    assert (lead + param)[1..] == lead[1..] + param;
    Associative(lead[1..], param, rest);
  }

  lemma ScanPrefix(spy: bool, rest: string)
    ensures Scan((if spy then SPY_PREFIX else "") + AERON_PREFIX + rest) == ScanMedia(spy, "", rest)
  {
    var body := AERON_PREFIX + rest;
    var str := (if spy then SPY_PREFIX else "") + AERON_PREFIX + rest;
    if spy {
      assert str == SPY_PREFIX + body;
      assert str[|SPY_PREFIX|..] == body;
    } else {
      assert str == body;
      assert body[5] == ':' && SPY_PREFIX[5] == '-';
    }
    assert body[|AERON_PREFIX|..] == rest;
  }

  /** Every text of the grammar is accepted, with the parts it was made of. */
  lemma ScanComplete(p: Parts)
    requires ValidParts(p)
    ensures Scan(Text(p)) == Some(p)
  {
    var rest := ParamText(p.pairs);
    assert Text(p) == (if p.spy then SPY_PREFIX else "") + AERON_PREFIX + (p.media + rest);
    ScanPrefix(p.spy, p.media + rest);
    if p.pairs != [] {
      ScanParamsReads(p.spy, p.media, p.pairs, "");
      assert rest[1..] + "" == rest[1..];
    }
    ScanMediaReads(p.spy, "", p.media, rest);
    assert "" + p.media == p.media;
  }

  /** Everything accepted is a text of the grammar. */
  lemma ScanSound(str: string)
    ensures Scan(str).Some? ==> ValidParts(Scan(str).value) && Text(Scan(str).value) == str
  {
    var spy := SPY_PREFIX <= str;
    var body := if spy then str[|SPY_PREFIX|..] else str;
    if AERON_PREFIX <= body {
      hide ScanMedia, ParamText;
      var head, rest := (if spy then SPY_PREFIX else "") + AERON_PREFIX, body[|AERON_PREFIX|..];
      assert str == head + rest;
      ScanPrefix(spy, rest);
      ScanMediaSound(spy, "", rest);
      if Scan(str).Some? {
        var p := Scan(str).value;
        assert rest == "" + rest == p.media + ParamText(p.pairs);
        Associative(head, p.media, ParamText(p.pairs));
      }
    }
  }

  // ----- Main properties of the text -----

  /** What parsing a text means: the URI of the only parts the text can be made of, if there are any. */
  ghost function ParseUri(str: string): Option<Uri> {
    match Scan(str)
    case None => None
    case Some(p) => Some(UriOf(p))
  }

  /** The text of some parts, character by character. */
  lemma TextOfParts(spy: bool, media: string, pairs: seq<Param>, key: string, value: string)
    ensures Text(Parts(spy, media, [])) == (if spy then "aeron-spy:aeron:" else "aeron:") + media
    ensures Text(Parts(spy, media, pairs + [(key, value)]))
            == Text(Parts(spy, media, pairs)) + (if pairs == [] then "?" else "|") + key + "=" + value
  {
    var head := (if spy then SPY_PREFIX else "") + AERON_PREFIX;
    assert SPY_PREFIX + AERON_PREFIX == "aeron-spy:aeron:";
    assert head + media + "" == head + media;
    ParamTextSnoc(pairs, key, value);
    hide ParamText;
    Regroup(head + media + Lead(pairs), key, "=", value);
    Regroup(Lead(pairs), key, "=", value);
    Associative(head + media, Lead(pairs), key + "=" + value);
    PartsLead(spy, media, pairs);
  }

  lemma PartsLead(spy: bool, media: string, pairs: seq<Param>)
    ensures (if spy then SPY_PREFIX else "") + AERON_PREFIX + media + Lead(pairs)
            == Text(Parts(spy, media, pairs)) + (if pairs == [] then "?" else "|")
  {
    var head := (if spy then SPY_PREFIX else "") + AERON_PREFIX + media;
    if pairs == [] {
      assert Text(Parts(spy, media, pairs)) == head + "" == head;
    } else {
      Associative(head, ParamText(pairs), "|");
    }
  }

  /** parse accepts exactly the grammar, and yields the last-wins map of its parameters. */
  lemma ParseIsTheGrammar(str: string, u: Uri)
    ensures ParseUri(str) == Some(u) <==> exists p :: ValidParts(p) && Text(p) == str && UriOf(p) == u
    ensures ParseUri(str) == Some(u) <==>
            exists p: Parts ::
              && '?' !in p.media && ':' !in p.media
              && (forall i :: 0 <= i < |p.pairs| ==> '=' !in p.pairs[i].0 && '|' !in p.pairs[i].1)
              && Text(p) == str
              && u == Uri(if p.spy then "aeron-spy" else "", p.media, Fold(p.pairs))
  {
    ScanSound(str);
    forall p | ValidParts(p) && Text(p) == str
      ensures Scan(str) == Some(p)
    {
      ScanComplete(p);
    }
  }

  /** A text is made of its parts in one way only. */
  lemma GrammarUnambiguous(p: Parts, q: Parts)
    requires ValidParts(p) && ValidParts(q) && Text(p) == Text(q)
    ensures p == q
  {
    ScanComplete(p);
    ScanComplete(q);
  }

  /** A URI that can be written and read back. */
  ghost predicate WellFormed(u: Uri) {
    && (u.prefix == "" || u.prefix == SPY_QUALIFIER)
    && ValidMedia(u.media)
    && forall k :: k in u.params ==> '=' !in k && '|' !in u.params[k]
  }

  /** An order in which an unordered map may yield its entries. */
  ghost predicate IsEnumeration(order: seq<Param>, params: map<string, string>) {
    && (forall i, j :: 0 <= i < j < |order| ==> order[i].0 != order[j].0)
    && (forall i :: 0 <= i < |order| ==> order[i].0 in params && order[i].1 == params[order[i].0])
    && (forall k :: k in params ==> exists i :: 0 <= i < |order| && order[i].0 == k)
  }

  lemma EnumerationSnoc(order: seq<Param>, params: map<string, string>, key: string, value: string)
    requires IsEnumeration(order, params) && key !in params
    ensures IsEnumeration(order + [(key, value)], params[key := value])
  {
    var order' := order + [(key, value)];
    var params' := params[key := value];
    forall k | k in params'
      ensures exists i :: 0 <= i < |order'| && order'[i].0 == k
    {
      if k == key {
        assert order'[|order|].0 == k;
      } else {
        var i :| 0 <= i < |order| && order[i].0 == k;
        assert order'[i].0 == k;
      }
    }
  }

  /** The order enumerates the map but for the keys that are left. */
  ghost predicate EnumeratesBut(order: seq<Param>, params: map<string, string>, left: set<string>) {
    IsEnumeration(order, params - left)
  }

  lemma EnumerationStart(params: map<string, string>)
    ensures EnumeratesBut([], params, params.Keys)
  {
    assert params - params.Keys == map[];
  }

  lemma EnumerationStep(order: seq<Param>, params: map<string, string>, left: set<string>, key: string)
    requires EnumeratesBut(order, params, left) && key in left && key in params
    ensures EnumeratesBut(order + [(key, params[key])], params, left - {key})
  {
    EnumerationSnoc(order, params - left, key, params[key]);
    assert (params - left)[key := params[key]] == params - (left - {key});
  }

  lemma EnumerationDone(order: seq<Param>, params: map<string, string>, left: set<string>)
    requires EnumeratesBut(order, params, left) && left == {}
    ensures IsEnumeration(order, params)
  {
    assert params - left == params;
  }

  /** The parameters printed so far, up to the next key if there are more. */
  function Printed(head: string, order: seq<Param>, more: bool): string {
    head + if more then Lead(order) else ParamText(order)
  }

  lemma PrintedNothing(head: string)
    ensures Printed(head, [], false) == head && Printed(head, [], true) == head + "?"
    ensures IsEnumeration([], map[])
  {
  }

  function PrintedPrefix(prefix: string): string {
    if prefix == "" then "" else if prefix[|prefix| - 1] == ':' then prefix else prefix + ":"
  }

  lemma PrintedSnoc(head: string, order: seq<Param>, key: string, value: string, more: bool)
    ensures Printed(head, order, true) + key + "=" + value + (if more then "|" else "")
            == Printed(head, order + [(key, value)], more)
  {
    ParamTextSnoc(order, key, value);
    var order', lead := order + [(key, value)], Lead(order);
    Regroup(head + lead, key, "=", value);
    Regroup(lead, key, "=", value);
    Associative(head, lead, key + "=" + value);
    assert head + lead + key + "=" + value == head + ParamText(order');
    if more {
      assert Lead(order') == ParamText(order') + "|";
      Associative(head, ParamText(order'), "|");
    } else {
      assert head + ParamText(order') + "" == head + ParamText(order');
    }
  }

  /** What toString prints when the map yields its entries in this order. */
  function Print(prefix: string, media: string, order: seq<Param>): string {
    Printed(PrintedPrefix(prefix) + AERON_PREFIX + media, order, false)
  }

  /** What toString prints: the prefix, with a colon behind it, and the text of the media and the parameters. */
  lemma PrintText(prefix: string, media: string, order: seq<Param>)
    ensures Print(prefix, media, order)
            == (if prefix == "" then "" else if prefix[|prefix| - 1] == ':' then prefix else prefix + ":")
               + Text(Parts(false, media, order))
  {
    var head := PrintedPrefix(prefix);
    assert "" + AERON_PREFIX == AERON_PREFIX;
    Associative(head, AERON_PREFIX, media);
    Associative(head, AERON_PREFIX + media, ParamText(order));
  }

  lemma {:induction false} FoldEntries(pairs: seq<Param>)
    ensures forall k :: k in Fold(pairs) ==> (k, Fold(pairs)[k]) in pairs
    ensures forall i :: 0 <= i < |pairs| ==> pairs[i].0 in Fold(pairs)
  {
    if pairs != [] {
      var init := pairs[..|pairs| - 1];
      FoldEntries(init);
      assert forall e :: e in init ==> e in pairs;
      var last := pairs[|pairs| - 1];
      assert last == (last.0, last.1) && last in pairs;
    }
  }

  /** The value of a key is that of its last pair. */
  lemma {:induction false} LastPairWins(pairs: seq<Param>, key: string, value: string)
    ensures key in Fold(pairs) && Fold(pairs)[key] == value <==>
            exists i :: 0 <= i < |pairs| && pairs[i] == (key, value)
              && forall j :: i < j < |pairs| ==> pairs[j].0 != key
  {
    if pairs != [] {
      var init, last := pairs[..|pairs| - 1], pairs[|pairs| - 1];
      LastPairWins(init, key, value);
      assert forall i :: 0 <= i < |init| ==> pairs[i] == init[i];
      if last.0 == key {
        assert last == (key, last.1);
      }
      if exists i :: 0 <= i < |init| && init[i] == (key, value) && forall j :: i < j < |init| ==> init[j].0 != key {
        var i :| 0 <= i < |init| && init[i] == (key, value) && forall j :: i < j < |init| ==> init[j].0 != key;
        assert pairs[i] == (key, value);
      }
    }
  }

  /** A parameter of a parsed text has the value of the last pair with its key; any other key has none. */
  lemma ParsedParameter(str: string, u: Uri, key: string, value: string)
    requires ParseUri(str) == Some(u)
    ensures key in u.params && u.params[key] == value <==>
            exists p, i :: ValidParts(p) && Text(p) == str && 0 <= i < |p.pairs| && p.pairs[i] == (key, value)
              && forall j :: i < j < |p.pairs| ==> p.pairs[j].0 != key
  {
    ScanSound(str);
    var q := Scan(str).value;
    LastPairWins(q.pairs, key, value);
    forall p | ValidParts(p) && Text(p) == str
      ensures p == q
    {
      ScanComplete(p);
    }
  }

  lemma FoldEnumeration(order: seq<Param>, params: map<string, string>)
    requires IsEnumeration(order, params)
    ensures Fold(order) == params
  {
    FoldEntries(order);
  }

  /** Round trip: printing and parsing gives back the URI, whatever order the map yields, exactly when
      the URI is well formed. */
  lemma RoundTrip(u: Uri, order: seq<Param>)
    requires IsEnumeration(order, u.params)
    ensures ParseUri(Print(u.prefix, u.media, order)) == Some(u) <==> WellFormed(u)
  {
    if WellFormed(u) {
      var p := Parts(u.prefix != "", u.media, order);
      FoldEnumeration(order, u.params);
      assert Text(p) == Print(u.prefix, u.media, order);
      ScanComplete(p);
    }
    ParsedIsWellFormed(Print(u.prefix, u.media, order));
  }

  lemma ParsedIsWellFormed(str: string)
    ensures ParseUri(str).Some? ==> WellFormed(ParseUri(str).value)
  {
    ScanSound(str);
    if ParseUri(str).Some? {
      FoldEntries(Scan(str).value.pairs);
    }
  }

  /** Parsing an accepted text, printing the URI in any order and parsing again changes nothing. */
  lemma ReprintingKeepsMeaning(str: string, u: Uri, order: seq<Param>)
    requires ParseUri(str) == Some(u) && IsEnumeration(order, u.params)
    ensures ParseUri(Print(u.prefix, u.media, order)) == Some(u)
  {
    ParsedIsWellFormed(str);
    RoundTrip(u, order);
  }

  // ----- The class -----

  datatype ParseResult = Parsed(uri: ChannelUri) | IllegalArgument

  /** input[position..] begins with prefix; the position may be past the end. */
  method StartsWith(input: string, position: nat, prefix: string) returns (r: bool)
    ensures r <==> position <= |input| && prefix <= input[position..]
  {
    if |input| < position + |prefix| {
      return false;
    }
    var i := 0;
    while i < |prefix|
      invariant i <= |prefix|
      invariant prefix[..i] == input[position..position + i]
    {
      if prefix[i] != input[position + i] {
        assert input[position..][i] != prefix[i];
        return false;
      }
      i := i + 1;
    }
    assert prefix == prefix[..i] == input[position..][..i];
    r := true;
  }

  class ChannelUri {
    const prefix: string
    const media: string
    var params: map<string, string>

    constructor (prefix: string, media: string, params: map<string, string>)
      ensures Value() == Uri(prefix, media, params)
    {
      this.prefix, this.media, this.params := prefix, media, params;
    }

    ghost function Value(): Uri
      reads this
    {
      Uri(prefix, media, params)
    }

    method Put(key: string, value: string)
      modifies this
      ensures Value() == old(Value()).(params := old(params)[key := value])
    {
      params := params[key := value];
    }

    method Get(key: string) returns (r: Option<string>)
      ensures forall value :: r == Some(value) <==> (key, value) in params.Items
    {
      if key !in params {
        return None;
      }
      r := Some(params[key]);
    }

    /** Prints the entries in whatever order the map yields them. */
    method ToString() returns (s: string, ghost order: seq<Param>)
      ensures IsEnumeration(order, params) && s == Print(prefix, media, order)
      ensures ParseUri(s) == Some(Value()) <==> WellFormed(Value())
    {
      hide ParamText, Lead, Printed, IsEnumeration, EnumeratesBut, Scan, WellFormed;
      s := "";
      if prefix != "" {
        s := s + prefix;
        if prefix[|prefix| - 1] != ':' {
          s := s + ":";
        }
      }
      assert s == PrintedPrefix(prefix);
      s := s + AERON_PREFIX + media;
      ghost var head := s;
      order := [];
      PrintedNothing(head);
      if params != map[] {
        s := s + "?";
        var left := params.Keys;
        var ps := |params|;
        EnumerationStart(params);
        while left != {}
          invariant ps == |left| && left <= params.Keys
          invariant EnumeratesBut(order, params, left)
          invariant s == Printed(head, order, left != {})
        {
          var k :| k in left;
          EnumerationStep(order, params, left, k);
          ps := ps - 1;
          PrintedSnoc(head, order, k, params[k], ps != 0);
          s := s + k + "=" + params[k] + (if ps != 0 then "|" else "");
          left, order := left - {k}, order + [(k, params[k])];
        }
        EnumerationDone(order, params, left);
      }
      assert s == Print(prefix, media, order);
      RoundTrip(Value(), order);
    }

    /** Parses by a loop over the characters, in three states. */
    static method Parse(str: string) returns (r: ParseResult)
      ensures r.IllegalArgument? <==> ParseUri(str) == None
      ensures r.Parsed? ==> fresh(r.uri) && ParseUri(str) == Some(r.uri.Value())
    {
      var position := 0;
      var prefix := "";
      var spy := StartsWith(str, 0, SPY_PREFIX);
      assert str[0..] == str;
      if spy {
        prefix := SPY_QUALIFIER;
        position := position + |SPY_PREFIX|;
      }
      var scheme := StartsWith(str, position, AERON_PREFIX);
      if !scheme {
        return IllegalArgument;
      }
      position := position + |AERON_PREFIX|;
      var media, key, buffer, state := "", "", "", State.Media;
      var params: map<string, string> := map[];
      ghost var pairs: seq<Param> := [];
      while position < |str|
        invariant position <= |str|
        invariant params == Fold(pairs) && (state == State.Media ==> pairs == [])
        invariant ScanFrom(state, spy, media, pairs, key, buffer, str[position..]) == Scan(str)
      {
        assert str[position..][1..] == str[position + 1..];
        var c := str[position];
        position := position + 1;
        match state
        case Media =>
          if c == '?' {
            media, buffer, state := buffer, "", ParamsKey;
          } else if c == ':' {
            return IllegalArgument;
          } else {
            buffer := buffer + [c];
          }
        case ParamsKey =>
          if c == '=' {
            key, buffer, state := buffer, "", ParamsValue;
          } else {
            buffer := buffer + [c];
          }
        case ParamsValue =>
          if c == '|' {
            params := params[key := buffer];
            pairs := pairs + [(key, buffer)];
            buffer, state := "", ParamsKey;
          } else {
            buffer := buffer + [c];
          }
      }
      match state {
        case Media =>
          media := buffer;
        case ParamsValue =>
          params := params[key := buffer];
          pairs := pairs + [(key, buffer)];
        case ParamsKey =>
          return IllegalArgument;
      }
      var uri := new ChannelUri(prefix, media, params);
      r := Parsed(uri);
    }
  }
}
