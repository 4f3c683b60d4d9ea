/** Property files: one line's key and value, and the map of all lines. */
module PropertiesReaders {
  import opened Messages

  type Entry = (string, string)

  /** std::isspace in the C locale. */
  predicate IsSpace(c: char) {
    c == ' ' || '\t' <= c <= '\r'
  }

  predicate AllSpace(s: string) {
    forall i :: 0 <= i < |s| ==> IsSpace(s[i])
  }

  lemma WhiteSpaceIs(c: char)
    ensures IsSpace(c) <==> c in [' ', '\t', '\n', '\U{000B}', '\U{000C}', '\r']
  {
  }

  // ----- Trimming -----

  function LTrimmed(s: string): string {
    if s != "" && IsSpace(s[0]) then LTrimmed(s[1..]) else s
  }

  function RTrimmed(s: string): string {
    if s != "" && IsSpace(s[|s| - 1]) then RTrimmed(s[..|s| - 1]) else s
  }

  function Trimmed(s: string): string {
    RTrimmed(LTrimmed(s))
  }

  /** Neither begins nor ends with white space. */
  predicate IsTrim(s: string) {
    s == "" || (!IsSpace(s[0]) && !IsSpace(s[|s| - 1]))
  }

  /** A right-trimmed string ends at its last character that is not white space. */
  lemma {:induction false} RTrimStrips(s: string, ws: string)
    requires AllSpace(ws) && (s == "" || !IsSpace(s[|s| - 1]))
    ensures RTrimmed(s + ws) == s
    decreases |ws|
  {
    if ws == "" {
      assert s + ws == s;
    } else {
      RTrimStrips(s, ws[..|ws| - 1]);
      assert (s + ws)[..|s + ws| - 1] == s + ws[..|ws| - 1];
    }
  }

  lemma {:induction false} LTrimStrips(ws: string, s: string)
    requires AllSpace(ws) && (s == "" || !IsSpace(s[0]))
    ensures LTrimmed(ws + s) == s
    decreases |ws|
  {
    if ws == "" {
      assert ws + s == s;
    } else {
      LTrimStrips(ws[1..], s);
      assert (ws + s)[1..] == ws[1..] + s;
    }
  }

  lemma {:induction false} RTrimSplit(s: string) returns (ws: string)
    ensures AllSpace(ws) && s == RTrimmed(s) + ws
    ensures RTrimmed(s) == "" || !IsSpace(RTrimmed(s)[|RTrimmed(s)| - 1])
  {
    if s != "" && IsSpace(s[|s| - 1]) {
      ws := RTrimSplit(s[..|s| - 1]);
      ws := ws + [s[|s| - 1]];
    } else {
      ws := "";
    }
  }

  lemma {:induction false} LTrimSplit(s: string) returns (ws: string)
    ensures AllSpace(ws) && s == ws + LTrimmed(s)
    ensures LTrimmed(s) == "" || !IsSpace(LTrimmed(s)[0])
  {
    if s != "" && IsSpace(s[0]) {
      assert LTrimmed(s) == LTrimmed(s[1..]);
      hide LTrimmed;
      ws := LTrimSplit(s[1..]);
      assert s == [s[0]] + s[1..] == [s[0]] + ws + LTrimmed(s);
      ws := [s[0]] + ws;
    } else {
      ws := "";
    }
  }

  /** Trimming removes white space at both ends and nothing else. */
  lemma TrimSplit(s: string) returns (left: string, right: string)
    ensures AllSpace(left) && AllSpace(right) && s == left + Trimmed(s) + right && IsTrim(Trimmed(s))
  {
    left := LTrimSplit(s);
    right := RTrimSplit(LTrimmed(s));
    assert s == left + (Trimmed(s) + right);
  }

  lemma TrimStrips(left: string, s: string, right: string)
    requires AllSpace(left) && AllSpace(right) && IsTrim(s)
    ensures Trimmed(left + s + right) == s
  {
    if s == "" {
      assert left + s + right == left + right + "";
      LTrimStrips(left + right, "");
    } else {
      assert left + s + right == left + (s + right);
      LTrimStrips(left, s + right);
      RTrimStrips(s, right);
    }
  }

  /** ltrim: erases up to the first character that is not white space. */
  method LTrim(s: string) returns (r: string)
    ensures r == LTrimmed(s)
  {
    r := s;
    while r != "" && IsSpace(r[0])
      invariant LTrimmed(r) == LTrimmed(s)
      decreases |r|
    {
      r := r[1..];
    }
  }

  /** rtrim: erases from behind the last character that is not white space. */
  method RTrim(s: string) returns (r: string)
    ensures r == RTrimmed(s)
  {
    r := s;
    while r != "" && IsSpace(r[|r| - 1])
      invariant RTrimmed(r) == RTrimmed(s)
      decreases |r|
    {
      r := r[..|r| - 1];
    }
  }

  // ----- One line -----

  /** std::string(line, pos, count): a start and a count, clamped to the end of the line. */
  function Substr(line: string, pos: nat, count: nat): string
    requires pos <= |line|
  {
    line[pos..if pos + count <= |line| then pos + count else |line|]
  }

  function FirstNonSpace(line: string, i: nat): nat
    requires i <= |line|
    decreases |line| - i
  {
    if i == |line| || !IsSpace(line[i]) then i else FirstNonSpace(line, i + 1)
  }

  /** The first index from i on that holds one of these characters, or the length of the line. */
  function FirstOf(line: string, i: nat, cs: string): nat
    requires i <= |line|
    decreases |line| - i
  {
    if i == |line| || line[i] in cs then i else FirstOf(line, i + 1, cs)
  }

  lemma {:induction false} FirstNonSpaceIs(line: string, i: nat)
    requires i <= |line|
    ensures i <= FirstNonSpace(line, i) <= |line|
    ensures FirstNonSpace(line, i) < |line| ==> !IsSpace(line[FirstNonSpace(line, i)])
    ensures forall k :: i <= k < FirstNonSpace(line, i) ==> IsSpace(line[k])
    decreases |line| - i
  {
    if i < |line| && IsSpace(line[i]) {
      FirstNonSpaceIs(line, i + 1);
    }
  }

  lemma {:induction false} FirstOfIs(line: string, i: nat, cs: string)
    requires i <= |line|
    ensures i <= FirstOf(line, i, cs) <= |line|
    ensures FirstOf(line, i, cs) < |line| ==> line[FirstOf(line, i, cs)] in cs
    ensures forall k :: i <= k < FirstOf(line, i, cs) ==> line[k] !in cs
    decreases |line| - i
  {
    if i < |line| && line[i] !in cs {
      FirstOfIs(line, i + 1, cs);
    }
  }

  /** Where a line's key begins, its separator stands and its value ends. */
  datatype Layout = Blank | NoSeparator | KeyValue(start: nat, separator: nat, end: nat)

  /** The key begins at the first character that is not white space, whatever it is but '#'; the
      separator is the next '=' after that character, if no '#' comes first; the value ends at the next '#'. */
  ghost predicate IsLayout(line: string, layout: Layout) {
    match layout
    case Blank =>
      AllSpace(line) || exists i :: 0 <= i < |line| && AllSpace(line[..i]) && line[i] == '#'
    case NoSeparator =>
      exists start, end :: KeyWithoutSeparator(line, start, end)
    case KeyValue(start, separator, end) =>
      && start < separator < end <= |line|
      && IsKeyStart(line, start)
      && (forall k :: start < k < separator ==> line[k] != '=' && line[k] != '#')
      && line[separator] == '='
      && (forall k :: separator < k < end ==> line[k] != '#')
      && (end == |line| || line[end] == '#')
  }

  /** From start to end there is a key that no separator follows. */
  ghost predicate KeyWithoutSeparator(line: string, start: int, end: int) {
    && 0 <= start < end <= |line|
    && IsKeyStart(line, start)
    && (forall k :: start < k < end ==> line[k] != '=' && line[k] != '#')
    && (end == |line| || line[end] == '#')
  }

  ghost predicate IsKeyStart(line: string, start: int)
    requires 0 <= start < |line|
  {
    AllSpace(line[..start]) && !IsSpace(line[start]) && line[start] != '#'
  }

  function LayoutOf(line: string): Layout {
    FirstNonSpaceIs(line, 0);
    var start := FirstNonSpace(line, 0);
    if start == |line| || line[start] == '#' then Blank
    else
      FirstOfIs(line, start + 1, "=#");
      var separator := FirstOf(line, start + 1, "=#");
      if separator == |line| || line[separator] == '#' then NoSeparator
      else KeyValue(start, separator, FirstOf(line, separator + 1, "#"))
  }

  lemma LayoutHolds(line: string)
    ensures IsLayout(line, LayoutOf(line))
  {
    FirstNonSpaceIs(line, 0);
    var start := FirstNonSpace(line, 0);
    if start < |line| {
      assert AllSpace(line[..start]);
      if line[start] != '#' {
        assert IsKeyStart(line, start);
        FirstOfIs(line, start + 1, "=#");
        var separator := FirstOf(line, start + 1, "=#");
        if separator < |line| {
          FirstOfIs(line, separator + 1, "#");
        }
        assert LayoutOf(line) == NoSeparator ==> KeyWithoutSeparator(line, start, separator);
      }
    }
  }

  /** All key starts of a line, and the mark of a blank line, are the first character that is not white space. */
  lemma FirstVisible(line: string, i: nat)
    requires i < |line| && AllSpace(line[..i]) && !IsSpace(line[i])
    ensures i == FirstNonSpace(line, 0)
  {
    FirstNonSpaceIs(line, 0);
    assert forall k :: 0 <= k < i ==> line[k] == line[..i][k];
  }

  lemma FirstOfUnique(line: string, i: nat, cs: string, end: nat)
    requires i <= end <= |line|
    requires forall k :: i <= k < end ==> line[k] !in cs
    requires end == |line| || line[end] in cs
    ensures FirstOf(line, i, cs) == end
  {
    FirstOfIs(line, i, cs);
  }

  lemma BlankUnique(line: string)
    requires IsLayout(line, Blank)
    ensures LayoutOf(line) == Blank
  {
    FirstNonSpaceIs(line, 0);
    if !AllSpace(line) {
      var i: nat :| i < |line| && AllSpace(line[..i]) && line[i] == '#';
      FirstVisible(line, i);
    }
  }

  lemma NoSeparatorUnique(line: string)
    requires IsLayout(line, NoSeparator)
    ensures LayoutOf(line) == NoSeparator
  {
    var start: nat, end: nat :| KeyWithoutSeparator(line, start, end);
    FirstVisible(line, start);
    FirstOfUnique(line, start + 1, "=#", end);
  }

  lemma KeyValueUnique(line: string, start: nat, separator: nat, end: nat)
    requires IsLayout(line, KeyValue(start, separator, end))
    ensures LayoutOf(line) == KeyValue(start, separator, end)
  {
    assert IsKeyStart(line, start);
    FirstVisible(line, start);
    FirstOfUnique(line, start + 1, "=#", separator);
    FirstOfUnique(line, separator + 1, "#", end);
  }

  /** Every line has exactly one layout. */
  lemma LayoutExact(line: string, layout: Layout)
    ensures IsLayout(line, layout) <==> layout == LayoutOf(line)
  {
    LayoutHolds(line);
    if IsLayout(line, layout) {
      match layout
      case Blank => BlankUnique(line);
      case NoSeparator => NoSeparatorUnique(line);
      case KeyValue(start, separator, end) => KeyValueUnique(line, start, separator, end);
    }
  }

  /** A line's entry; None when it has a key and no value. The second arguments of the two slices are
      the loop index of the source, which is an index into the line and not a count from the start. */
  function ParsedLine(line: string): Option<Entry> {
    match LayoutOf(line)
    case Blank => Some(("", ""))
    case NoSeparator => None
    case KeyValue(start, separator, end) =>
      LayoutExact(line, LayoutOf(line));
      Some((RTrimmed(Substr(line, start, separator)), Trimmed(Substr(line, separator + 1, end))))
  }

  datatype State = Start | Key | Value

  /** The parser's loop, before character i, has seen this much of the line's layout. */
  ghost predicate Seen(line: string, state: State, pos: nat, first: string, i: nat)
    requires i <= |line|
  {
    var start := FirstNonSpace(line, 0);
    match state
    case Start => start == FirstNonSpace(line, i) && first == ""
    case Key => pos == start < i && line[pos] != '#' && FirstOf(line, pos + 1, "=#") == FirstOf(line, i, "=#")
    case Value =>
      && start < |line| && line[start] != '#'
      && var separator := FirstOf(line, start + 1, "=#");
         && separator < |line| && line[separator] == '=' && pos == separator + 1 <= i
         && first == RTrimmed(Substr(line, start, separator))
         && FirstOf(line, pos, "#") == FirstOf(line, i, "#")
  }

  /** What the loop has found when it stops at the end of the line or at a '#'. */
  lemma SeenAll(line: string, state: State, pos: nat, first: string, i: nat)
    requires i <= |line| && pos <= |line| && Seen(line, state, pos, first, i)
    requires i == |line| || line[i] == '#'
    ensures ParsedLine(line) ==
            match state
            case Start => Some(("", ""))
            case Key => None
            case Value => Some((first, Trimmed(Substr(line, pos, i))))
  {
  }

  method ParseLine(line: string) returns (r: Option<Entry>)
    ensures r == ParsedLine(line)
  {
    hide ParsedLine, LTrimmed;
    var state := Start;
    var first, second := "", "";
    var i, pos := 0, 0;
    while i < |line|
      invariant i <= |line| && pos <= |line|
      invariant Seen(line, state, pos, first, i)
    {
      var c := line[i];
      match state {
        case Start =>
          if !IsSpace(c) {
            if c == '#' {
              SeenAll(line, state, pos, first, i);
              return Some((first, second));
            } else {
              state, pos := Key, i;
            }
          }
        case Key =>
          if c == '=' {
            state := Value;
            first := RTrim(Substr(line, pos, i));
            pos := i + 1;
          } else if c == '#' {
            break;
          }
        case Value =>
          if c == '#' {
            break;
          }
      }
      i := i + 1;
    }
    SeenAll(line, state, pos, first, i);
    if state == Key {
      return None;
    } else if state == Value {
      var value := LTrim(Substr(line, pos, i));
      second := RTrim(value);
    }
    r := Some((first, second));
  }

  // ----- What a line means -----

  /** A line made of a key, a separator and a value, with white space around them, gives them back. */
  lemma LineRecovered(key: string, w1: string, w2: string, value: string, w3: string)
    requires key != "" && IsTrim(key) && key[0] != '#' && forall k :: 1 <= k < |key| ==> key[k] !in "=#"
    requires AllSpace(w1) && AllSpace(w2) && AllSpace(w3)
    requires IsTrim(value) && '#' !in value
    ensures ParsedLine(key + w1 + "=" + w2 + value + w3) == Some((key, value))
  {
    var left, right := key + w1, w2 + value + w3;
    assert key + w1 + "=" + w2 + value + w3 == left + "=" + right;
    LineOfParts(left, right);
    RTrimStrips(key, w1);
    TrimStrips(w2, value, w3);
  }

  /** A line of white space, or of white space and a comment, has the empty entry. */
  lemma BlankLines(ws: string, comment: string)
    requires AllSpace(ws)
    ensures ParsedLine(ws) == Some(("", "")) && ParsedLine(ws + "#" + comment) == Some(("", ""))
  {
    var line := ws + "#" + comment;
    assert line[..|ws|] == ws && line[|ws|] == '#';
    assert IsLayout(line, Blank);
    BlankUnique(ws);
    BlankUnique(line);
  }

  /** A line with a key that no separator follows does not parse, whether a comment follows or not. */
  lemma KeyAloneFails(ws: string, key: string, comment: string)
    requires AllSpace(ws) && key != "" && !IsSpace(key[0]) && key[0] != '#'
    requires forall k :: 1 <= k < |key| ==> key[k] != '=' && key[k] != '#'
    ensures ParsedLine(ws + key) == None && ParsedLine(ws + key + "#" + comment) == None
  {
    KeyAlone(ws + key, ws, key);
    KeyAlone(ws + key + "#" + comment, ws, key);
  }

  lemma KeyAlone(line: string, ws: string, key: string)
    requires AllSpace(ws) && key != "" && !IsSpace(key[0]) && key[0] != '#'
    requires forall k :: 1 <= k < |key| ==> key[k] != '=' && key[k] != '#'
    requires ws + key <= line && (|line| == |ws + key| || line[|ws + key|] == '#')
    ensures ParsedLine(line) == None
  {
    assert line[..|ws|] == (ws + key)[..|ws|] == ws;
    assert forall k :: 0 <= k < |key| ==> line[|ws| + k] == (ws + key)[|ws| + k] == key[k];
    assert forall k :: |ws| < k < |ws + key| ==> line[k] == key[k - |ws|];
    assert KeyWithoutSeparator(line, |ws|, |ws + key|);
    NoSeparatorUnique(line);
  }

  /** The entry of a line with a key and a separator: two slices, each with an end index for its count, trimmed. */
  lemma EntryOfLine(line: string, start: nat, separator: nat, end: nat)
    requires IsLayout(line, KeyValue(start, separator, end))
    ensures var keyEnd, valueEnd := start + separator, separator + 1 + end;
            ParsedLine(line) == Some((
              RTrimmed(line[start..if keyEnd <= |line| then keyEnd else |line|]),
              Trimmed(line[separator + 1..if valueEnd <= |line| then valueEnd else |line|])))
  {
    KeyValueUnique(line, start, separator, end);
  }

  /** A line with nothing before its key and no comment. */
  lemma LineOfParts(left: string, right: string)
    requires left != "" && !IsSpace(left[0]) && left[0] != '#'
    requires (forall k :: 1 <= k < |left| ==> left[k] !in "=#") && '#' !in right
    ensures ParsedLine(left + "=" + right) == Some((RTrimmed(left), Trimmed(right)))
  {
    hide LTrimmed, RTrimmed, LayoutOf, AllSpace;
    var line := left + "=" + right;
    PartsLayout(line, left, right);
    assert Substr(line, 0, |left|) == left;
    assert Substr(line, |left| + 1, |line|) == right;
  }

  lemma PartsLayout(line: string, left: string, right: string)
    requires left != "" && !IsSpace(left[0]) && left[0] != '#'
    requires (forall k :: 1 <= k < |left| ==> left[k] !in "=#") && '#' !in right
    requires line == left + "=" + right
    ensures LayoutOf(line) == KeyValue(0, |left|, |line|)
  {
    assert forall k :: 0 <= k < |left| ==> line[k] == left[k];
    assert forall k :: |left| < k < |line| ==> line[k] == right[k - |left| - 1];
    FirstVisible(line, 0);
    FirstOfUnique(line, 1, "=#", |left|);
    FirstOfUnique(line, |left| + 1, "#", |line|);
  }

  lemma {:induction false} RTrimKeeps(s: string, i: nat)
    requires i < |s| && !IsSpace(s[i])
    ensures i < |RTrimmed(s)| <= |s|
  {
    if IsSpace(s[|s| - 1]) {
      RTrimKeeps(s[..|s| - 1], i);
    }
  }

  lemma TrimKeeps(s: string, c: char)
    requires !IsSpace(c)
    ensures c in Trimmed(s) <==> c in s
  {
    var left, right := TrimSplit(s);
    assert c !in left && c !in right;
  }

  /** The slices of the source pass an end index where a count is meant. Its key is the one between
      the key start and the separator exactly when the line does not begin with white space, and its
      value the one between the separator and the comment exactly when there is no comment. */
  lemma SlicesAgree(line: string, start: nat, separator: nat, end: nat)
    requires LayoutOf(line) == KeyValue(start, separator, end)
    ensures start < separator < end <= |line|
    ensures ParsedLine(line).Some?
    ensures ParsedLine(line).value.0 == RTrimmed(line[start..separator]) <==> !IsSpace(line[0])
    ensures ParsedLine(line).value.1 == Trimmed(line[separator + 1..end]) <==> '#' !in line[separator + 1..]
  {
    LayoutHolds(line);
    assert IsKeyStart(line, start);
    if start > 0 {
      assert line[..start][0] == line[0];
      KeySliceTooLong(line, start, separator);
    }
    ValueSlice(line, separator, end);
  }

  lemma KeySliceTooLong(line: string, start: nat, separator: nat)
    requires 0 < start < separator < |line| && line[separator] == '='
    ensures RTrimmed(Substr(line, start, separator)) != RTrimmed(line[start..separator])
  {
    RTrimKeeps(Substr(line, start, separator), separator - start);
    var ws := RTrimSplit(line[start..separator]);
    assert |RTrimmed(line[start..separator])| <= separator - start;
  }

  lemma ValueSlice(line: string, separator: nat, end: nat)
    requires separator < end <= |line| && forall k :: separator < k < end ==> line[k] != '#'
    requires end == |line| || line[end] == '#'
    ensures Trimmed(Substr(line, separator + 1, end)) == Trimmed(line[separator + 1..end])
            <==> '#' !in line[separator + 1..]
  {
    var whole, plain := Substr(line, separator + 1, end), line[separator + 1..end];
    if end < |line| {
      assert whole[end - separator - 1] == '#' && line[separator + 1..][end - separator - 1] == '#';
      TrimKeeps(whole, '#');
      TrimKeeps(plain, '#');
    } else {
      assert whole == plain == line[separator + 1..];
    }
  }

  /** White space before the key: the key of " k=v" takes in the separator. */
  lemma LeadingSpaceSpoilsKey()
    ensures ParsedLine(" k=v") == Some(("k=", "v"))
  {
    KeyValueUnique(" k=v", 1, 2, 4);
    assert Substr(" k=v", 1, 2) == "k=" && Substr(" k=v", 3, 4) == "v";
    assert " k=v"[..1] == " ";
  }

  /** A comment behind the value: the value of "k=v #c" takes in the comment. */
  lemma CommentSpoilsValue()
    ensures ParsedLine("k=v #c") == Some(("k", "v #c"))
  {
    KeyValueUnique("k=v #c", 0, 1, 4);
    assert Substr("k=v #c", 0, 1) == "k" && Substr("k=v #c", 2, 4) == "v #c";
  }

  // ----- A whole file -----

  /** The map of a file: lines that do not parse are skipped, and the first line of a key wins. */
  function FirstWins(lines: seq<string>): map<string, string> {
    if lines == [] then map[]
    else
      var properties := FirstWins(lines[..|lines| - 1]);
      match ParsedLine(lines[|lines| - 1])
      case None => properties
      case Some((key, value)) => if key in properties then properties else properties[key := value]
  }

  lemma NoLines(lines: seq<string>)
    ensures FirstWins(lines[..0]) == map[]
  {
  }

  lemma FirstWinsNext(lines: seq<string>, i: nat)
    requires i < |lines|
    ensures var properties := FirstWins(lines[..i]);
            FirstWins(lines[..i + 1]) ==
            match ParsedLine(lines[i])
            case None => properties
            case Some(entry) => if entry.0 in properties then properties else properties[entry.0 := entry.1]
  {
    assert lines[..i + 1][..i] == lines[..i];
  }

  predicate ParsesTo(line: string, key: string, value: string) {
    ParsedLine(line) == Some((key, value))
  }

  predicate HasKey(line: string, key: string) {
    ParsedLine(line).Some? && ParsedLine(line).value.0 == key
  }

  class PropertiesReader {
    var properties: map<string, string>

    constructor ()
      ensures properties == map[]
    {
      properties := map[];
    }

    /** The constructor's line loop. It fails on the first line that does not parse, unless errors are skipped. */
    method Load(lines: seq<string>, skipErrors: bool) returns (ok: bool)
      requires properties == map[]
      modifies this
      ensures ok <==> skipErrors || forall line <- lines :: ParsedLine(line).Some?
      ensures ok ==> properties == FirstWins(lines)
    {
      hide ParsedLine, FirstWins;
      NoLines(lines);
      for i := 0 to |lines|
        invariant properties == FirstWins(lines[..i])
        invariant skipErrors || forall line <- lines[..i] :: ParsedLine(line).Some?
      {
        FirstWinsNext(lines, i);
        assert lines[..i + 1] == lines[..i] + [lines[i]];
        var parsed := ParseLine(lines[i]);
        match parsed
        case None =>
          if !skipErrors {
            return false;
          }
        case Some(entry) =>
          if entry.0 !in properties {
            properties := properties[entry.0 := entry.1];
          }
      }
      assert lines[..|lines|] == lines;
      ok := true;
    }
  }

  /** A key of the map has the value of the first line that parses to it; no line parses to any other key. */
  lemma {:induction false} FirstLineOfKey(lines: seq<string>, key: string)
    ensures key in FirstWins(lines) <==> exists i :: 0 <= i < |lines| && HasKey(lines[i], key)
    ensures key in FirstWins(lines) ==>
              exists i :: 0 <= i < |lines| && ParsesTo(lines[i], key, FirstWins(lines)[key])
                && forall j :: 0 <= j < i ==> !HasKey(lines[j], key)
  {
    if lines != [] {
      var init := lines[..|lines| - 1];
      FirstLineOfKey(init, key);
      assert lines[..|lines|] == lines;
      FirstWinsNext(lines, |lines| - 1);
      hide ParsedLine, FirstWins;
      assert forall i :: 0 <= i < |init| ==> init[i] == lines[i];
      if key in FirstWins(init) {
        var i :| 0 <= i < |init| && ParsesTo(init[i], key, FirstWins(init)[key])
          && forall j :: 0 <= j < i ==> !HasKey(init[j], key);
        assert ParsesTo(lines[i], key, FirstWins(lines)[key]) && HasKey(lines[i], key);
      } else if HasKey(lines[|lines| - 1], key) {
        assert ParsesTo(lines[|lines| - 1], key, FirstWins(lines)[key]);
      }
    }
  }

  /** The same in the entries of the lines, both ways. */
  lemma FirstEntryOfKey(lines: seq<string>, key: string, value: string)
    ensures key in FirstWins(lines) && FirstWins(lines)[key] == value <==>
            exists i :: 0 <= i < |lines| && ParsedLine(lines[i]) == Some((key, value))
              && forall j :: 0 <= j < i && ParsedLine(lines[j]).Some? ==> ParsedLine(lines[j]).value.0 != key
  {
    FirstLineOfKey(lines, key);
    hide FirstWins, ParsedLine;
    if key in FirstWins(lines) {
      var i :| 0 <= i < |lines| && ParsesTo(lines[i], key, FirstWins(lines)[key])
        && forall j :: 0 <= j < i ==> !HasKey(lines[j], key);
      assert HasKey(lines[i], key);
    }
    forall i | 0 <= i < |lines| && ParsedLine(lines[i]) == Some((key, value))
      ensures HasKey(lines[i], key)
    {
    }
  }

  /** No two lines give the same key different values. */
  ghost predicate Consistent(lines: seq<string>) {
    forall a, b, key :: a in lines && b in lines && HasKey(a, key) && HasKey(b, key) ==> ParsedLine(a) == ParsedLine(b)
  }

  /** The order of the lines of a file matters exactly when two of its lines disagree on a key. */
  lemma OrderIrrelevant(lines: seq<string>)
    ensures Consistent(lines) <==>
            forall other :: multiset(other) == multiset(lines) ==> FirstWins(other) == FirstWins(lines)
  {
    if Consistent(lines) {
      forall other | multiset(other) == multiset(lines)
        ensures FirstWins(other) == FirstWins(lines)
      {
        SameMap(lines, other);
      }
    } else {
      var a, b, key :| a in lines && b in lines && HasKey(a, key) && HasKey(b, key) && ParsedLine(a) != ParsedLine(b);
      FirstLineOfKey(lines, key);
      var value := FirstWins(lines)[key];
      var first := if ParsesTo(a, key, value) then b else a;
      var other := MoveToFront(lines, first);
      FirstLineOfKey(other, key);
      assert HasKey(other[0], key);
      assert FirstWins(other)[key] != value;
    }
  }

  lemma SameMap(lines: seq<string>, other: seq<string>)
    requires Consistent(lines) && multiset(other) == multiset(lines)
    ensures FirstWins(other) == FirstWins(lines)
  {
    forall line
      ensures line in lines <==> line in other
    {
      assert line in lines <==> line in multiset(lines);
      assert line in other <==> line in multiset(other);
    }
    forall key
      ensures key in FirstWins(lines) <==> key in FirstWins(other)
      ensures key in FirstWins(lines) ==> FirstWins(lines)[key] == FirstWins(other)[key]
    {
      FirstLineOfKey(lines, key);
      FirstLineOfKey(other, key);
      if key in FirstWins(lines) {
        var i :| 0 <= i < |lines| && ParsesTo(lines[i], key, FirstWins(lines)[key]);
        assert lines[i] in other && HasKey(lines[i], key);
        var j :| 0 <= j < |other| && ParsesTo(other[j], key, FirstWins(other)[key]);
        assert other[j] in lines && HasKey(other[j], key);
      }
      if key in FirstWins(other) {
        var j :| 0 <= j < |other| && ParsesTo(other[j], key, FirstWins(other)[key]);
        assert other[j] in lines;
      }
    }
  }

  lemma MoveToFront(lines: seq<string>, line: string) returns (other: seq<string>)
    requires line in lines
    ensures multiset(other) == multiset(lines) && other != [] && other[0] == line
  {
    var j :| 0 <= j < |lines| && lines[j] == line;
    other := [line] + lines[..j] + lines[j + 1..];
    assert lines == lines[..j] + [line] + lines[j + 1..];
  }
}
