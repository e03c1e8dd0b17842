/**
 * The line-oriented wire format. A message is sent as one compact JSON object
 * followed by "\n" (ConnectionHandler's writer loop) and read back line by line
 * with `BufferedReader.readLine` (its reader loop). `Encode` mirrors the shape of
 * the JSON library's compact output (fields in declaration order, `null` fields
 * omitted, strings escaped); what the framing relies on is that an encoded
 * message never contains a line terminator.
 */
module Wire {
  import opened Wrappers
  import opened Peers
  import opened Messages

  /** No character `readLine` treats as a line terminator. */
  predicate LineSafe(s: string) {
    '\n' !in s && '\r' !in s
  }

  /** The lower-case hexadecimal digit for `d`. */
  function HexDigit(d: nat): (c: char)
    requires d < 16
  {
    "0123456789abcdef"[d]
  }

  /** The value of a hexadecimal digit, upper or lower case; zero for anything else. */
  function HexValue(c: char): (v: nat)
    ensures v < 16
  {
    if '0' <= c <= '9' then (c as int) - ('0' as int)
    else if 'a' <= c <= 'f' then (c as int) - ('a' as int) + 10
    else if 'A' <= c <= 'F' then (c as int) - ('A' as int) + 10
    else 0
  }

  /**
   * The JSON escape of one character, as the serializer writes it with HTML
   * escaping disabled: quote and backslash, the short forms of tab, backspace,
   * newline, carriage return and form feed, `\u00XX` for the other control
   * characters, and `\u2028` / `\u2029`; every other character stands for itself.
   */
  function EscapeChar(c: char): (r: string)
    ensures LineSafe(r)
  {
    var n := c as int;
    if c == '"' then "\\\""
    else if c == '\\' then "\\\\"
    else if c == '\t' then "\\t"
    else if n == 8 then "\\b"
    else if c == '\n' then "\\n"
    else if c == '\r' then "\\r"
    else if n == 12 then "\\f"
    else if n < 0x20 then "\\u00" + [HexDigit(n / 16), HexDigit(n % 16)]
    else if n == 0x2028 then "\\u2028"
    else if n == 0x2029 then "\\u2029"
    else [c]
  }

  /** The escaped body of a JSON string. */
  function Escape(s: string): (r: string)
    ensures LineSafe(r)
  {
    if s == [] then [] else EscapeChar(s[0]) + Escape(s[1..])
  }

  /** The character a short escape `\e` stands for. */
  function ShortEscape(e: char): (c: char) {
    if e == 't' then '\t'
    else if e == 'b' then 8 as char
    else if e == 'n' then '\n'
    else if e == 'r' then '\r'
    else if e == 'f' then 12 as char
    else e
  }

  /** The character four hexadecimal digits stand for (a surrogate code reads as U+FFFD). */
  function HexChar(h: string): char
    requires |h| == 4
  {
    var v := HexValue(h[0]) * 4096 + HexValue(h[1]) * 256 + HexValue(h[2]) * 16 + HexValue(h[3]);
    if 0xD800 <= v < 0xE000 then 0xFFFD as char else v as char
  }

  /** The reader's side of `Escape`: resolves every escape sequence. */
  function Unescape(t: string): string
    decreases |t|
  {
    if t == [] then []
    else if t[0] == '\\' && |t| >= 6 && t[1] == 'u' then [HexChar(t[2..6])] + Unescape(t[6..])
    else if t[0] == '\\' && |t| >= 2 then [ShortEscape(t[1])] + Unescape(t[2..])
    else [t[0]] + Unescape(t[1..])
  }

  /** Reading a hexadecimal digit back gives its value. */
  lemma HexDigitValue(d: nat)
    requires d < 16
    ensures HexValue(HexDigit(d)) == d
  {
  }

  /** A control character escaped as `\u00XX` reads back as itself. */
  lemma UnescapeControl(c: char, tail: string)
    requires var n := c as int; n < 0x20 && c != '\t' && n != 8 && c != '\n' && c != '\r' && n != 12
    ensures Unescape(EscapeChar(c) + tail) == [c] + Unescape(tail)
  {
    var n := c as int;
    var e := EscapeChar(c);
    assert e == "\\u00" + [HexDigit(n / 16), HexDigit(n % 16)];
    var t := e + tail;
    assert t[0] == '\\' && t[1] == 'u' && t[6..] == tail;
    assert t[2..6] == ['0', '0', HexDigit(n / 16), HexDigit(n % 16)];
    HexDigitValue(n / 16);
    HexDigitValue(n % 16);
    assert HexChar(t[2..6]) == c;
  }

  /** The line and paragraph separators, escaped as `\u2028` and `\u2029`, read back as themselves. */
  lemma UnescapeSeparator(c: char, tail: string)
    requires c as int == 0x2028 || c as int == 0x2029
    ensures Unescape(EscapeChar(c) + tail) == [c] + Unescape(tail)
  {
    var t := EscapeChar(c) + tail;
    assert t[0] == '\\' && t[1] == 'u' && t[6..] == tail;
    assert HexChar(t[2..6]) == c;
  }

  /** A character with a two-character escape reads back as itself. */
  lemma UnescapeShort(c: char, tail: string)
    requires var n := c as int; c == '"' || c == '\\' || c == '\t' || n == 8 || c == '\n' || c == '\r' || n == 12
    ensures Unescape(EscapeChar(c) + tail) == [c] + Unescape(tail)
  {
    var t := EscapeChar(c) + tail;
    assert t[..2] == EscapeChar(c);
    assert t[2..] == tail;
  }

  /** Unescaping undoes the escape of one leading character. */
  lemma UnescapeChar(c: char, tail: string)
    ensures Unescape(EscapeChar(c) + tail) == [c] + Unescape(tail)
  {
    var n := c as int;
    if c == '"' || c == '\\' || c == '\t' || n == 8 || c == '\n' || c == '\r' || n == 12 {
      UnescapeShort(c, tail);
    } else if n < 0x20 {
      UnescapeControl(c, tail);
    } else if n == 0x2028 || n == 0x2029 {
      UnescapeSeparator(c, tail);
    } else {
      assert EscapeChar(c) == [c];
      assert (EscapeChar(c) + tail)[1..] == tail;
    }
  }

  /** Escaping loses nothing: distinct texts have distinct escapes. */
  lemma {:induction false} EscapeRoundTrip(s: string)
    ensures Unescape(Escape(s)) == s
  {
    if s != [] {
      UnescapeChar(s[0], Escape(s[1..]));
      EscapeRoundTrip(s[1..]);
    }
  }

  /** A JSON string literal. */
  function Quote(s: string): (r: string)
    ensures LineSafe(r)
  {
    "\"" + Escape(s) + "\""
  }

  /** Decimal digits of a natural number. */
  function NatText(n: nat): (r: string)
    ensures LineSafe(r) && |r| >= 1
  {
    if n < 10 then ["0123456789"[n]] else NatText(n / 10) + ["0123456789"[n % 10]]
  }

  /** A JSON number for a Java `int` or `long`. */
  function IntText(x: int): (r: string)
    ensures LineSafe(r)
  {
    if x < 0 then "-" + NatText(-x) else NatText(x)
  }

  /** The JSON tree the serializer builds from a record before writing it. */
  datatype Json =
    | JNull
    | JNumber(n: int)
    | JString(s: string)
    | JArray(items: seq<Json>)
    | JObject(members: seq<(string, Json)>)

  /** Pieces separated by commas. */
  function Join(parts: seq<string>): (r: string)
    ensures (forall i :: 0 <= i < |parts| ==> LineSafe(parts[i])) ==> LineSafe(r)
  {
    if parts == [] then []
    else if |parts| == 1 then parts[0]
    else parts[0] + "," + Join(parts[1..])
  }

  /** Compact JSON text of a tree: no whitespace, and never a line terminator. */
  function Write(j: Json): (r: string)
    ensures LineSafe(r)
    decreases j
  {
    match j
    case JNull => "null"
    case JNumber(n) => IntText(n)
    case JString(s) => Quote(s)
    case JArray(items) =>
      "[" + Join(seq(|items|, i requires 0 <= i < |items| => Write(items[i]))) + "]"
    case JObject(members) =>
      "{" + Join(seq(|members|, i requires 0 <= i < |members| =>
                       Quote(members[i].0) + ":" + Write(members[i].1))) + "}"
  }

  /** A string-valued field as an object member; a `null` field is left out of the object. */
  function StringField(name: string, v: Option<string>): (r: seq<(string, Json)>)
    ensures |r| == if v.Some? then 1 else 0
  {
    match v
    case None => []
    case Some(s) => [(name, JString(s))]
  }

  /** A peer record as the serializer sees it: fields in declaration order. */
  function PeerJson(p: PeerInfo): (j: Json) {
    JObject(StringField("id", p.id) + StringField("name", p.name) + StringField("host", p.host)
            + [("port", JNumber(p.port)), ("lastSeen", JNumber(p.lastSeen))])
  }

  /** A list of peers; a `null` element stays `null` inside the array. */
  function PeersJson(ps: seq<Option<PeerInfo>>): (j: Json)
    ensures j.JArray? && |j.items| == |ps|
  {
    JArray(seq(|ps|, i requires 0 <= i < |ps| =>
                 match ps[i] case None => JNull case Some(p) => PeerJson(p)))
  }

  /** A message as the serializer sees it: fields in declaration order, `null` ones left out. */
  function MessageJson(m: Message): (j: Json) {
    JObject(StringField("id", m.id) + StringField("type", m.kind) + StringField("fromId", m.fromId)
            + StringField("fromName", m.fromName) + StringField("text", m.text)
            + [("timestamp", JNumber(m.timestamp))]
            + match m.peers case None => [] case Some(ps) => [("peers", PeersJson(ps))])
  }

  /** One message as one line of text: it never contains a line terminator. */
  function Encode(m: Message): (r: string)
    ensures LineSafe(r)
  {
    Write(MessageJson(m))
  }

  /** What the writer loop puts on the stream for a queue of lines: each followed by "\n". */
  function Frame(lines: seq<string>): (s: string) {
    if lines == [] then [] else lines[0] + "\n" + Frame(lines[1..])
  }

  /** Framing distributes over concatenation of line sequences. */
  lemma {:induction false} FrameConcat(a: seq<string>, b: seq<string>)
    ensures Frame(a + b) == Frame(a) + Frame(b)
  {
    if a == [] {
      assert a + b == b;
    } else {
      assert (a + b)[1..] == a[1..] + b;
      FrameConcat(a[1..], b);
    }
  }

  /** The index of the first line terminator in `s`, or `|s|` when there is none. */
  function TerminatorAt(s: string): (i: nat)
    ensures i <= |s|
    ensures forall j :: 0 <= j < i ==> s[j] != '\n' && s[j] != '\r'
    ensures i < |s| ==> s[i] == '\n' || s[i] == '\r'
  {
    if s == [] || s[0] == '\n' || s[0] == '\r' then 0 else 1 + TerminatorAt(s[1..])
  }

  /**
   * The lines successive `readLine` calls return until they return `null`: a line
   * ends at "\n", "\r" or "\r\n"; text after the last terminator is a final line.
   */
  function ReadLines(s: string): seq<string>
    decreases |s|
  {
    if s == [] then []
    else
      var i := TerminatorAt(s);
      if i == |s| then [s]
      else
        var skip := if s[i] == '\r' && i + 1 < |s| && s[i + 1] == '\n' then 2 else 1;
        [s[..i]] + ReadLines(s[i + skip..])
  }

  /**
   * Newline framing round trip: when no line contains a terminator, reading the
   * written stream line by line yields the queued lines in order.
   */
  lemma {:induction false} FramingRoundTrip(lines: seq<string>)
    requires forall i :: 0 <= i < |lines| ==> LineSafe(lines[i])
    ensures ReadLines(Frame(lines)) == lines
  {
    if lines != [] {
      var l := lines[0];
      var s := Frame(lines);
      assert s == l + "\n" + Frame(lines[1..]);
      assert forall j :: 0 <= j < |l| ==> s[j] == l[j];
      assert s[|l|] == '\n';
      assert TerminatorAt(s) == |l|;
      assert s[..|l|] == l;
      assert s[|l| + 1..] == Frame(lines[1..]);
      FramingRoundTrip(lines[1..]);
    }
  }

  /** The encodings of a sequence of messages, one line each, in order. */
  function Encodings(ms: seq<Message>): (lines: seq<string>)
    ensures |lines| == |ms|
    ensures forall i :: 0 <= i < |lines| ==> LineSafe(lines[i])
  {
    if ms == [] then [] else [Encode(ms[0])] + Encodings(ms[1..])
  }

  /** The line for each message is its encoding. */
  lemma {:induction false} EncodingsAt(ms: seq<Message>, i: nat)
    requires i < |ms|
    ensures Encodings(ms)[i] == Encode(ms[i])
    decreases i
  {
    if i > 0 {
      EncodingsAt(ms[1..], i - 1);
    }
  }

  /** Every message survives the trip through a writer and a reader unchanged in order. */
  lemma MessagesRoundTrip(ms: seq<Message>)
    ensures ReadLines(Frame(Encodings(ms))) == Encodings(ms)
  {
    FramingRoundTrip(Encodings(ms));
  }
}
