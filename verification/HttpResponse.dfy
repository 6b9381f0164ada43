/**
 Building responses, and recovering their bodies from a byte stream by the first
 blank line and the decimal Content-Length (section 3.3.3 of RFC 7230), with the
 same parser, header lookup and number conversion the proxy uses.
 */
module HttpResponse {
  import opened Counting
  import opened Numbers
  import opened Text
  import opened HttpRequest
  import opened Proxy

  datatype Response = Response(status: int, text: string, contentType: string, body: string, keepAlive: bool)

  /** Header lines from a list of names and values. */
  function Lines(hs: seq<(string, string)>): string
  {
    if hs == [] then "" else HeaderLine(hs[0].0, hs[0].1) + Lines(hs[1..])
  }

  /** A message with a three-part start line. */
  function Message(a: string, b: string, c: string, hs: seq<(string, string)>, body: string): string
  {
    StartLine(HttpInfo(a, b, c, map[], "")) + (Lines(hs) + ("\r\n" + body))
  }

  function ResponseHeaders(r: Response): seq<(string, string)>
  {
    [("Content-Type", r.contentType), ("Content-Length", Decimal(|r.body|)),
     ("Connection", if r.keepAlive then "keep-alive" else "close")]
  }

  /** The bytes of a response. */
  function BuildResponse(r: Response): string
  {
    Message("HTTP/1.1", Signed(r.status), r.text, ResponseHeaders(r), r.body)
  }

  // ---- Taking a stream apart -----------------------------------------------

  predicate IsSpace(c: char) {
    c == ' ' || '\t' <= c <= '\r'
  }

  function SkipSpace(s: string): string
  {
    if s != "" && IsSpace(s[0]) then SkipSpace(s[1..]) else s
  }

  /** The leading digits as a number; None without digits or when it does not fit. */
  function Unsigned(u: string): Option<nat>
  {
    var n := DigitRun(u);
    if n == 0 || DigitsValue(u[..n]) >= TWO_64 then None else Some(DigitsValue(u[..n]))
  }

  function Negated(v: Option<nat>): Option<nat>
    requires v.Some? ==> v.value < TWO_64
  {
    match v
    case None => None
    case Some(n) => Some(if n == 0 then 0 else TWO_64 - n)
  }

  /** `std::stoull`: leading spaces, an optional sign, digits; None where it throws. */
  function Stoull(s: string): Option<nat>
  {
    var t := SkipSpace(s);
    if t != "" && t[0] == '-' then Negated(Unsigned(t[1..]))
    else if t != "" && t[0] == '+' then Unsigned(t[1..])
    else Unsigned(t)
  }

  /** Some order in which the header map is iterated. */
  ghost function Enumerate(keys: set<string>): (order: seq<string>)
    ensures forall k :: k in order <==> k in keys
  {
    if keys == {} then [] else
      var k :| k in keys;
      [k] + Enumerate(keys - {k})
  }

  /** The body length headers announce: 0 when the number cannot be read, None without the header. */
  function Announced(headers: map<string, string>, order: seq<string>): Option<nat>
    requires forall k :: k in order ==> k in headers
  {
    var value := HeaderGet(headers, order, "Content-Length");
    if value == "" then None
    else match Stoull(value)
      case None => Some(0)
      case Some(n) => Some(n)
  }

  ghost function AnnouncedLength(stream: string): Option<nat>
  {
    var headers := Parse(stream).headers;
    Announced(headers, Enumerate(headers.Keys))
  }

  /** Split a stream whose head ends at `p` and announces `length` bytes. */
  function Cut(stream: string, p: nat, length: Option<nat>): (r: Option<(string, string)>)
    ensures r.Some? ==> |r.value.1| < |stream|
  {
    if p + 4 > |stream| || length.None? || |stream| < p + 4 + length.value then None
    else Some((stream[p + 4..p + 4 + length.value], stream[p + 4 + length.value..]))
  }

  /** The body of the first message of the stream, and what follows it. */
  ghost function TakeFirst(stream: string): (r: Option<(string, string)>)
    ensures r.Some? ==> |r.value.1| < |stream|
  {
    Cut(stream, Find(stream, END_OF_HEAD), AnnouncedLength(stream))
  }

  /** The bodies of all messages of the stream. */
  ghost function Bodies(stream: string): Option<seq<string>>
    decreases |stream|
  {
    if stream == "" then Some([])
    else match TakeFirst(stream)
      case None => None
      case Some((body, rest)) =>
        match Bodies(rest)
        case None => None
        case Some(more) => Some([body] + more)
  }

  // ---- Where the head ends -------------------------------------------------

  lemma FindSkipOne(s: string, pat: string)
    requires pat != "" && s != "" && !OccursAt(s, pat, 0)
    ensures Find(s, pat) == 1 + Find(s[1..], pat)
  {
    if |s| >= |pat| {
      assert s[0..|pat|] == s[..|pat|];
    }
  }

  /** Skipping positions at which the pattern does not occur. */
  lemma {:induction false} FindSkip(s: string, pat: string, n: nat)
    requires pat != "" && n <= |s| && forall i :: 0 <= i < n ==> !OccursAt(s, pat, i)
    ensures Find(s, pat) == n + Find(s[n..], pat)
    decreases n
  {
    if n == 0 {
      assert s[0..] == s;
    } else {
      FindSkipOne(s, pat);
      forall i | 0 <= i < n - 1
        ensures !OccursAt(s[1..], pat, i)
      {
        OccursInTail(s, pat, i + 1);
      }
      FindSkip(s[1..], pat, n - 1);
      assert s[1..][n - 1..] == s[n..];
    }
  }

  /** The text of one line with more than one character. */
  ghost predicate OneLine(line: string) {
    |line| >= 2 && '\n' !in line
  }

  /** The text does not start with a blank line. */
  ghost predicate NotBlank(tail: string) {
    |tail| >= 2 && tail[1] != '\n'
  }

  /** The text, ended by a line break, contains no blank line. */
  ghost predicate NoEndWithin(text: string) {
    forall i :: 0 <= i < |text| ==> !OccursAt(text + "\r\n", END_OF_HEAD, i)
  }

  lemma OneLineNoEnd(line: string)
    requires OneLine(line)
    ensures NoEndWithin(line)
  {
    var s := line + "\r\n";
    forall i | 0 <= i < |line|
      ensures !OccursAt(s, END_OF_HEAD, i)
    {
      if i + 4 <= |s| {
        assert s[i..i + 4][1] == line[i + 1];
      }
    }
  }

  lemma NoEndInside(text: string, tail: string, i: nat)
    requires NoEndWithin(text) && i < |text|
    ensures !OccursAt(text + "\r\n" + tail, END_OF_HEAD, i)
  {
    var s, t := text + "\r\n" + tail, text + "\r\n";
    assert !OccursAt(t, END_OF_HEAD, i);
    if i + 4 <= |t| {
      assert s[i..i + 4] == t[i..i + 4];
    } else if i + 4 <= |s| {
      assert s[i..i + 4][1] == '\r';
    }
  }

  lemma EndAfterLine(line: string, tail: string)
    requires OneLine(line)
    ensures Find(line + "\r\n" + ("\r\n" + tail), END_OF_HEAD) == |line|
  {
    var s := line + "\r\n" + ("\r\n" + tail);
    OneLineNoEnd(line);
    forall i | 0 <= i < |line|
      ensures !OccursAt(s, END_OF_HEAD, i)
    {
      NoEndInside(line, "\r\n" + tail, i);
    }
    assert s[|line|..|line| + 4] == END_OF_HEAD;
    FindUnique(s, END_OF_HEAD, |line|);
  }

  lemma NoEndAtBreak(text: string, tail: string, i: nat)
    requires NotBlank(tail) && |text| <= i < |text| + 2
    ensures !OccursAt(text + "\r\n" + tail, END_OF_HEAD, i)
  {
    var s := text + "\r\n" + tail;
    if i + 4 <= |s| {
      if i == |text| {
        assert s[i..i + 4][3] == tail[1];
      } else {
        assert s[i..i + 4][0] == '\n';
      }
    }
  }

  lemma EndBeyond(text: string, tail: string)
    requires NoEndWithin(text) && NotBlank(tail)
    ensures Find(text + "\r\n" + tail, END_OF_HEAD) == |text| + 2 + Find(tail, END_OF_HEAD)
  {
    var s := text + "\r\n" + tail;
    forall i | 0 <= i < |text| + 2
      ensures !OccursAt(s, END_OF_HEAD, i)
    {
      if i < |text| {
        NoEndInside(text, tail, i);
      } else {
        NoEndAtBreak(text, tail, i);
      }
    }
    FindSkip(s, END_OF_HEAD, |text| + 2);
    assert s[|text| + 2..] == tail;
  }

  ghost predicate PlainHeaders(hs: seq<(string, string)>) {
    forall i :: 0 <= i < |hs| ==> PlainHeader(hs[i].0, hs[i].1)
  }

  /** Headers that print as one line each. */
  ghost predicate LineHeaders(hs: seq<(string, string)>) {
    forall i :: 0 <= i < |hs| ==> '\n' !in hs[i].0 && '\n' !in hs[i].1
  }

  lemma HeaderIsOneLine(key: string, value: string, tail: string)
    requires '\n' !in key && '\n' !in value
    ensures OneLine(key + ": " + value)
    ensures HeaderLine(key, value) + tail == (key + ": " + value) + "\r\n" + tail && NotBlank(HeaderLine(key, value) + tail)
  {
    var line := key + ": " + value;
    assert (line + "\r\n" + tail)[1] == line[1];
  }

  /** After the header lines, the first blank line is the one that was printed. */
  lemma {:induction false} EndOfLines(hs: seq<(string, string)>, tail: string)
    requires hs != [] && LineHeaders(hs)
    ensures Find(Lines(hs) + ("\r\n" + tail), END_OF_HEAD) == |Lines(hs)| - 2 && |Lines(hs)| >= 2
    ensures NotBlank(Lines(hs) + ("\r\n" + tail))
  {
    var (key, value) := hs[0];
    var rest := Lines(hs[1..]) + ("\r\n" + tail);
    assert Lines(hs) + ("\r\n" + tail) == HeaderLine(key, value) + rest;
    HeaderIsOneLine(key, value, rest);
    if |hs| == 1 {
      assert rest == "\r\n" + tail;
      EndAfterLine(key + ": " + value, tail);
    } else {
      EndOfLines(hs[1..], tail);
      OneLineNoEnd(key + ": " + value);
      EndBeyond(key + ": " + value, rest);
    }
  }

  /** In a printed message whose start line contains no blank line, the first blank line ends the head. */
  lemma EndOfHead(a: string, b: string, c: string, hs: seq<(string, string)>, body: string)
    requires NoEndWithin(a + " " + b + " " + c) && hs != [] && LineHeaders(hs)
    ensures
      var m := Message(a, b, c, hs, body);
      var p := Find(m, END_OF_HEAD);
      p + 4 <= |m| && m[p + 4..] == body
  {
    var rest := Lines(hs) + ("\r\n" + body);
    var line := a + " " + b + " " + c;
    EndOfLines(hs, body);
    assert Message(a, b, c, hs, body) == line + "\r\n" + rest;
    EndBeyond(line, rest);
    assert rest[|Lines(hs)| + 2..] == body;
  }

  // ---- The headers that come back ------------------------------------------

  ghost function Paired(acc: map<string, string>, hs: seq<(string, string)>): map<string, string>
    decreases |hs|
  {
    if hs == [] then acc else Paired(acc[hs[0].0 := hs[0].1], hs[1..])
  }

  lemma {:induction false} ReadLines(acc: map<string, string>, hs: seq<(string, string)>, rest: string)
    requires PlainHeaders(hs)
    ensures ParseHeaders(Lines(hs) + rest, acc) == ParseHeaders(rest, Paired(acc, hs))
    decreases |hs|
  {
    if hs == [] {
      assert Lines(hs) + rest == rest;
    } else {
      var (key, value) := hs[0];
      assert PlainHeader(key, value);
      NoColon(key);
      var rest' := Lines(hs[1..]) + rest;
      assert Lines(hs) + rest == key + ": " + value + "\r\n" + rest';
      ReadHeaderLine(key, value, rest', acc);
      ReadLines(acc[key := value], hs[1..], rest);
    }
  }

  lemma ReadMessage(a: string, b: string, c: string, hs: seq<(string, string)>, body: string)
    requires ' ' !in a && ' ' !in b && '\r' !in c && PlainHeaders(hs)
    ensures Parse(Message(a, b, c, hs, body)) == HttpInfo(a, b, c, Paired(map[], hs), body)
  {
    ReadLines(map[], hs, "\r\n" + body);
    ReadBlankLine(body, Paired(map[], hs));
    ReadStartLine(HttpInfo(a, b, c, map[], ""), Lines(hs) + ("\r\n" + body));
  }

  lemma PairedThree(h0: (string, string), h1: (string, string), h2: (string, string))
    ensures Paired(map[], [h0, h1, h2]) == map[h0.0 := h0.1][h1.0 := h1.1][h2.0 := h2.1]
  {
    assert [h0, h1, h2][1..] == [h1, h2] && [h1, h2][1..] == [h2];
    assert Paired(map[h0.0 := h0.1][h1.0 := h1.1], [h2]) == map[h0.0 := h0.1][h1.0 := h1.1][h2.0 := h2.1];
    assert Paired(map[h0.0 := h0.1], [h1, h2]) == Paired(map[h0.0 := h0.1][h1.0 := h1.1], [h2]);
  }

  /** Among three headers whose names have different lengths, the lookup finds the middle one. */
  lemma MiddleHeader(h0: (string, string), h1: (string, string), h2: (string, string))
    requires |h0.0| != |h1.0| && |h2.0| != |h1.0|
    ensures
      var headers := Paired(map[], [h0, h1, h2]);
      HeaderGet(headers, Enumerate(headers.Keys), h1.0) == h1.1
  {
    var hs := [h0, h1, h2];
    var headers := Paired(map[], hs);
    PairedThree(h0, h1, h2);
    var order := Enumerate(headers.Keys);
    forall k | k in order && SameName(k, h1.0)
      ensures k == h1.0
    {
      assert |k| == |h1.0|;
    }
    HeaderGetUnique(headers, order, h1.0, h1.0);
  }

  lemma DecimalReadsBack(n: nat)
    requires n < TWO_64
    ensures Stoull(Decimal(n)) == Some(n)
  {
    var s := Decimal(n);
    assert IsDigit(s[0]);
    DecimalValue(n);
    DigitRunAll(s);
    assert s[..|s|] == s;
  }

  lemma {:induction false} SkipsSpace(ws: string, t: string)
    requires (forall i :: 0 <= i < |ws| ==> IsSpace(ws[i])) && (t == "" || !IsSpace(t[0]))
    ensures SkipSpace(ws + t) == t
    decreases |ws|
  {
    if ws == "" {
      assert ws + t == t;
    } else {
      assert (ws + t)[1..] == ws[1..] + t;
      SkipsSpace(ws[1..], t);
    }
  }

  /** A space, or one of the five control characters from tab to carriage return. */
  ghost predicate Spaces(ws: string) {
    forall i :: 0 <= i < |ws| ==> ws[i] == ' ' || 9 <= ws[i] as int <= 13
  }

  /** What is read behind the spaces, by the sign that is there. */
  lemma StoullSigned(ws: string, t: string)
    requires Spaces(ws) && t != "" && !IsSpace(t[0])
    ensures
      Stoull(ws + t) ==
      if t[0] == '-' then Negated(Unsigned(t[1..])) else if t[0] == '+' then Unsigned(t[1..]) else Unsigned(t)
  {
    SkipsSpace(ws, t);
  }

  lemma SignInFront(sign: string, u: string)
    requires sign == "+" || sign == "-"
    ensures (sign + u)[0] == sign[0] && (sign + u)[1..] == u
  {
  }

  /** Digits behind spaces and a sign, whatever follows them, are read by the worth of their places; a minus wraps around. */
  lemma StoullReads(ws: string, sign: string, ds: string, tail: string)
    requires Spaces(ws) && (sign == "" || sign == "+" || sign == "-")
    requires ds != "" && (forall i :: 0 <= i < |ds| ==> IsDigit(ds[i])) && (tail == "" || !IsDigit(tail[0]))
    ensures ReadsAs(Stoull(ws + (sign + (ds + tail))), sign, PlaceValue(ds))
  {
    var u := ds + tail;
    UnsignedReads(ds, tail);
    StartsWithDigit(ds, tail);
    ReadsBySign(Unsigned(u), sign, PlaceValue(ds));
    StoullOf(ws, sign, u);
  }

  /** The number a sign and a magnitude give, if the magnitude fits. */
  ghost predicate ReadsAs(read: Option<nat>, sign: string, worth: int) {
    && worth >= 0
    && read ==
       if worth >= TWO_64 then None else if sign == "-" && worth > 0 then Some(TWO_64 - worth) else Some(worth)
  }

  lemma ReadsBySign(v: Option<nat>, sign: string, worth: int)
    requires worth >= 0 && v == if worth >= TWO_64 then None else Some(worth)
    ensures ReadsAs(if sign == "-" then Negated(v) else v, sign, worth)
  {
  }

  lemma StoullOf(ws: string, sign: string, u: string)
    requires Spaces(ws) && (sign == "" || sign == "+" || sign == "-") && u != "" && IsDigit(u[0])
    ensures Stoull(ws + (sign + u)) == if sign == "-" then Negated(Unsigned(u)) else Unsigned(u)
  {
    if sign == "" {
      assert sign + u == u;
    } else {
      SignInFront(sign, u);
    }
    StoullSigned(ws, sign + u);
  }

  lemma StartsWithDigit(ds: string, tail: string)
    requires ds != "" && (forall i :: 0 <= i < |ds| ==> IsDigit(ds[i]))
    ensures IsDigit((ds + tail)[0])
  {
    assert (ds + tail)[0] == ds[0];
  }

  lemma UnsignedReads(ds: string, tail: string)
    requires (forall i :: 0 <= i < |ds| ==> IsDigit(ds[i])) && (tail == "" || !IsDigit(tail[0]))
    ensures PlaceValue(ds) >= 0
    ensures Unsigned(ds + tail) == if ds == "" || PlaceValue(ds) >= TWO_64 then None else Some(PlaceValue(ds))
  {
    DigitsAreWorth(ds);
    DigitRunIs(ds, tail);
    assert (ds + tail)[..|ds|] == ds;
  }

  /** No header, or an empty one, announces nothing; a number that cannot be read announces an empty body. */
  lemma AnnouncedIs(headers: map<string, string>, order: seq<string>)
    requires forall k :: k in order ==> k in headers
    ensures
      var value := HeaderGet(headers, order, "Content-Length");
      && (value == "" <==> Announced(headers, order) == None)
      && (value != "" && Stoull(value) == None ==> Announced(headers, order) == Some(0))
      && (value != "" && Stoull(value) != None ==> Announced(headers, order) == Stoull(value))
  {
  }

  /** Without a digit behind the spaces and the sign there is no number. */
  lemma StoullFails(ws: string, sign: string, tail: string)
    requires Spaces(ws) && (sign == "" || sign == "+" || sign == "-") && (tail == "" || !IsDigit(tail[0]))
    requires sign == "" && tail != "" ==> !IsSpace(tail[0]) && tail[0] != '+' && tail[0] != '-'
    ensures Stoull(ws + (sign + tail)) == None
  {
    UnsignedReads("", tail);
    assert "" + tail == tail;
    SkipsSpace(ws, sign + tail);
    assert sign == "" ==> sign + tail == tail;
    assert sign != "" ==> (sign + tail)[1..] == tail;
  }

  // ---- Main result ---------------------------------------------------------

  /** The status text is part of one line, so is the content type, and the body size fits its type. */
  ghost predicate Framed(r: Response) {
    && '\r' !in r.text && '\n' !in r.text && '\n' !in r.contentType
    && |r.body| < TWO_64
  }

  lemma ResponseHeadersPlain(r: Response)
    requires Framed(r)
    ensures PlainHeaders(ResponseHeaders(r))
  {
    var hs := ResponseHeaders(r);
    var digits := Decimal(|r.body|);
    assert PlainHeader("Content-Type", r.contentType);
    assert '\r' !in digits && '\n' !in digits;
    assert PlainHeader("Content-Length", digits);
    assert PlainHeader("Connection", if r.keepAlive then "keep-alive" else "close");
  }

  /** Followed by anything, a response is a message whose body runs to the end of the stream. */
  lemma BuiltThenRest(r: Response, rest: string)
    ensures BuildResponse(r) + rest == Message("HTTP/1.1", Signed(r.status), r.text, ResponseHeaders(r), r.body + rest)
  {
  }

  /** `wants_keep_alive`: what a Connection header says, or the version's default. */
  predicate WantsKeepAlive(info: HttpInfo) {
    if "Connection" in info.headers then
      var value := info.headers["Connection"];
      Find(value, "close") == |value|
    else info.version == "HTTP/1.1"
  }

  /** A search for text whose first character does not occur fails. */
  lemma NotFound(s: string, pat: string)
    requires pat != "" && pat[0] !in s
    ensures Find(s, pat) == |s|
  {
  }

  /** A message asks for keep-alive unless its Connection header mentions close anywhere, or it has none and is not HTTP/1.1. */
  lemma KeepAliveIff(info: HttpInfo)
    ensures
      WantsKeepAlive(info) <==>
      if "Connection" in info.headers then !exists i :: OccursAt(info.headers["Connection"], "close", i)
      else info.version == "HTTP/1.1"
  {
    if "Connection" in info.headers {
      var value := info.headers["Connection"];
      if Find(value, "close") == |value| {
        forall i: nat
          ensures !OccursAt(value, "close", i)
        {
          if i < |value| {
            FindIsFirst(value, "close", i);
          }
        }
      }
    }
  }

  lemma FoundAtOnce(s: string)
    requires s != ""
    ensures Find(s, s) == 0
  {
    assert s[..|s|] == s;
  }

  lemma KeepAliveWords()
    ensures Find("keep-alive", "close") == |"keep-alive"| && Find("close", "close") == 0
  {
    NotFound("keep-alive", "close");
    FoundAtOnce("close");
  }

  lemma ReadBuilt(r: Response, rest: string)
    requires Framed(r)
    ensures
      Parse(BuildResponse(r) + rest) ==
      HttpInfo("HTTP/1.1", Signed(r.status), r.text, Paired(map[], ResponseHeaders(r)), r.body + rest)
  {
    BuiltThenRest(r, rest);
    ResponseHeadersPlain(r);
    ReadMessage("HTTP/1.1", Signed(r.status), r.text, ResponseHeaders(r), r.body + rest);
  }

  /**
   A response read back gives every field it was built from, whatever follows it: the status in
   decimal, its text, exactly the three headers with the content type, the body's length in decimal
   and the keep-alive decision, and the body.
   */
  lemma ResponseReadsBack(r: Response, rest: string)
    requires Framed(r)
    ensures
      var info := Parse(BuildResponse(r) + rest);
      && info.verb == "HTTP/1.1" && Denotes(info.url, r.status) && info.version == r.text && info.body == r.body + rest
      && info.headers.Keys == {"Content-Type", "Content-Length", "Connection"}
      && info.headers["Content-Type"] == r.contentType
      && Denotes(info.headers["Content-Length"], |r.body|)
      && info.headers["Connection"] == (if r.keepAlive then "keep-alive" else "close")
  {
    ReadBuilt(r, rest);
    var hs := ResponseHeaders(r);
    PairedThree(hs[0], hs[1], hs[2]);
    SignedDenotes(r.status);
    SignedDenotes(|r.body|);
  }

  /** A status of three digits is announced as its hundreds, tens and ones. */
  lemma StatusReadsBack(r: Response, rest: string)
    requires Framed(r) && 100 <= r.status <= 999
    ensures
      var word := Parse(BuildResponse(r) + rest).url;
      && |word| == 3
      && 100 * (word[0] as int - '0' as int) + 10 * (word[1] as int - '0' as int) + (word[2] as int - '0' as int) == r.status
  {
    ReadBuilt(r, rest);
    ThreeDigits(r.status);
  }

  lemma LastHeader(h0: (string, string), h1: (string, string), h2: (string, string))
    ensures
      var headers := Paired(map[], [h0, h1, h2]);
      h2.0 in headers && headers[h2.0] == h2.1
  {
    PairedThree(h0, h1, h2);
  }

  /** The keep-alive decision read from a built response is the one it was built with. */
  lemma KeepAliveAnnounced(r: Response, rest: string)
    requires Framed(r)
    ensures WantsKeepAlive(Parse(BuildResponse(r) + rest)) == r.keepAlive
  {
    var hs := ResponseHeaders(r);
    ReadBuilt(r, rest);
    LastHeader(hs[0], hs[1], hs[2]);
    KeepAliveWords();
  }

  /** A response announces the length of its body. */
  lemma LengthAnnounced(r: Response, rest: string)
    requires Framed(r)
    ensures AnnouncedLength(BuildResponse(r) + rest) == Some(|r.body|)
  {
    var hs := ResponseHeaders(r);
    ReadBuilt(r, rest);
    MiddleHeader(hs[0], hs[1], hs[2]);
    DecimalReadsBack(|r.body|);
  }

  lemma CutAfterHead(stream: string, p: nat, body: string, rest: string)
    requires p + 4 <= |stream| && stream[p + 4..] == body + rest
    ensures Cut(stream, p, Some(|body|)) == Some((body, rest))
  {
    var n := |body|;
    assert stream[p + 4..p + 4 + n] == stream[p + 4..][..n] == body;
    assert stream[p + 4 + n..] == stream[p + 4..][n..] == rest;
  }

  lemma StatusLineNoEnd(r: Response)
    requires Framed(r)
    ensures NoEndWithin("HTTP/1.1" + " " + Signed(r.status) + " " + r.text)
  {
    assert '\n' !in Signed(r.status);
    OneLineNoEnd("HTTP/1.1" + " " + Signed(r.status) + " " + r.text);
  }

  lemma HeadThenBody(r: Response, rest: string)
    requires Framed(r)
    ensures
      var stream := BuildResponse(r) + rest;
      var p := Find(stream, END_OF_HEAD);
      p + 4 <= |stream| && stream[p + 4..] == r.body + rest
  {
    BuiltThenRest(r, rest);
    ResponseHeadersPlain(r);
    StatusLineNoEnd(r);
    EndOfHead("HTTP/1.1", Signed(r.status), r.text, ResponseHeaders(r), r.body + rest);
  }

  lemma CutBuilt(r: Response, rest: string, stream: string)
    requires Framed(r) && stream == BuildResponse(r) + rest
    ensures Cut(stream, Find(stream, END_OF_HEAD), Some(|r.body|)) == Some((r.body, rest))
  {
    HeadThenBody(r, rest);
    CutAfterHead(stream, Find(stream, END_OF_HEAD), r.body, rest);
  }

  lemma TakeIsCut(stream: string, length: nat)
    requires AnnouncedLength(stream) == Some(length)
    ensures TakeFirst(stream) == Cut(stream, Find(stream, END_OF_HEAD), Some(length))
  {
  }

  /** A built response is taken off the front of any stream with exactly its body. */
  lemma TakeBuilt(r: Response, rest: string)
    requires Framed(r)
    ensures TakeFirst(BuildResponse(r) + rest) == Some((r.body, rest))
  {
    var stream := BuildResponse(r) + rest;
    LengthAnnounced(r, rest);
    TakeIsCut(stream, |r.body|);
    CutBuilt(r, rest, stream);
  }

  function Joined(rs: seq<Response>): string
  {
    if rs == [] then "" else BuildResponse(rs[0]) + Joined(rs[1..])
  }

  ghost function BodiesOf(rs: seq<Response>): seq<string>
  {
    if rs == [] then [] else [rs[0].body] + BodiesOf(rs[1..])
  }

  /**
   For any list of responses with no line break in status text and content type,
   splitting their concatenation by first blank line and Content-Length gives back
   exactly the bodies, in order.
   */
  lemma {:induction false} BodiesRecovered(rs: seq<Response>)
    requires forall i :: 0 <= i < |rs| ==> Framed(rs[i])
    ensures Bodies(Joined(rs)) == Some(BodiesOf(rs))
  {
    if rs == [] {
    } else {
      TakeBuilt(rs[0], Joined(rs[1..]));
      BodiesRecovered(rs[1..]);
    }
  }
}
