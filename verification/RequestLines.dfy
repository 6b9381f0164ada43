/**
 What a header line means to the parser, on whole requests: appended to any head, a line with a
 separator sets exactly its header to exactly its value, and a line without a colon sets nothing.
 */
module RequestLines {
  import opened Text
  import opened HttpRequest

  /** A line as it arrives, without its line feed: neither a line feed nor blank. */
  ghost predicate IsLine(raw: string) {
    '\n' !in raw && raw != "" && raw != "\r"
  }

  /** A line may end with a carriage return, which is not part of its text. */
  ghost predicate Writes(raw: string, text: string) {
    raw == text + "\r" || (raw == text && text != "" && text[|text| - 1] != '\r')
  }

  /** The lines of a head, each with its line feed. */
  function Joined(lines: seq<string>): string
    decreases |lines|
  {
    if lines == [] then "" else lines[0] + "\n" + Joined(lines[1..])
  }

  /** A request with these lines between its start line and the blank line. */
  function RequestOf(info: HttpInfo, lines: seq<string>, body: string): string {
    StartLine(info) + (Joined(lines) + ("\r\n" + body))
  }

  ghost predicate PlainStart(info: HttpInfo) {
    ' ' !in info.verb && ' ' !in info.url && '\r' !in info.version
  }

  ghost predicate AllLines(lines: seq<string>) {
    forall i :: 0 <= i < |lines| ==> IsLine(lines[i])
  }

  // ---- Reading lines one by one --------------------------------------------

  ghost function Collected(headers: map<string, string>, lines: seq<string>): map<string, string>
    decreases |lines|
  {
    if lines == [] then headers else Collected(AddHeader(headers, StripCr(lines[0])), lines[1..])
  }

  lemma ReadLine(raw: string, rest: string, headers: map<string, string>)
    requires IsLine(raw)
    ensures ParseHeaders(raw + "\n" + rest, headers) == ParseHeaders(rest, AddHeader(headers, StripCr(raw)))
  {
    GetLineOf(raw, '\n', rest);
  }

  lemma {:induction false} ReadJoined(lines: seq<string>, rest: string, headers: map<string, string>)
    requires AllLines(lines)
    ensures ParseHeaders(Joined(lines) + rest, headers) == ParseHeaders(rest, Collected(headers, lines))
    decreases |lines|
  {
    if lines == [] {
      assert Joined(lines) + rest == rest;
    } else {
      var more := Joined(lines[1..]);
      assert Joined(lines) + rest == lines[0] + "\n" + (more + rest);
      ReadLine(lines[0], more + rest, headers);
      ReadJoined(lines[1..], rest, AddHeader(headers, StripCr(lines[0])));
    }
  }

  lemma ReadRequest(info: HttpInfo, lines: seq<string>, body: string)
    requires PlainStart(info) && AllLines(lines)
    ensures Parse(RequestOf(info, lines, body)) == HttpInfo(info.verb, info.url, info.version, Collected(map[], lines), body)
  {
    ReadStartLine(info, Joined(lines) + ("\r\n" + body));
    ReadJoined(lines, "\r\n" + body, map[]);
    ReadBlankLine(body, Collected(map[], lines));
  }

  lemma {:induction false} CollectedLast(headers: map<string, string>, lines: seq<string>, raw: string)
    ensures Collected(headers, lines + [raw]) == AddHeader(Collected(headers, lines), StripCr(raw))
    decreases |lines|
  {
    if lines == [] {
      assert lines + [raw] == [raw];
      assert [raw][1..] == [];
    } else {
      assert (lines + [raw])[1..] == lines[1..] + [raw];
      CollectedLast(AddHeader(headers, StripCr(lines[0])), lines[1..], raw);
    }
  }

  lemma StripWritten(raw: string, text: string)
    requires Writes(raw, text)
    ensures StripCr(raw) == text
  {
  }

  // ---- What a line means ---------------------------------------------------

  ghost predicate HasSeparator(s: string) {
    exists i :: 0 <= i < |s| - 1 && s[i] == ':' && s[i + 1] == ' '
  }

  lemma SeparatorFound(s: string)
    ensures Find(s, ": ") < |s| <==> HasSeparator(s)
  {
    var r := Find(s, ": ");
    if r < |s| {
      assert s[r..r + 2][0] == s[r] && s[r..r + 2][1] == s[r + 1];
    } else {
      forall i | 0 <= i < |s| - 1
        ensures !(s[i] == ':' && s[i + 1] == ' ')
      {
        FindIsFirst(s, ": ", i);
        assert s[i..i + 2] == [s[i], s[i + 1]];
      }
    }
  }

  lemma AddSpaced(headers: map<string, string>, key: string, value: string)
    requires !HasSeparator(key)
    ensures AddHeader(headers, key + ": " + value) == headers[key := value]
  {
    SeparatorFound(key);
    SplitPrintedHeader(key, value, headers);
  }

  lemma AddUnspaced(headers: map<string, string>, key: string, value: string)
    requires ':' !in key && !HasSeparator(key + ":" + value)
    ensures AddHeader(headers, key + ":" + value) == headers[key := value]
  {
    var line := key + ":" + value;
    SeparatorFound(line);
    FindCharAfter(key, ':', value);
    assert key + [':'] + value == line;
    assert line[..|key|] == key && line[|key| + 1..] == value;
  }

  lemma AddNothing(headers: map<string, string>, line: string)
    requires ':' !in line
    ensures AddHeader(headers, line) == headers
  {
    SeparatorFound(line);
    FindChar(line, ':');
  }

  lemma RequestWithoutLines(info: HttpInfo, body: string)
    requires PlainStart(info)
    ensures Parse(RequestOf(info, [], body)) == HttpInfo(info.verb, info.url, info.version, map[], body)
  {
    ReadRequest(info, [], body);
  }

  /**
   A line "key: value", appended to the lines of any request, sets that header to that value and
   changes nothing else; so does "key:value" without a space; a line without a colon changes nothing.
   */
  lemma LineSetsHeader(info: HttpInfo, lines: seq<string>, body: string, raw: string, key: string, value: string)
    requires PlainStart(info) && AllLines(lines) && IsLine(raw)
    ensures
      var before, after := Parse(RequestOf(info, lines, body)), Parse(RequestOf(info, lines + [raw], body));
      && (Writes(raw, key + ": " + value) && !HasSeparator(key) ==> after == before.(headers := before.headers[key := value]))
      && (Writes(raw, key + ":" + value) && ':' !in key && !HasSeparator(key + ":" + value) ==>
            after == before.(headers := before.headers[key := value]))
      && (':' !in raw ==> after == before)
  {
    var headers := Collected(map[], lines);
    ReadRequest(info, lines, body);
    ReadRequest(info, lines + [raw], body);
    CollectedLast(map[], lines, raw);
    if Writes(raw, key + ": " + value) && !HasSeparator(key) {
      StripWritten(raw, key + ": " + value);
      AddSpaced(headers, key, value);
    }
    if Writes(raw, key + ":" + value) && ':' !in key && !HasSeparator(key + ":" + value) {
      StripWritten(raw, key + ":" + value);
      AddUnspaced(headers, key, value);
    }
    if ':' !in raw {
      AddNothing(headers, StripCr(raw));
    }
  }

  lemma GetAll(text: string, d: char)
    requires d !in text
    ensures GetLine(text, d) == if text == "" then Fail else Line(text, "")
  {
    FindChar(text, d);
  }

  /** A start line that breaks off leaves the parts that are there, no headers and no body. */
  lemma IncompleteStart(verb: string, url: string, version: string)
    requires ' ' !in verb && ' ' !in url && '\r' !in version
    ensures Parse(verb) == HttpInfo(verb, "", "", map[], "")
    ensures Parse(verb + " " + url) == HttpInfo(verb, url, "", map[], "")
    ensures Parse(verb + " " + url + " " + version) == HttpInfo(verb, url, version, map[], "")
  {
    GetAll(verb, ' ');
    GetAll(url, ' ');
    GetAll(version, '\r');
    assert verb + " " + url == verb + [' '] + url;
    GetLineOf(verb, ' ', url);
    assert verb + " " + url + " " + version == verb + [' '] + (url + [' '] + version);
    GetLineOf(verb, ' ', url + [' '] + version);
    GetLineOf(url, ' ', version);
  }
}
