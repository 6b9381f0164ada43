/**
 The request parser and the request printer.  The parser reads a string stream
 with getline; the stream is modelled by what is still unread.
 */
module HttpRequest {
  import opened Text

  datatype HttpInfo = HttpInfo(
    verb: string, url: string, version: string, headers: map<string, string>, body: string)

  // ---- Parsing -------------------------------------------------------------

  /** What `getline(stream, text, delim)` yields; it fails only when nothing is left. */
  datatype Read = Fail | Line(text: string, rest: string)

  function GetLine(unread: string, delim: char): Read
  {
    var i := Find(unread, [delim]);
    if unread == "" then Fail
    else if i == |unread| then Line(unread, "")
    else Line(unread[..i], unread[i + 1..])
  }

  function StripCr(line: string): string
  {
    if line != "" && line[|line| - 1] == '\r' then line[..|line| - 1] else line
  }

  /** A header line is split at the first ": ", else at the first ':'; a line with neither is ignored. */
  function AddHeader(headers: map<string, string>, line: string): map<string, string>
  {
    var two, one := Find(line, ": "), Find(line, ":");
    if two < |line| then headers[line[..two] := line[two + 2..]]
    else if one < |line| then headers[line[..one] := line[one + 1..]]
    else headers
  }

  predicate IsBlank(line: string) {
    line == "\r" || line == ""
  }

  /** Header lines up to a blank line; what follows the blank line is the body. */
  function ParseHeaders(unread: string, headers: map<string, string>): (map<string, string>, string)
    decreases |unread|
  {
    match GetLine(unread, '\n')
    case Fail => (headers, "")
    case Line(line, rest) =>
      if IsBlank(line) then (headers, rest) else ParseHeaders(rest, AddHeader(headers, StripCr(line)))
  }

  function Parse(request: string): HttpInfo
  {
    match GetLine(request, ' ')
    case Fail => HttpInfo("", "", "", map[], "")
    case Line(verb, r1) =>
      match GetLine(r1, ' ')
      case Fail => HttpInfo(verb, "", "", map[], "")
      case Line(url, r2) =>
        match GetLine(r2, '\r')
        case Fail => HttpInfo(verb, url, "", map[], "")
        case Line(version, r3) =>
          // stream.get() consumes one character, whatever it is
          var (headers, body) := ParseHeaders(if r3 == "" then "" else r3[1..], map[]);
          HttpInfo(verb, url, version, headers, body)
  }

  /** The loop over the stream, as written. */
  method ParseRequest(request: string) returns (info: HttpInfo)
    ensures info == Parse(request)
  {
    info := HttpInfo("", "", "", map[], "");
    var verb := GetLine(request, ' ');
    if verb.Fail? {
      return;
    }
    info := info.(verb := verb.text);
    var url := GetLine(verb.rest, ' ');
    if url.Fail? {
      return;
    }
    info := info.(url := url.text);
    var version := GetLine(url.rest, '\r');
    if version.Fail? {
      return;
    }
    info := info.(version := version.text);
    var unread := if version.rest == "" then "" else version.rest[1..];
    ghost var wanted := ParseHeaders(unread, map[]);
    while true
      invariant ParseHeaders(unread, info.headers) == wanted
      invariant info == HttpInfo(verb.text, url.text, version.text, info.headers, "")
      decreases |unread|
    {
      var line := GetLine(unread, '\n');
      if line.Fail? {
        break;
      }
      unread := line.rest;
      if IsBlank(line.text) {
        info := info.(body := unread);
        break;
      }
      info := info.(headers := AddHeader(info.headers, StripCr(line.text)));
    }
  }

  // ---- Printing ------------------------------------------------------------

  function HeaderLines(headers: map<string, string>, order: seq<string>): string
    requires forall k :: k in order ==> k in headers
  {
    if order == [] then ""
    else order[0] + ": " + headers[order[0]] + "\r\n" + HeaderLines(headers, order[1..])
  }

  function StartLine(info: HttpInfo): string
  {
    info.verb + " " + info.url + " " + info.version + "\r\n"
  }

  /** The printed request, with its headers in the given order. */
  function Print(info: HttpInfo, order: seq<string>): string
    requires forall k :: k in order ==> k in info.headers
  {
    StartLine(info) + (HeaderLines(info.headers, order) + ("\r\n" + info.body))
  }

  /** `order` lists every header once, as iterating the map does. */
  ghost predicate Lists(order: seq<string>, headers: map<string, string>) {
    && (forall k :: k in order <==> k in headers)
    && (forall i, j :: 0 <= i < j < |order| ==> order[i] != order[j])
  }

  // ---- What parsing can produce --------------------------------------------

  ghost predicate HeaderOk(key: string, value: string) {
    '\n' !in key && '\n' !in value && Find(key, ": ") == |key|
  }

  ghost predicate HeadersOk(headers: map<string, string>) {
    forall k :: k in headers ==> HeaderOk(k, headers[k])
  }

  /** The infos that survive printing and parsing again. */
  ghost predicate Printable(info: HttpInfo) {
    && ' ' !in info.verb && ' ' !in info.url && '\r' !in info.version
    && HeadersOk(info.headers)
  }

  lemma GetLineText(unread: string, delim: char)
    ensures GetLine(unread, delim).Line? ==>
      delim !in GetLine(unread, delim).text && |GetLine(unread, delim).rest| < |unread|
  {
    FindChar(unread, delim);
  }

  /** A key never contains the separator it was split at. */
  lemma SplitKey(line: string, i: nat)
    requires i <= Find(line, ": ")
    ensures Find(line[..i], ": ") == i
  {
    var key := line[..i];
    var f := Find(key, ": ");
    if f < i {
      assert key[f..f + 2] == line[f..f + 2];
      FindIsFirst(line, ": ", f);
    }
  }

  lemma AddHeaderOk(headers: map<string, string>, line: string)
    requires '\n' !in line && HeadersOk(headers)
    ensures HeadersOk(AddHeader(headers, line))
  {
    var two, one := Find(line, ": "), Find(line, ":");
    if two < |line| {
      SplitKey(line, two);
    } else if one < |line| {
      SplitKey(line, one);
    }
  }

  lemma StripCrLf(line: string)
    requires '\n' !in line
    ensures '\n' !in StripCr(line)
  {
  }

  lemma {:induction false} ParseHeadersOk(unread: string, headers: map<string, string>)
    requires HeadersOk(headers)
    ensures HeadersOk(ParseHeaders(unread, headers).0)
    decreases |unread|
  {
    GetLineText(unread, '\n');
    match GetLine(unread, '\n')
    case Fail =>
    case Line(line, rest) =>
      if !IsBlank(line) {
        StripCrLf(line);
        AddHeaderOk(headers, StripCr(line));
        ParseHeadersOk(rest, AddHeader(headers, StripCr(line)));
      }
  }

  /** Whatever the input, the parsed fields can be printed and read back. */
  lemma ParseIsPrintable(request: string)
    ensures Printable(Parse(request))
  {
    GetLineText(request, ' ');
    match GetLine(request, ' ')
    case Fail =>
    case Line(verb, r1) =>
      GetLineText(r1, ' ');
      match GetLine(r1, ' ')
      case Fail =>
      case Line(url, r2) =>
        GetLineText(r2, '\r');
        match GetLine(r2, '\r')
        case Fail =>
        case Line(version, r3) => ParseHeadersOk(if r3 == "" then "" else r3[1..], map[]);
  }

  // ---- Reading back what was printed ---------------------------------------

  lemma GetLineOf(text: string, delim: char, rest: string)
    requires delim !in text
    ensures GetLine(text + [delim] + rest, delim) == Line(text, rest)
  {
    FindCharAfter(text, delim, rest);
    var s := text + [delim] + rest;
    assert s[..|text|] == text && s[|text| + 1..] == rest;
  }

  /** The start line reads back as its three fields. */
  lemma ReadStartLine(info: HttpInfo, rest: string)
    requires ' ' !in info.verb && ' ' !in info.url && '\r' !in info.version
    ensures
      var (headers, body) := ParseHeaders(rest, map[]);
      Parse(StartLine(info) + rest) == HttpInfo(info.verb, info.url, info.version, headers, body)
  {
    var r3 := "\n" + rest;
    var r2 := info.version + ['\r'] + r3;
    var r1 := info.url + [' '] + r2;
    assert StartLine(info) + rest == info.verb + [' '] + r1;
    GetLineOf(info.verb, ' ', r1);
    GetLineOf(info.url, ' ', r2);
    GetLineOf(info.version, '\r', r3);
    assert r3[1..] == rest;
  }

  /** A separator that does not occur in `key` is first found right after it, if no overlap can form one earlier. */
  lemma FindAfterKey(key: string, value: string, sep: string)
    requires |sep| == 2 && sep[0] != sep[1] && Find(key, sep) == |key|
    ensures Find(key + sep + value, sep) == |key|
  {
    var line := key + sep + value;
    forall i | 0 <= i < |key|
      ensures !OccursAt(line, sep, i)
    {
      if i + 2 <= |key| {
        FindIsFirst(key, sep, i);
        assert line[i..i + 2] == key[i..i + 2];
      } else {
        assert line[i..i + 2][1] == sep[0];
      }
    }
    assert line[|key|..|key| + 2] == sep;
    FindUnique(line, sep, |key|);
  }

  /** A printed header line splits where it was joined. */
  lemma SplitPrintedHeader(key: string, value: string, headers: map<string, string>)
    requires Find(key, ": ") == |key|
    ensures AddHeader(headers, key + ": " + value) == headers[key := value]
  {
    FindAfterKey(key, value, ": ");
    var line := key + ": " + value;
    assert line[..|key|] == key && line[|key| + 2..] == value;
  }

  /** One printed header line adds exactly that header. */
  lemma ReadHeaderLine(key: string, value: string, rest: string, headers: map<string, string>)
    requires HeaderOk(key, value)
    ensures ParseHeaders(key + ": " + value + "\r\n" + rest, headers) == ParseHeaders(rest, headers[key := value])
  {
    var line := key + ": " + value;
    assert key + ": " + value + "\r\n" + rest == line + "\r" + ['\n'] + rest;
    GetLineOf(line + "\r", '\n', rest);
    assert (line + "\r")[..|line|] == line;
    SplitPrintedHeader(key, value, headers);
  }

  lemma ReadBlankLine(body: string, headers: map<string, string>)
    ensures ParseHeaders("\r\n" + body, headers) == (headers, body)
  {
    assert "\r\n" + body == "\r" + ['\n'] + body;
    GetLineOf("\r", '\n', body);
  }

  /** The headers listed in `order`, added to those already read. */
  ghost function Added(acc: map<string, string>, headers: map<string, string>, order: seq<string>): map<string, string>
    requires forall k :: k in order ==> k in headers
    decreases |order|
  {
    if order == [] then acc else Added(acc[order[0] := headers[order[0]]], headers, order[1..])
  }

  lemma {:induction false} ReadHeaderLines(acc: map<string, string>, headers: map<string, string>, order: seq<string>, rest: string)
    requires forall k :: k in order ==> k in headers && HeaderOk(k, headers[k])
    ensures ParseHeaders(HeaderLines(headers, order) + rest, acc) == ParseHeaders(rest, Added(acc, headers, order))
    decreases |order|
  {
    if order == [] {
      assert HeaderLines(headers, order) + rest == rest;
    } else {
      var k := order[0];
      var rest' := HeaderLines(headers, order[1..]) + rest;
      assert HeaderLines(headers, order) + rest == k + ": " + headers[k] + "\r\n" + rest';
      ReadHeaderLine(k, headers[k], rest', acc);
      ReadHeaderLines(acc[k := headers[k]], headers, order[1..], rest);
    }
  }

  lemma {:induction false} AddedIs(acc: map<string, string>, headers: map<string, string>, order: seq<string>)
    requires forall k :: k in order ==> k in headers
    ensures
      var all := Added(acc, headers, order);
      && (forall k :: k in all <==> k in acc || k in order)
      && (forall k :: k in order ==> all[k] == headers[k])
      && (forall k :: k in acc && k !in order ==> all[k] == acc[k])
    decreases |order|
  {
    if order == [] {
    } else {
      AddedIs(acc[order[0] := headers[order[0]]], headers, order[1..]);
      assert forall k :: k in order <==> k == order[0] || k in order[1..];
    }
  }

  lemma AddedAll(headers: map<string, string>, order: seq<string>)
    requires Lists(order, headers)
    ensures Added(map[], headers, order) == headers
  {
    AddedIs(map[], headers, order);
  }

  /** The header block reads back as the headers and the body. */
  lemma ReadBlock(headers: map<string, string>, order: seq<string>, body: string)
    requires HeadersOk(headers) && Lists(order, headers)
    ensures ParseHeaders(HeaderLines(headers, order) + ("\r\n" + body), map[]) == (headers, body)
  {
    AddedAll(headers, order);
    ReadBlankLine(body, headers);
    ReadHeaderLines(map[], headers, order, "\r\n" + body);
  }

  /** A printable info reads back unchanged, whatever order its headers are printed in. */
  lemma ReadPrinted(info: HttpInfo, order: seq<string>)
    requires Printable(info) && Lists(order, info.headers)
    ensures Parse(Print(info, order)) == info
  {
    ReadBlock(info.headers, order, info.body);
    ReadStartLine(info, HeaderLines(info.headers, order) + ("\r\n" + info.body));
  }

  /** Printing and parsing undo each other exactly on the printable infos. */
  lemma RoundTripIffPrintable(info: HttpInfo, order: seq<string>)
    requires Lists(order, info.headers)
    ensures Parse(Print(info, order)) == info <==> Printable(info)
  {
    if Printable(info) {
      ReadPrinted(info, order);
    } else {
      ParseIsPrintable(Print(info, order));
    }
  }

  /** For every input string, printing the parsed fields and parsing again changes nothing. */
  lemma ParsePrintParse(request: string, order: seq<string>)
    requires Lists(order, Parse(request).headers)
    ensures Parse(Print(Parse(request), order)) == Parse(request)
  {
    ParseIsPrintable(request);
    ReadPrinted(Parse(request), order);
  }
}
