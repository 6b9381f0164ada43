/**
 The reverse proxy's treatment of requests: case-insensitive header lookup and the
 rewriting of the forwarded request.
 */
module Proxy {
  import opened Text
  import opened HttpRequest

  // ---- Case-insensitive names ----------------------------------------------

  function ToLower(c: char): char
  {
    if 'A' <= c <= 'Z' then (c as nat + 32) as char else c
  }

  /** The same letter in either case, or the same character. */
  predicate SameChar(c: char, d: char) {
    || c == d
    || ('A' <= c <= 'Z' && 'a' <= d <= 'z' && c as int - 'A' as int == d as int - 'a' as int)
    || ('A' <= d <= 'Z' && 'a' <= c <= 'z' && d as int - 'A' as int == c as int - 'a' as int)
  }

  /** The same name up to the case of its letters. */
  predicate SameName(a: string, b: string) {
    |a| == |b| && forall i :: 0 <= i < |a| ==> SameChar(a[i], b[i])
  }

  method IEquals(a: string, b: string) returns (same: bool)
    ensures same <==> SameName(a, b)
  {
    if |a| != |b| {
      return false;
    }
    for i := 0 to |a|
      invariant forall j :: 0 <= j < i ==> SameChar(a[j], b[j])
    {
      if ToLower(a[i]) != ToLower(b[i]) {
        return false;
      }
    }
    return true;
  }

  const HOP_BY_HOP: seq<string> := [
    "connection", "keep-alive", "proxy-authenticate", "proxy-authorization",
    "te", "trailer", "transfer-encoding", "upgrade"]

  /** The header names that must not be forwarded, in any case (section 6.1 of RFC 7230). */
  predicate HopByHop(name: string) {
    exists i :: 0 <= i < |HOP_BY_HOP| && SameName(name, HOP_BY_HOP[i])
  }

  /** Each of the eight names in every casing, and no other name. */
  lemma HopByHopIff(name: string)
    ensures
      HopByHop(name) <==>
      || SameName(name, "connection") || SameName(name, "keep-alive") || SameName(name, "proxy-authenticate")
      || SameName(name, "proxy-authorization") || SameName(name, "te") || SameName(name, "trailer")
      || SameName(name, "transfer-encoding") || SameName(name, "upgrade")
  {
    assert HOP_BY_HOP[0] == "connection" && HOP_BY_HOP[1] == "keep-alive" && HOP_BY_HOP[2] == "proxy-authenticate";
    assert HOP_BY_HOP[3] == "proxy-authorization" && HOP_BY_HOP[4] == "te" && HOP_BY_HOP[5] == "trailer";
    assert HOP_BY_HOP[6] == "transfer-encoding" && HOP_BY_HOP[7] == "upgrade";
  }

  /** Names that stay; each differs from the eight in length or in a letter. */
  lemma EndToEndNames()
    ensures !HopByHop("Host") && !HopByHop("Content-Length") && !HopByHop("Content-Type") && !HopByHop("X-Forwarded-Proto")
    ensures HopByHop("Connection") && HopByHop("Keep-Alive") && HopByHop("TE") && HopByHop("Transfer-Encoding")
  {
    HopByHopIff("Host");
    HopByHopIff("Content-Length");
    HopByHopIff("Content-Type");
    HopByHopIff("X-Forwarded-Proto");
    assert !SameChar("X-Forwarded-Proto"[0], "transfer-encoding"[0]);
    assert SameName("Connection", HOP_BY_HOP[0]);
    assert SameName("Keep-Alive", HOP_BY_HOP[1]);
    assert SameName("TE", HOP_BY_HOP[4]);
    assert SameName("Transfer-Encoding", HOP_BY_HOP[6]);
  }

  /** Compare a name, ignoring case, with a list of names. */
  method Listed(name: string, names: seq<string>) returns (found: bool)
    ensures found <==> exists i :: 0 <= i < |names| && SameName(name, names[i])
  {
    for i := 0 to |names|
      invariant forall j :: 0 <= j < i ==> !SameName(name, names[j])
    {
      var same := IEquals(name, names[i]);
      if same {
        return true;
      }
    }
    return false;
  }

  method IsHopByHop(name: string) returns (hop: bool)
    ensures hop <==> HopByHop(name)
  {
    hop := Listed(name, HOP_BY_HOP);
  }

  /** The value of the first header in iteration order whose name matches, or "". */
  function HeaderGet(headers: map<string, string>, order: seq<string>, name: string): string
    requires forall k :: k in order ==> k in headers
  {
    if order == [] then ""
    else if SameName(order[0], name) then headers[order[0]]
    else HeaderGet(headers, order[1..], name)
  }

  /** When exactly one name matches, the lookup finds it in any iteration order. */
  lemma {:induction false} HeaderGetUnique(headers: map<string, string>, order: seq<string>, name: string, key: string)
    requires (forall k :: k in order ==> k in headers) && key in order && SameName(key, name)
    requires forall k :: k in order && SameName(k, name) ==> k == key
    ensures HeaderGet(headers, order, name) == headers[key]
  {
    if SameName(order[0], name) {
    } else {
      HeaderGetUnique(headers, order[1..], name, key);
    }
  }

  /** The lookup takes the first name that matches in iteration order, and finds nothing when none does. */
  lemma {:induction false} HeaderGetFirst(headers: map<string, string>, a: seq<string>, b: seq<string>, name: string)
    requires forall k :: k in a + b ==> k in headers
    requires forall i :: 0 <= i < |a| ==> !SameName(a[i], name)
    ensures b == [] ==> HeaderGet(headers, a + b, name) == ""
    ensures b != [] && SameName(b[0], name) ==> HeaderGet(headers, a + b, name) == headers[b[0]]
    decreases |a|
  {
    if a == [] {
      assert a + b == b;
    } else {
      assert (a + b)[1..] == a[1..] + b;
      forall k | k in a[1..] + b
        ensures k in headers
      {
        assert k in a + b;
      }
      HeaderGetFirst(headers, a[1..], b, name);
    }
  }

  // ---- Rewriting the request -----------------------------------------------

  /** The header names that are forwarded, in iteration order. */
  function Kept(order: seq<string>): (r: seq<string>)
    ensures forall k :: k in r <==> k in order && !HopByHop(k)
  {
    if order == [] then [] else (if HopByHop(order[0]) then [] else [order[0]]) + Kept(order[1..])
  }

  function HeaderLine(key: string, value: string): string
  {
    key + ": " + value + "\r\n"
  }

  /** The forwarded request: start line, kept headers, one added header, blank line, body. */
  function RewrittenWith(info: HttpInfo, order: seq<string>, key: string, value: string, body: string): string
    requires forall k :: k in order ==> k in info.headers
  {
    StartLine(info) + (HeaderLines(info.headers, Kept(order)) + (HeaderLine(key, value) + ("\r\n" + body)))
  }

  function Rewritten(info: HttpInfo, order: seq<string>, body: string): string
    requires forall k :: k in order ==> k in info.headers
  {
    RewrittenWith(info, order, "X-Forwarded-Proto", "http", body)
  }

  lemma {:induction false} HeaderLinesAppend(headers: map<string, string>, a: seq<string>, k: string)
    requires k in headers && forall x :: x in a ==> x in headers
    ensures HeaderLines(headers, a + [k]) == HeaderLines(headers, a) + HeaderLine(k, headers[k])
  {
    if a == [] {
      assert a + [k] == [k] && HeaderLines(headers, [k]) == HeaderLine(k, headers[k]) + "";
    } else {
      assert (a + [k])[1..] == a[1..] + [k];
      HeaderLinesAppend(headers, a[1..], k);
    }
  }

  lemma {:induction false} KeptAppend(order: seq<string>, k: string)
    ensures HopByHop(k) ==> Kept(order + [k]) == Kept(order)
    ensures !HopByHop(k) ==> Kept(order + [k]) == Kept(order) + [k]
  {
    if order == [] {
      assert order + [k] == [k];
    } else {
      assert (order + [k])[1..] == order[1..] + [k];
      KeptAppend(order[1..], k);
    }
  }

  /** The loop over the headers, skipping the hop-by-hop ones. */
  method KeptLines(headers: map<string, string>, order: seq<string>) returns (lines: string)
    requires forall k :: k in order ==> k in headers
    ensures lines == HeaderLines(headers, Kept(order))
  {
    lines := "";
    for i := 0 to |order|
      invariant lines == HeaderLines(headers, Kept(order[..i]))
    {
      var k := order[i];
      var hop := IsHopByHop(k);
      assert order[..i + 1] == order[..i] + [k];
      KeptAppend(order[..i], k);
      if !hop {
        HeaderLinesAppend(headers, Kept(order[..i]), k);
        lines := lines + HeaderLine(k, headers[k]);
      }
    }
    assert order[..|order|] == order;
  }

  method RewriteRequest(info: HttpInfo, order: seq<string>, body: string) returns (fwd: string)
    requires forall k :: k in order ==> k in info.headers
    ensures fwd == Rewritten(info, order, body)
  {
    var lines := KeptLines(info.headers, order);
    fwd := StartLine(info) + (lines + (HeaderLine("X-Forwarded-Proto", "http") + ("\r\n" + body)));
  }

  /** The headers the upstream should see. */
  ghost function ForwardedHeaders(headers: map<string, string>, key: string, value: string): map<string, string>
  {
    (map k | k in headers && !HopByHop(k) :: headers[k])[key := value]
  }

  /** The request without its hop-by-hop headers, marked as forwarded over http. */
  ghost function EndToEnd(info: HttpInfo): HttpInfo {
    info.(headers := ForwardedHeaders(info.headers, "X-Forwarded-Proto", "http"))
  }

  /** A header with no colon in its name and no line feed anywhere. */
  ghost predicate PlainHeader(key: string, value: string) {
    ':' !in key && '\n' !in key && '\n' !in value
  }

  lemma {:induction false} NoColon(key: string)
    requires ':' !in key
    ensures Find(key, ": ") == |key|
  {
    if |key| < 2 {
    } else {
      assert key[..2][0] in key;
      NoColon(key[1..]);
    }
  }

  lemma KeptHeaders(headers: map<string, string>, order: seq<string>, key: string, value: string)
    requires Lists(order, headers)
    ensures Added(map[], headers, Kept(order))[key := value] == ForwardedHeaders(headers, key, value)
  {
    AddedIs(map[], headers, Kept(order));
  }

  /** The kept header lines and the added one read back as the forwarded headers. */
  lemma ReadForwarded(headers: map<string, string>, order: seq<string>, key: string, value: string, body: string)
    requires HeadersOk(headers) && Lists(order, headers) && HeaderOk(key, value)
    ensures ParseHeaders(HeaderLines(headers, Kept(order)) + (HeaderLine(key, value) + ("\r\n" + body)), map[])
         == (ForwardedHeaders(headers, key, value), body)
  {
    var kept := Added(map[], headers, Kept(order));
    KeptHeaders(headers, order, key, value);
    ReadBlankLine(body, kept[key := value]);
    ReadHeaderLine(key, value, "\r\n" + body, kept);
    ReadHeaderLines(map[], headers, Kept(order), HeaderLine(key, value) + ("\r\n" + body));
  }

  lemma ReadRewrittenWith(info: HttpInfo, order: seq<string>, key: string, value: string, body: string)
    requires Printable(info) && Lists(order, info.headers) && PlainHeader(key, value)
    ensures Parse(RewrittenWith(info, order, key, value, body))
         == HttpInfo(info.verb, info.url, info.version, ForwardedHeaders(info.headers, key, value), body)
  {
    NoColon(key);
    ReadForwarded(info.headers, order, key, value, body);
    ReadStartLine(info, HeaderLines(info.headers, Kept(order)) + (HeaderLine(key, value) + ("\r\n" + body)));
  }

  /**
   For every client input and every body, the upstream parses the rewritten request to the same
   method, URL and version, the same headers without the hop-by-hop ones, with X-Forwarded-Proto
   set to http, and that body.
   */
  lemma RewriteReadsBack(head: string, order: seq<string>, body: string)
    requires Lists(order, Parse(head).headers)
    ensures Parse(Rewritten(Parse(head), order, body)) == EndToEnd(Parse(head)).(body := body)
  {
    ParseIsPrintable(head);
    ReadRewrittenWith(Parse(head), order, "X-Forwarded-Proto", "http", body);
  }
}
