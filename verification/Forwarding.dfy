/**
 The request the proxy forwards. It parses the head it has read, but takes the body to be
 the bytes after the first CR LF CR LF, so the two agree only for heads whose first blank
 line, as the parser sees it, is that one.
 */
module Forwarding {
  import opened Counting
  import opened Text
  import opened HttpRequest
  import opened Proxy
  import opened RequestScan
  import HttpResponse

  /** Where the program takes the body to start; it refuses heads without CR LF CR LF. */
  function BodyStart(head: string): nat {
    Find(head, END_OF_HEAD) + 4
  }

  ghost predicate HasEnd(head: string) {
    Find(head, END_OF_HEAD) < |head|
  }

  /** The forwarded request; `rest` is what is read later because Content-Length asks for more. */
  function Forwarded(head: string, order: seq<string>, rest: string): string
    requires BodyStart(head) <= |head| && forall k :: k in order ==> k in Parse(head).headers
  {
    Rewritten(Parse(head), order, head[BodyStart(head)..] + rest)
  }

  // ---- Lines of a string by position ---------------------------------------

  /** Where `d` next occurs at or after `from`, or the end. */
  function Next(s: string, from: nat, d: char): (k: nat)
    requires from <= |s|
    ensures from <= k <= |s|
    decreases |s| - from
  {
    if from == |s| || s[from] == d then from else Next(s, from + 1, d)
  }

  lemma {:induction false} NextIs(s: string, from: nat, d: char)
    requires from <= |s|
    ensures
      var k := Next(s, from, d);
      (k < |s| ==> s[k] == d) && d !in s[from..k]
    decreases |s| - from
  {
    if from == |s| || s[from] == d {
    } else {
      NextIs(s, from + 1, d);
      var k := Next(s, from + 1, d);
      assert s[from..k] == [s[from]] + s[from + 1..k];
    }
  }

  lemma NotBefore(s: string, from: nat, d: char, j: nat)
    requires from <= |s| && from <= j < Next(s, from, d)
    ensures s[j] != d
  {
    NextIs(s, from, d);
    assert s[from..Next(s, from, d)][j - from] == s[j];
  }

  lemma NextAtMost(s: string, from: nat, d: char, j: nat)
    requires from <= j < |s| && s[j] == d
    ensures Next(s, from, d) <= j
  {
    if j < Next(s, from, d) {
      NotBefore(s, from, d, j);
    }
  }

  lemma {:induction false} NextInTail(s: string, h: nat, from: nat, d: char)
    requires h <= from <= |s|
    ensures Next(s[h..], from - h, d) + h == Next(s, from, d)
    decreases |s| - from
  {
    if from == |s| || s[from] == d {
    } else {
      NextInTail(s, h, from + 1, d);
    }
  }

  /** `u` is `text`, its first `d`, and `more`. */
  ghost predicate Cut(u: string, d: char, text: string, more: string) {
    u == text + [d] + more && d !in text
  }

  lemma CutAt(s: string, from: nat, d: char)
    requires from <= |s| && Next(s, from, d) < |s|
    ensures
      var k := Next(s, from, d);
      Cut(s[from..], d, s[from..k], s[k + 1..])
  {
    NextIs(s, from, d);
  }

  lemma FirstCut(u: string, d: char)
    requires Next(u, 0, d) < |u|
    ensures
      var k := Next(u, 0, d);
      Cut(u, d, u[..k], u[k + 1..])
  {
    CutAt(u, 0, d);
    assert u[0..] == u && u[0..Next(u, 0, d)] == u[..Next(u, 0, d)];
  }

  lemma Reassociate(a: string, b: string, c: string, d: string)
    ensures a + b + c + d == a + b + (c + d)
  {
  }

  /** A line up to a delimiter is read the same whatever follows. */
  lemma CutReads(u: string, d: char, text: string, more: string, rest: string)
    requires Cut(u, d, text, more)
    ensures GetLine(u + rest, d) == Line(text, more + rest)
  {
    Reassociate(text, [d], more, rest);
    GetLineOf(text, d, more + rest);
  }

  /** A line from the front of what is unread; without a delimiter it is everything that is left. */
  lemma FirstLine(u: string, d: char)
    ensures
      var k := Next(u, 0, d);
      GetLine(u, d) == if u == "" then Fail else if k == |u| then Line(u, "") else Line(u[..k], u[k + 1..])
  {
    var k := Next(u, 0, d);
    if k == |u| {
      NextIs(u, 0, d);
      assert u[0..k] == u;
      FindChar(u, d);
    } else {
      FirstCut(u, d);
      GetLineOf(u[..k], d, u[k + 1..]);
    }
  }

  // ---- Heads the parser and the program read alike -------------------------

  /** Where the header lines start, if the request has a method, a URL and a version ended by a carriage return. */
  function StartLineEnd(s: string): (h: Option<nat>)
    ensures h.Some? ==> h.value <= |s|
  {
    var a := Next(s, 0, ' ');
    if a == |s| then None
    else
      var b := Next(s, a + 1, ' ');
      if b == |s| then None
      else
        var c := Next(s, b + 1, '\r');
        if c == |s| then None else if c + 1 == |s| then Some(|s|) else Some(c + 2)
  }

  /** The start line ends by the first CR LF CR LF. */
  ghost predicate CompleteHead(head: string) {
    HasEnd(head) && StartLineEnd(head).Some? && StartLineEnd(head).value <= Find(head, END_OF_HEAD) + 2
  }

  ghost predicate LineStart(s: string, h: nat, j: nat) {
    j == h || (h < j <= |s| && s[j - 1] == '\n')
  }

  /** An empty line, with or without a carriage return. */
  ghost predicate BlankAt(s: string, j: nat) {
    j < |s| && (s[j] == '\n' || (j + 1 < |s| && s[j] == '\r' && s[j + 1] == '\n'))
  }

  ghost function AfterBlank(s: string, j: nat): (k: nat)
    requires BlankAt(s, j)
    ensures j < k <= |s|
  {
    if s[j] == '\n' then j + 1 else j + 2
  }

  /** No line that starts in [h, e) is blank. */
  ghost predicate NoBlankBefore(s: string, h: nat, e: nat) {
    forall j :: h <= j < e && LineStart(s, h, j) ==> !BlankAt(s, j)
  }

  /**
   The start line ends by the first CR LF CR LF and no blank line comes before it; or there is no
   complete start line, and nothing follows the CR LF CR LF.
   */
  ghost predicate CleanHead(head: string) {
    var p := Find(head, END_OF_HEAD);
    match StartLineEnd(head)
    case None => p + 4 == |head|
    case Some(h) => h <= p + 2 && NoBlankBefore(head, h, p + 2)
  }

  // ---- Where the parser finds the body -------------------------------------

  /** A start line that breaks off leaves no body. */
  lemma NoVerb(x: string, verb: string)
    requires GetLine(x, ' ') == Fail || GetLine(x, ' ') == Line(verb, "")
    ensures Parse(x).body == ""
  {
    NothingToRead(' ');
  }

  lemma NoUrl(x: string, verb: string, r1: string, url: string)
    requires GetLine(x, ' ') == Line(verb, r1) && (GetLine(r1, ' ') == Fail || GetLine(r1, ' ') == Line(url, ""))
    ensures Parse(x).body == ""
  {
    NothingToRead('\r');
  }

  lemma NoVersion(x: string, verb: string, r1: string, url: string, r2: string)
    requires GetLine(x, ' ') == Line(verb, r1) && GetLine(r1, ' ') == Line(url, r2)
    requires GetLine(r2, '\r').Line? ==> |GetLine(r2, '\r').rest| <= 1
    ensures Parse(x).body == ""
  {
    NoHeaders();
  }

  lemma NoHeaders()
    ensures ParseHeaders("", map[]) == (map[], "")
  {
  }

  lemma ParseReads(x: string, verb: string, r1: string, url: string, r2: string, version: string, r3: string)
    requires GetLine(x, ' ') == Line(verb, r1) && GetLine(r1, ' ') == Line(url, r2) && GetLine(r2, '\r') == Line(version, r3)
    requires r3 != ""
    ensures Parse(x) == HttpInfo(verb, url, version, ParseHeaders(r3[1..], map[]).0, ParseHeaders(r3[1..], map[]).1)
  {
  }

  lemma ParseCut(x: string, verb: string, r1: string, url: string, r2: string, version: string, r3: string, rest: string)
    requires Cut(x, ' ', verb, r1) && Cut(r1, ' ', url, r2) && Cut(r2, '\r', version, r3) && r3 != ""
    ensures
      var (headers, body) := ParseHeaders(r3[1..] + rest, map[]);
      Parse(x + rest) == HttpInfo(verb, url, version, headers, body)
  {
    CutReads(x, ' ', verb, r1, rest);
    CutReads(r1, ' ', url, r2, rest);
    CutReads(r2, '\r', version, r3, rest);
    assert r3 + rest != "" && (r3 + rest)[1..] == r3[1..] + rest;
    ParseReads(x + rest, verb, r1 + rest, url, r2 + rest, version, r3 + rest);
  }

  /** The parts of a complete start line, and what follows it. */
  lemma StartLineParts(s: string, h: nat)
    returns (verb: string, r1: string, url: string, r2: string, version: string, r3: string)
    requires StartLineEnd(s) == Some(h) && h < |s|
    ensures Cut(s, ' ', verb, r1) && Cut(r1, ' ', url, r2) && Cut(r2, '\r', version, r3)
    ensures r3 != "" && r3[1..] == s[h..]
  {
    var a, b, c := StartLineAt(s, h);
    verb, r1 := Part(s, s, 0, a, ' ');
    url, r2, version, r3 := UrlAndVersion(s, r1, a + 1, b, c);
  }

  lemma StartLineAt(s: string, h: nat) returns (a: nat, b: nat, c: nat)
    requires StartLineEnd(s) == Some(h) && h < |s|
    ensures a == Next(s, 0, ' ') < |s| && b == Next(s, a + 1, ' ') < |s| && c == Next(s, b + 1, '\r') && c + 2 == h
  {
    a := Next(s, 0, ' ');
    b := Next(s, a + 1, ' ');
    c := Next(s, b + 1, '\r');
  }

  lemma UrlAndVersion(s: string, r1: string, from: nat, b: nat, c: nat)
    returns (url: string, r2: string, version: string, r3: string)
    requires from <= |s| && r1 == s[from..] && b == Next(s, from, ' ') < |s| && c == Next(s, b + 1, '\r') && c + 1 < |s|
    ensures Cut(r1, ' ', url, r2) && Cut(r2, '\r', version, r3)
    ensures r3 != "" && r3[1..] == s[c + 2..]
  {
    url, r2 := Part(s, r1, from, b, ' ');
    version, r3 := Version(s, r2, b + 1, c);
  }

  lemma Version(s: string, r2: string, from: nat, c: nat) returns (version: string, r3: string)
    requires from <= |s| && r2 == s[from..] && c == Next(s, from, '\r') && c + 1 < |s|
    ensures Cut(r2, '\r', version, r3)
    ensures r3 != "" && r3[1..] == s[c + 2..]
  {
    version, r3 := Part(s, r2, from, c, '\r');
    AfterSkip(s, c, r3);
  }

  lemma Part(s: string, u: string, from: nat, k: nat, d: char) returns (text: string, more: string)
    requires from <= |s| && u == s[from..] && k == Next(s, from, d) < |s|
    ensures Cut(u, d, text, more) && more == s[k + 1..]
  {
    CutAt(s, from, d);
    text, more := s[from..k], s[k + 1..];
  }

  lemma AfterSkip(s: string, c: nat, r: string)
    requires c + 1 < |s| && r == s[c + 1..]
    ensures r != "" && r[1..] == s[c + 2..]
  {
  }

  lemma NothingToRead(d: char)
    ensures GetLine("", d) == Fail
  {
  }

  lemma VersionCut(r: string)
    requires Next(r, 0, '\r') + 2 >= |r|
    ensures GetLine(r, '\r').Line? ==> |GetLine(r, '\r').rest| <= 1
  {
    FirstLine(r, '\r');
  }

  lemma WithoutVersion(x: string, r1: string, r2: string)
    requires var a := Next(x, 0, ' '); a < |x| && r1 == x[a + 1..]
    requires var b := Next(r1, 0, ' '); b < |r1| && r2 == r1[b + 1..]
    requires Next(r2, 0, '\r') + 2 >= |r2|
    ensures Parse(x).body == ""
  {
    FirstLine(x, ' ');
    FirstLine(r1, ' ');
    VersionCut(r2);
    NoVersion(x, x[..Next(x, 0, ' ')], r1, r1[..Next(r1, 0, ' ')], r2);
  }

  lemma WithoutUrl(x: string, r1: string)
    requires var a := Next(x, 0, ' '); a < |x| && r1 == x[a + 1..]
    requires Next(r1, 0, ' ') == |r1|
    ensures Parse(x).body == ""
  {
    FirstLine(x, ' ');
    FirstLine(r1, ' ');
    NoUrl(x, x[..Next(x, 0, ' ')], r1, r1);
  }

  lemma WithoutVerb(x: string)
    requires Next(x, 0, ' ') == |x|
    ensures Parse(x).body == ""
  {
    FirstLine(x, ' ');
    NoVerb(x, x);
  }

  lemma VersionLacks(s: string, a: nat, b: nat)
    requires a == Next(s, 0, ' ') < |s| && b == Next(s, a + 1, ' ') < |s|
    requires Next(s, b + 1, '\r') + 2 >= |s|
    ensures
      var r1, r2 := s[a + 1..], s[b + 1..];
      Next(r1, 0, ' ') == b - a - 1 < |r1| && r2 == r1[b - a..] && Next(r2, 0, '\r') + 2 >= |r2|
  {
    NextInTail(s, a + 1, a + 1, ' ');
    NextInTail(s, b + 1, b + 1, '\r');
  }

  lemma ParseIncomplete(s: string)
    requires StartLineEnd(s).None? || StartLineEnd(s).value == |s|
    ensures Parse(s).body == ""
  {
    var a := Next(s, 0, ' ');
    if a == |s| {
      WithoutVerb(s);
    } else {
      var b := Next(s, a + 1, ' ');
      if b == |s| {
        NextInTail(s, a + 1, a + 1, ' ');
        WithoutUrl(s, s[a + 1..]);
      } else {
        VersionLacks(s, a, b);
        WithoutVersion(s, s[a + 1..], s[b + 1..]);
      }
    }
  }

  /** Parsing is reading the start line, then the header lines behind it. */
  lemma ParseFrom(s: string)
    ensures
      if StartLineEnd(s).Some? && StartLineEnd(s).value < |s| then
        Parse(s).body == Behind(s[StartLineEnd(s).value..])
      else Parse(s).body == ""
  {
    if StartLineEnd(s).Some? && StartLineEnd(s).value < |s| {
      var verb, r1, url, r2, version, r3 := StartLineParts(s, StartLineEnd(s).value);
      BodyOfCut(s, verb, r1, url, r2, version, r3);
    } else {
      ParseIncomplete(s);
    }
  }

  lemma BodyOfCut(x: string, verb: string, r1: string, url: string, r2: string, version: string, r3: string)
    requires Cut(x, ' ', verb, r1) && Cut(r1, ' ', url, r2) && Cut(r2, '\r', version, r3) && r3 != ""
    ensures Parse(x).body == Behind(r3[1..])
  {
    ParseCut(x, verb, r1, url, r2, version, r3, "");
    assert x + "" == x && r3[1..] + "" == r3[1..];
    BodyIsBehind(r3[1..], map[]);
  }

  /** What follows the first blank line. */
  function Behind(u: string): string
    decreases |u|
  {
    var k := Next(u, 0, '\n');
    if k == |u| then "" else if IsBlank(u[..k]) then u[k + 1..] else Behind(u[k + 1..])
  }

  /** The body does not depend on the headers read before it. */
  lemma {:induction false} BodyIsBehind(u: string, headers: map<string, string>)
    ensures ParseHeaders(u, headers).1 == Behind(u)
    decreases |u|
  {
    var k := Next(u, 0, '\n');
    FirstLine(u, '\n');
    if k == |u| {
      NothingToRead('\n');
    } else if IsBlank(u[..k]) {
    } else {
      BodyIsBehind(u[k + 1..], AddHeader(headers, StripCr(u[..k])));
    }
  }

  ghost predicate HasBlank(u: string)
    decreases |u|
  {
    var k := Next(u, 0, '\n');
    k < |u| && (IsBlank(u[..k]) || HasBlank(u[k + 1..]))
  }

  /** Past the first blank line there is only body, so bytes that follow are body too. */
  lemma {:induction false} HeadersExtend(u: string, rest: string, headers: map<string, string>)
    requires HasBlank(u)
    ensures ParseHeaders(u + rest, headers) == (ParseHeaders(u, headers).0, Behind(u) + rest)
    decreases |u|
  {
    var k := Next(u, 0, '\n');
    FirstLine(u, '\n');
    FirstCut(u, '\n');
    CutReads(u, '\n', u[..k], u[k + 1..], rest);
    if IsBlank(u[..k]) {
    } else {
      HeadersExtend(u[k + 1..], rest, AddHeader(headers, StripCr(u[..k])));
    }
  }

  /** The line that starts at a position is blank if and only if an empty line is there. */
  lemma BlankIff(s: string, h: nat)
    requires h <= |s| && Next(s, h, '\n') < |s|
    ensures IsBlank(s[h..Next(s, h, '\n')]) <==> BlankAt(s, h)
    ensures BlankAt(s, h) ==> AfterBlank(s, h) == Next(s, h, '\n') + 1
  {
    var k := Next(s, h, '\n');
    NextIs(s, h, '\n');
    if k == h + 1 {
      assert s[h..k] == [s[h]];
    }
    if k > h {
      NotBefore(s, h, '\n', h);
    }
    if k > h + 1 {
      NotBefore(s, h, '\n', h + 1);
    }
  }

  lemma NoBlankFrom(s: string, h: nat, h': nat, e: nat)
    requires h < h' <= e && h' <= |s| && s[h' - 1] == '\n' && NoBlankBefore(s, h, e) && LineStart(s, h, e)
    ensures NoBlankBefore(s, h', e) && LineStart(s, h', e)
  {
    forall j | h' <= j < e && LineStart(s, h', j)
      ensures !BlankAt(s, j)
    {
      assert LineStart(s, h, j);
    }
  }

  /** The line at `h` ends before the blank line at `e`, and none from there on is blank earlier. */
  lemma NextStart(s: string, h: nat, e: nat)
    requires h < e && LineStart(s, h, e) && BlankAt(s, e) && NoBlankBefore(s, h, e)
    ensures
      var k := Next(s, h, '\n');
      k < e && !BlankAt(s, h) && NoBlankBefore(s, k + 1, e) && LineStart(s, k + 1, e)
  {
    assert LineStart(s, h, h);
    NextAtMost(s, h, '\n', e - 1);
    NextIs(s, h, '\n');
    NoBlankFrom(s, h, Next(s, h, '\n') + 1, e);
  }

  /** Where what follows the first blank line of the lines from `h` on starts. */
  function BodyPos(s: string, h: nat): (k: nat)
    requires h <= |s|
    ensures h <= k <= |s|
    decreases |s| - h
  {
    var k := Next(s, h, '\n');
    if k == |s| then |s| else if IsBlank(s[h..k]) then k + 1 else BodyPos(s, k + 1)
  }

  lemma TailSlices(s: string, h: nat, k: nat)
    requires h <= k < |s|
    ensures s[h..][..k - h] == s[h..k] && s[h..][k - h + 1..] == s[k + 1..]
  {
  }

  lemma BehindStep(u: string, k: nat)
    requires k == Next(u, 0, '\n') < |u|
    ensures Behind(u) == if IsBlank(u[..k]) then u[k + 1..] else Behind(u[k + 1..])
  {
  }

  lemma BehindOf(s: string, h: nat, k: nat)
    requires h <= |s| && k == Next(s, h, '\n') < |s|
    ensures Behind(s[h..]) == if IsBlank(s[h..k]) then s[k + 1..] else Behind(s[k + 1..])
  {
    NextInTail(s, h, h, '\n');
    BehindStep(s[h..], k - h);
    TailSlices(s, h, k);
  }

  lemma {:induction false} BehindAt(s: string, h: nat)
    requires h <= |s|
    ensures Behind(s[h..]) == s[BodyPos(s, h)..]
    decreases |s| - h
  {
    var k := Next(s, h, '\n');
    if k == |s| {
      NextInTail(s, h, h, '\n');
    } else {
      BehindOf(s, h, k);
      if !IsBlank(s[h..k]) {
        BehindAt(s, k + 1);
      }
    }
  }

  /** The body starts behind the first blank line. */
  lemma {:induction false} BodyPosIs(s: string, h: nat, e: nat)
    requires h <= e && LineStart(s, h, e) && BlankAt(s, e) && NoBlankBefore(s, h, e)
    ensures BodyPos(s, h) == AfterBlank(s, e)
    decreases e - h
  {
    if h == e {
      NextAtMost(s, e, '\n', AfterBlank(s, e) - 1);
    } else {
      NextStart(s, h, e);
      BodyPosIs(s, Next(s, h, '\n') + 1, e);
    }
    BlankIff(s, h);
  }

  lemma {:induction false} FirstBlank(s: string, h: nat, e: nat) returns (f: nat)
    requires !NoBlankBefore(s, h, e)
    ensures h <= f < e && LineStart(s, h, f) && BlankAt(s, f) && NoBlankBefore(s, h, f)
    decreases e
  {
    var j :| h <= j < e && LineStart(s, h, j) && BlankAt(s, j);
    if NoBlankBefore(s, h, j) {
      f := j;
    } else {
      f := FirstBlank(s, h, j);
    }
  }

  lemma HasBlankStep(u: string, k: nat)
    requires k == Next(u, 0, '\n') < |u|
    ensures HasBlank(u) <==> IsBlank(u[..k]) || HasBlank(u[k + 1..])
  {
  }

  lemma HasBlankOf(s: string, h: nat, k: nat)
    requires h <= |s| && k == Next(s, h, '\n') < |s|
    ensures HasBlank(s[h..]) <==> IsBlank(s[h..k]) || HasBlank(s[k + 1..])
  {
    NextInTail(s, h, h, '\n');
    HasBlankStep(s[h..], k - h);
    TailSlices(s, h, k);
  }

  lemma {:induction false} HasBlankFrom(s: string, h: nat, e: nat)
    requires h <= e && LineStart(s, h, e) && BlankAt(s, e)
    ensures HasBlank(s[h..])
    decreases e - h
  {
    var k := Next(s, h, '\n');
    if h == e {
      NextAtMost(s, e, '\n', AfterBlank(s, e) - 1);
      BlankIff(s, h);
    } else {
      NextAtMost(s, h, '\n', e - 1);
      NextIs(s, h, '\n');
      HasBlankFrom(s, k + 1, e);
    }
    HasBlankOf(s, h, k);
  }

  lemma EndAt(head: string)
    requires HasEnd(head)
    ensures HitAt(head, Find(head, END_OF_HEAD))
  {
    HitIsOccurrence(head, Find(head, END_OF_HEAD));
  }

  /** A start line that does not end by a CR LF CR LF ends well behind it. */
  lemma StartLineBeyond(s: string, p: nat)
    requires HitAt(s, p)
    requires StartLineEnd(s).Some? && StartLineEnd(s).value > p + 2
    ensures StartLineEnd(s).value > p + 4
  {
    var a := Next(s, 0, ' ');
    var b := Next(s, a + 1, ' ');
    var c := Next(s, b + 1, '\r');
    NextIs(s, a + 1, ' ');
    if b < p {
      NextAtMost(s, b + 1, '\r', p);
    }
  }

  lemma BodyWithinHead(s: string, p: nat, h: nat)
    requires HitAt(s, p)
    requires h <= p + 2
    ensures BodyPos(s, h) == p + 4 <==> NoBlankBefore(s, h, p + 2)
  {
    var e := p + 2;
    assert LineStart(s, h, e) && BlankAt(s, e);
    if NoBlankBefore(s, h, e) {
      BodyPosIs(s, h, e);
    } else {
      var f := FirstBlank(s, h, e);
      BodyPosIs(s, h, f);
    }
  }

  lemma ParsedBodyAt(s: string, p: nat)
    requires HitAt(s, p)
    ensures
      Parse(s).body == s[p + 4..] <==>
      if StartLineEnd(s).None? then p + 4 == |s|
      else StartLineEnd(s).value <= p + 2 && NoBlankBefore(s, StartLineEnd(s).value, p + 2)
  {
    ParseFrom(s);
    if StartLineEnd(s).Some? {
      var h := StartLineEnd(s).value;
      if h > p + 2 {
        StartLineBeyond(s, p);
        BehindAt(s, h);
      } else {
        BehindAt(s, h);
        BodyWithinHead(s, p, h);
      }
    }
  }

  /**
   The parser's body is what the program forwards as the body, the bytes after the first
   CR LF CR LF, if and only if the head is clean.
   */
  lemma ParsedBodyIff(head: string)
    requires HasEnd(head)
    ensures BodyStart(head) <= |head|
    ensures Parse(head).body == head[BodyStart(head)..] <==> CleanHead(head)
  {
    EndAt(head);
    ParsedBodyAt(head, Find(head, END_OF_HEAD));
  }

  lemma BlankBeforeBody(s: string, p: nat, h: nat)
    requires HitAt(s, p) && h <= p + 2
    ensures h < |s| && HasBlank(s[h..])
  {
    assert LineStart(s, h, p + 2) && BlankAt(s, p + 2);
    HasBlankFrom(s, h, p + 2);
  }

  lemma ParseCutExtends(x: string, verb: string, r1: string, url: string, r2: string, version: string, r3: string, rest: string)
    requires Cut(x, ' ', verb, r1) && Cut(r1, ' ', url, r2) && Cut(r2, '\r', version, r3)
    requires r3 != "" && HasBlank(r3[1..])
    ensures Parse(x + rest) == Parse(x).(body := Parse(x).body + rest)
  {
    var u := r3[1..];
    ParseCut(x, verb, r1, url, r2, version, r3, rest);
    ParseCut(x, verb, r1, url, r2, version, r3, "");
    assert x + "" == x && u + "" == u;
    HeadersExtend(u, rest, map[]);
    BodyIsBehind(u, map[]);
  }

  lemma ExtendsAt(s: string, p: nat, rest: string)
    requires HitAt(s, p) && StartLineEnd(s).Some? && StartLineEnd(s).value <= p + 2
    ensures Parse(s + rest) == Parse(s).(body := Parse(s).body + rest)
  {
    BlankBeforeBody(s, p, StartLineEnd(s).value);
    var verb, r1, url, r2, version, r3 := StartLineParts(s, StartLineEnd(s).value);
    ParseCutExtends(s, verb, r1, url, r2, version, r3, rest);
  }

  /** A head whose start line is complete is read the same whatever is read after it. */
  lemma ParseExtends(head: string, rest: string)
    requires CompleteHead(head)
    ensures Parse(head + rest) == Parse(head).(body := Parse(head).body + rest)
  {
    EndAt(head);
    ExtendsAt(head, Find(head, END_OF_HEAD), rest);
  }

  // ---- What the backend reads ----------------------------------------------

  /**
   The backend reads the client's method, URL, version and end-to-end headers, and the forwarded
   body; that body is the client's if and only if the head is clean.
   */
  lemma RewritePreservesRequest(head: string, order: seq<string>, rest: string)
    requires HasEnd(head) && Lists(order, Parse(head).headers)
    ensures BodyStart(head) <= |head|
    ensures Parse(Forwarded(head, order, rest)) == EndToEnd(Parse(head)).(body := head[BodyStart(head)..] + rest)
    ensures Parse(Forwarded(head, order, rest)).body == Parse(head).body + rest <==> CleanHead(head)
  {
    ParsedBodyIff(head);
    RewriteReadsBack(head, order, head[BodyStart(head)..] + rest);
    SameTail(head[BodyStart(head)..], Parse(head).body, rest);
  }

  lemma SameTail(x: string, y: string, rest: string)
    ensures x + rest == y + rest <==> x == y
  {
    if x + rest == y + rest {
      assert x == (x + rest)[..|x|] && y == (y + rest)[..|y|];
    }
  }

  lemma Equivalents(x: HttpInfo, y: HttpInfo, body: string)
    requires y == x.(body := y.body)
    ensures x.(body := body) == y <==> y.body == body
  {
  }

  /**
   As the parser reads requests, which takes everything after the first blank line for the body: when
   the start line ends in the head, the backend reads what the client sent, end to end, if and only if
   the head is clean.
   */
  lemma BackendReadsTheClients(head: string, order: seq<string>, rest: string)
    requires CompleteHead(head) && Lists(order, Parse(head).headers)
    ensures Parse(Forwarded(head, order, rest)) == EndToEnd(Parse(head + rest)) <==> CleanHead(head)
  {
    RewritePreservesRequest(head, order, rest);
    ParseExtends(head, rest);
    Equivalents(EndToEnd(Parse(head)), EndToEnd(Parse(head + rest)), head[BodyStart(head)..] + rest);
  }

  lemma TerminatorFirst(before: string, x: string)
    requires forall i :: 0 <= i < |before| && before[i] == '\r' ==> i + 2 < |before| && before[i + 2] != '\r'
    ensures Find(before + END_OF_HEAD + x, END_OF_HEAD) == |before|
  {
    var s := before + END_OF_HEAD + x;
    forall i | 0 <= i < |before|
      ensures !OccursAt(s, END_OF_HEAD, i)
    {
      assert s[i] == before[i];
      HitIsOccurrence(s, i);
    }
    HitIsOccurrence(s, |before|);
    FindUnique(s, END_OF_HEAD, |before|);
  }

  lemma ReadBareBlankLine(body: string, headers: map<string, string>)
    ensures ParseHeaders("\n" + body, headers) == (headers, body)
  {
    assert "\n" + body == "" + ['\n'] + body;
    GetLineOf("", '\n', body);
  }

  /** What the client sends in the witness below: a start line, then a bare line feed. */
  function HeadWithBareBlank(info: HttpInfo, lost: string, x: string): string {
    StartLine(info) + "\n" + lost + END_OF_HEAD + x
  }

  lemma Regroup(a: string, b: string, c: string, d: string, e: string)
    ensures a + b + c + d + e == a + (b + (c + d + e))
  {
  }

  lemma BareBlankParses(info: HttpInfo, lost: string, x: string)
    requires ' ' !in info.verb && ' ' !in info.url && '\r' !in info.version
    ensures Parse(HeadWithBareBlank(info, lost, x)) == HttpInfo(info.verb, info.url, info.version, map[], lost + END_OF_HEAD + x)
  {
    var body := lost + END_OF_HEAD + x;
    Regroup(StartLine(info), "\n", lost, END_OF_HEAD, x);
    ReadStartLine(info, "\n" + body);
    ReadBareBlankLine(body, map[]);
  }

  lemma BareBlankEnds(info: HttpInfo, lost: string, x: string)
    requires '\r' !in info.verb + info.url + info.version + lost
    ensures
      var head := HeadWithBareBlank(info, lost, x);
      HasEnd(head) && BodyStart(head) <= |head| && head[BodyStart(head)..] == x
  {
    var before := StartLine(info) + "\n" + lost;
    var parts := info.verb + info.url + info.version + lost;
    var n := |StartLine(info)|;
    forall i | 0 <= i < |before| && before[i] == '\r'
      ensures i + 2 < |before| && before[i + 2] != '\r'
    {
      OnlyCr(info, lost, i);
    }
    TerminatorFirst(before, x);
    assert HeadWithBareBlank(info, lost, x) == before + END_OF_HEAD + x;
  }

  lemma OnlyCr(info: HttpInfo, lost: string, i: nat)
    requires '\r' !in info.verb + info.url + info.version + lost
    requires i < |StartLine(info) + "\n" + lost| && (StartLine(info) + "\n" + lost)[i] == '\r'
    ensures i + 2 == |StartLine(info)|
  {
    var line, parts := StartLine(info), info.verb + info.url + info.version + lost;
    assert forall c :: c in info.verb || c in info.url || c in info.version || c in lost ==> c in parts;
    assert (line + "\n" + lost)[i] in lost || i <= |line|;
    assert i < |line| ==> (line + "\n" + lost)[i] == line[i];
  }

  /**
   A blank line written as a bare line feed: the parser ends the headers there, but everything up to
   the later CR LF CR LF is not forwarded.
   */
  lemma BareBlankDropsBytes(info: HttpInfo, lost: string, x: string, rest: string)
    requires ' ' !in info.verb && ' ' !in info.url && '\r' !in info.verb + info.url + info.version + lost
    ensures
      var head := HeadWithBareBlank(info, lost, x);
      && HasEnd(head) && BodyStart(head) <= |head| && Lists([], Parse(head).headers)
      && Parse(head).body == lost + END_OF_HEAD + x
      && Parse(Forwarded(head, [], rest)).body == x + rest
  {
    assert '\r' !in info.version by {
      assert forall c :: c in info.version ==> c in info.verb + info.url + info.version + lost;
    }
    BareBlankParses(info, lost, x);
    BareBlankEnds(info, lost, x);
    RewritePreservesRequest(HeadWithBareBlank(info, lost, x), [], rest);
  }

  // ---- How many messages the upstream reads --------------------------------

  /** The body length a request announces: 0 without the header or when it is not a number. */
  function Length(headers: map<string, string>, order: seq<string>): nat
    requires forall k :: k in order ==> k in headers
  {
    match HttpResponse.Announced(headers, order)
    case None => 0
    case Some(n) => n
  }

  /** The names of the forwarded header lines, in the order they are written. */
  function LineOrder(order: seq<string>): seq<string> {
    Kept(order) + ["X-Forwarded-Proto"]
  }

  /**
   The body of the first request of a stream and what follows it: a head up to the first blank line,
   then as many bytes as it announces (section 3.3.3 of RFC 7230).  None while bytes are missing.
   `order` is the order in which its header names are looked up.
   */
  ghost function FirstRequest(stream: string, order: seq<string>): Option<(string, string)>
  {
    if forall k :: k in order ==> k in Parse(stream).headers then
      HttpResponse.Cut(stream, Find(stream, END_OF_HEAD), Some(Length(Parse(stream).headers, order)))
    else None
  }

  /** The first `n` bytes and the others, once there are so many. */
  function Split(bytes: string, n: nat): Option<(string, string)> {
    if |bytes| < n then None else Some((bytes[..n], bytes[n..]))
  }

  // The announced length survives the rewrite.

  lemma LengthIsEndToEnd(k: string)
    requires SameName(k, "Content-Length")
    ensures !HopByHop(k) && k != "X-Forwarded-Proto"
  {
    assert |k| == 14;
    assert forall i :: 0 <= i < |HOP_BY_HOP| ==> |HOP_BY_HOP[i]| != 14;
  }

  lemma {:induction false} SameLookup(headers: map<string, string>, order: seq<string>)
    requires forall k :: k in order ==> k in headers
    ensures
      var forwarded := ForwardedHeaders(headers, "X-Forwarded-Proto", "http");
      && (forall k :: k in LineOrder(order) ==> k in forwarded)
      && HeaderGet(forwarded, LineOrder(order), "Content-Length") == HeaderGet(headers, order, "Content-Length")
    decreases |order|
  {
    var forwarded := ForwardedHeaders(headers, "X-Forwarded-Proto", "http");
    var lines := LineOrder(order);
    if order == [] {
      assert |"X-Forwarded-Proto"| != |"Content-Length"|;
      assert lines[1..] == [];
    } else {
      SameLookup(headers, order[1..]);
      if SameName(order[0], "Content-Length") {
        LengthIsEndToEnd(order[0]);
      }
      if HopByHop(order[0]) {
        assert lines == LineOrder(order[1..]);
      } else {
        assert lines == [order[0]] + LineOrder(order[1..]);
        assert lines[1..] == LineOrder(order[1..]);
      }
    }
  }

  // The forwarded head ends where it was printed to end.

  /** The start line of a request, up to its carriage return, is a prefix of the request. */
  lemma StartLineIsPrefix(x: string, verb: string, r1: string, url: string, r2: string, version: string, r3: string)
    requires Cut(x, ' ', verb, r1) && Cut(r1, ' ', url, r2) && Cut(r2, '\r', version, r3)
    ensures x == verb + " " + url + " " + version + "\r" + r3
  {
  }

  /** No blank line is hidden in a start line that ends by the first blank line of the request. */
  lemma StartLineHasNoEnd(x: string, pre: string, version: string, r3: string, p: nat)
    requires x == pre + " " + version + "\r" + r3 && '\r' !in version
    requires |pre| + |version| <= p + 1 && (forall i :: 0 <= i < p ==> !HitAt(x, i))
    ensures HttpResponse.NoEndWithin(pre + " " + version)
  {
    var line := pre + " " + version;
    var s := line + "\r\n";
    forall i | 0 <= i < |line|
      ensures !OccursAt(s, END_OF_HEAD, i)
    {
      HitIsOccurrence(s, i);
      if HitAt(s, i) {
        StartLineHit(x, pre, version, r3, i);
      }
    }
  }

  /** A blank line in a printed start line is one in the request: it cannot use the final line feed. */
  lemma StartLineHit(x: string, pre: string, version: string, r3: string, i: nat)
    requires x == pre + " " + version + "\r" + r3 && '\r' !in version
    requires i < |pre + " " + version| && HitAt(pre + " " + version + "\r\n", i)
    ensures i + 4 < |pre + " " + version| + 2 && HitAt(x, i)
  {
    var line := pre + " " + version;
    var s := line + "\r\n";
    assert forall j :: 0 <= j < |line| + 1 ==> s[j] == x[j];
  }

  function HeaderPairs(headers: map<string, string>, order: seq<string>): seq<(string, string)>
    requires forall k :: k in order ==> k in headers
  {
    if order == [] then [] else [(order[0], headers[order[0]])] + HeaderPairs(headers, order[1..])
  }

  lemma {:induction false} PairsPrint(headers: map<string, string>, order: seq<string>, key: string, value: string)
    requires forall k :: k in order ==> k in headers
    ensures
      HttpResponse.Lines(HeaderPairs(headers, order) + [(key, value)]) == HeaderLines(headers, order) + HeaderLine(key, value)
    decreases |order|
  {
    var hs := HeaderPairs(headers, order) + [(key, value)];
    if order == [] {
      assert hs == [(key, value)] && hs[1..] == [];
    } else {
      PairsPrint(headers, order[1..], key, value);
      assert hs[1..] == HeaderPairs(headers, order[1..]) + [(key, value)];
      Associate(HeaderLine(order[0], headers[order[0]]), HeaderLines(headers, order[1..]), HeaderLine(key, value));
    }
  }

  lemma {:induction false} PairsAreLines(headers: map<string, string>, order: seq<string>)
    requires (forall k :: k in order ==> k in headers) && HeadersOk(headers)
    ensures HttpResponse.LineHeaders(HeaderPairs(headers, order))
    decreases |order|
  {
    if order == [] {
    } else {
      PairsAreLines(headers, order[1..]);
      assert HeaderOk(order[0], headers[order[0]]);
    }
  }

  lemma PrintedPairs(headers: map<string, string>, order: seq<string>, key: string, value: string) returns (hs: seq<(string, string)>)
    requires (forall k :: k in order ==> k in headers) && HeadersOk(headers) && '\n' !in key && '\n' !in value
    ensures HttpResponse.Lines(hs) == HeaderLines(headers, order) + HeaderLine(key, value)
    ensures hs != [] && HttpResponse.LineHeaders(hs)
  {
    hs := HeaderPairs(headers, order) + [(key, value)];
    PairsAreLines(headers, order);
    PairsPrint(headers, order, key, value);
  }

  lemma RewrittenIsMessage(info: HttpInfo, order: seq<string>, body: string) returns (hs: seq<(string, string)>)
    requires Printable(info) && forall k :: k in order ==> k in info.headers
    ensures Rewritten(info, order, body) == HttpResponse.Message(info.verb, info.url, info.version, hs, body)
    ensures hs != [] && HttpResponse.LineHeaders(hs)
  {
    hs := PrintedPairs(info.headers, Kept(order), "X-Forwarded-Proto", "http");
    MessageOf(info, hs, HeaderLines(info.headers, Kept(order)), HeaderLine("X-Forwarded-Proto", "http"), body);
  }

  lemma MessageOf(info: HttpInfo, hs: seq<(string, string)>, a: string, b: string, body: string)
    requires HttpResponse.Lines(hs) == a + b
    ensures HttpResponse.Message(info.verb, info.url, info.version, hs, body) == StartLine(info) + (a + (b + ("\r\n" + body)))
  {
    Associate(a, b, "\r\n" + body);
  }

  lemma Associate(a: string, b: string, c: string)
    ensures a + (b + c) == (a + b) + c
  {
  }

  lemma {:induction false} PairsAre(headers: map<string, string>, order: seq<string>)
    requires forall k :: k in order ==> k in headers
    ensures forall k, v :: (k, v) in HeaderPairs(headers, order) <==> k in order && headers[k] == v
    decreases |order|
  {
    if order == [] {
    } else {
      PairsAre(headers, order[1..]);
    }
  }

  /**
   The lines of a forwarded head: one for every header of the request that is not hop-by-hop, with its
   value, then X-Forwarded-Proto, and no other; in particular none whose name is hop-by-hop.
   */
  lemma ForwardedLines(info: HttpInfo, order: seq<string>, body: string) returns (hs: seq<(string, string)>)
    requires Printable(info) && Lists(order, info.headers)
    ensures
      Rewritten(info, order, body) ==
      StartLine(info) + (HttpResponse.Lines(hs + [("X-Forwarded-Proto", "http")]) + ("\r\n" + body))
    ensures forall k, v :: (k, v) in hs <==> k in info.headers && info.headers[k] == v && !HopByHop(k)
    ensures forall i :: 0 <= i < |hs| + 1 ==> !HopByHop((hs + [("X-Forwarded-Proto", "http")])[i].0)
  {
    hs := HeaderPairs(info.headers, Kept(order));
    PairsAre(info.headers, Kept(order));
    PairsPrint(info.headers, Kept(order), "X-Forwarded-Proto", "http");
    Associate(HeaderLines(info.headers, Kept(order)), HeaderLine("X-Forwarded-Proto", "http"), "\r\n" + body);
    EndToEndNames();
    forall i | 0 <= i < |hs|
      ensures !HopByHop(hs[i].0)
    {
      assert (hs[i].0, hs[i].1) in hs;
    }
  }

  lemma RewrittenEnds(info: HttpInfo, order: seq<string>, body: string)
    requires Printable(info) && forall k :: k in order ==> k in info.headers
    requires HttpResponse.NoEndWithin(info.verb + " " + info.url + " " + info.version)
    ensures
      var m := Rewritten(info, order, body);
      var p := Find(m, END_OF_HEAD);
      p + 4 <= |m| && m[p + 4..] == body
  {
    var hs := RewrittenIsMessage(info, order, body);
    HttpResponse.EndOfHead(info.verb, info.url, info.version, hs, body);
  }

  /** The start line of a complete head is read as its parts and hides no blank line. */
  lemma CompleteStartLine(head: string)
    requires CompleteHead(head)
    ensures
      var info := Parse(head);
      HttpResponse.NoEndWithin(info.verb + " " + info.url + " " + info.version)
  {
    var p := Find(head, END_OF_HEAD);
    EndAt(head);
    var verb, r1, url, r2, version, r3 := StartLineParts(head, StartLineEnd(head).value);
    StartLineIsPrefix(head, verb, r1, url, r2, version, r3);
    PartsOfCut(head, verb, r1, url, r2, version, r3);
    forall i | 0 <= i < p
      ensures !HitAt(head, i)
    {
      FindIsFirst(head, END_OF_HEAD, i);
      HitIsOccurrence(head, i);
    }
    assert |r3| == |head| - StartLineEnd(head).value + 1;
    StartLineHasNoEnd(head, verb + " " + url, version, r3, p);
  }

  lemma PartsOfCut(x: string, verb: string, r1: string, url: string, r2: string, version: string, r3: string)
    requires Cut(x, ' ', verb, r1) && Cut(r1, ' ', url, r2) && Cut(r2, '\r', version, r3) && r3 != ""
    ensures Parse(x).verb == verb && Parse(x).url == url && Parse(x).version == version
  {
    ParseCut(x, verb, r1, url, r2, version, r3, "");
    assert x + "" == x;
  }

  /**
   What the upstream takes off the front of the forwarded bytes: the announced number of bytes as
   the body, and everything else that was over-read as the start of another message.
   */
  lemma UpstreamSplits(head: string, order: seq<string>, rest: string)
    requires CompleteHead(head) && Lists(order, Parse(head).headers)
    ensures BodyStart(head) <= |head|
    ensures forall k :: k in LineOrder(order) ==> k in Parse(Forwarded(head, order, rest)).headers
    ensures
      var body := head[BodyStart(head)..] + rest;
      var n := Length(Parse(head).headers, order);
      FirstRequest(Forwarded(head, order, rest), LineOrder(order)) == Split(body, n)
  {
    EndAt(head);
    var body := head[BodyStart(head)..] + rest;
    var m, n := Forwarded(head, order, rest), Length(Parse(head).headers, order);
    ForwardedLength(head, order, rest);
    FirstRequestIsCut(m, LineOrder(order), n);
    SplitRewritten(head, order, body, m, n);
  }

  lemma ForwardedLength(head: string, order: seq<string>, rest: string)
    requires BodyStart(head) <= |head| && Lists(order, Parse(head).headers)
    ensures
      var headers := Parse(Forwarded(head, order, rest)).headers;
      && (forall k :: k in LineOrder(order) ==> k in headers)
      && Length(headers, LineOrder(order)) == Length(Parse(head).headers, order)
  {
    RewriteReadsBack(head, order, head[BodyStart(head)..] + rest);
    SameLookup(Parse(head).headers, order);
  }

  lemma FirstRequestIsCut(m: string, order: seq<string>, n: nat)
    requires (forall k :: k in order ==> k in Parse(m).headers) && Length(Parse(m).headers, order) == n
    ensures FirstRequest(m, order) == HttpResponse.Cut(m, Find(m, END_OF_HEAD), Some(n))
  {
  }

  lemma SplitRewritten(head: string, order: seq<string>, body: string, m: string, n: nat)
    requires CompleteHead(head) && Lists(order, Parse(head).headers)
    requires m == Rewritten(Parse(head), order, body)
    ensures HttpResponse.Cut(m, Find(m, END_OF_HEAD), Some(n)) == Split(body, n)
  {
    ParseIsPrintable(head);
    CompleteStartLine(head);
    RewrittenEnds(Parse(head), order, body);
    CutBody(m, Find(m, END_OF_HEAD), body, n);
  }

  lemma CutBody(m: string, p: nat, body: string, n: nat)
    requires p + 4 <= |m| && m[p + 4..] == body
    ensures HttpResponse.Cut(m, p, Some(n)) == Split(body, n)
  {
    if |body| >= n {
      assert m[p + 4..p + 4 + n] == m[p + 4..][..n] && m[p + 4 + n..] == m[p + 4..][n..];
    }
  }

  // The client's own bytes, framed the same way.

  lemma OccursInPrefix(head: string, later: string, i: nat)
    requires i + 4 <= |head|
    ensures OccursAt(head + later, END_OF_HEAD, i) <==> OccursAt(head, END_OF_HEAD, i)
  {
    assert (head + later)[i..i + 4] == head[i..i + 4];
  }

  lemma FindExtends(head: string, later: string)
    requires HasEnd(head)
    ensures Find(head + later, END_OF_HEAD) == Find(head, END_OF_HEAD)
  {
    var p := Find(head, END_OF_HEAD);
    var s := head + later;
    EndAt(head);
    forall i | 0 <= i < p
      ensures !OccursAt(s, END_OF_HEAD, i)
    {
      FindIsFirst(head, END_OF_HEAD, i);
      OccursInPrefix(head, later, i);
    }
    OccursInPrefix(head, later, p);
    FindUnique(s, END_OF_HEAD, p);
  }

  lemma ClientSplits(head: string, order: seq<string>, later: string)
    requires CompleteHead(head) && Lists(order, Parse(head).headers)
    ensures BodyStart(head) <= |head|
    ensures forall k :: k in order ==> k in Parse(head + later).headers
    ensures
      var bytes := head[BodyStart(head)..] + later;
      var n := Length(Parse(head).headers, order);
      FirstRequest(head + later, order) == Split(bytes, n)
  {
    var n := Length(Parse(head).headers, order);
    EndAt(head);
    FindExtends(head, later);
    ParseExtends(head, later);
    FirstRequestIsCut(head + later, order, n);
    ClientBytes(head, BodyStart(head), later);
    CutBody(head + later, Find(head, END_OF_HEAD), head[BodyStart(head)..] + later, n);
  }

  lemma ClientBytes(head: string, b: nat, later: string)
    requires b <= |head|
    ensures (head + later)[b..] == head[b..] + later
  {
  }

  /** How many bytes of the body the program reads after the head. */
  function Wanted(head: string, order: seq<string>): nat
    requires BodyStart(head) <= |head| && forall k :: k in order ==> k in Parse(head).headers
  {
    var n := Length(Parse(head).headers, order);
    if |head| - BodyStart(head) < n then n - (|head| - BodyStart(head)) else 0
  }

  /** The same body on both sides; what follows it upstream and the bytes still unread follow it for the client. */
  ghost predicate FramedAlike(client: Option<(string, string)>, upstream: Option<(string, string)>, unread: string) {
    && client.Some? && upstream.Some?
    && upstream.value.0 == client.value.0 && upstream.value.1 + unread == client.value.1
  }

  lemma SplitAlike(over: string, later: string, n: nat, want: nat)
    requires want == (if |over| < n then n - |over| else 0) && want <= |later|
    ensures FramedAlike(Split(over + later, n), Split(over + later[..want], n), later[want..])
    ensures Split(over + later[..want], n).value.1 == "" <==> |over| <= n
  {
    assert over + later == over + later[..want] + later[want..];
  }

  lemma WantedIs(head: string, order: seq<string>, over: string)
    requires BodyStart(head) <= |head| && over == head[BodyStart(head)..] && Lists(order, Parse(head).headers)
    ensures
      var n := Length(Parse(head).headers, order);
      Wanted(head, order) == if |over| < n then n - |over| else 0
  {
  }

  /**
   Framed by Content-Length, with `later` the bytes the client sends after the head that was read:
   the upstream's first request has the body of the client's first request, and nothing follows it if
   and only if the read of the head did not reach past that body.  What it read beyond is forwarded
   as it is, and the upstream takes it for another request.
   */
  lemma UpstreamReadsOneRequestIff(head: string, order: seq<string>, later: string, want: nat)
    requires CompleteHead(head) && Lists(order, Parse(head).headers)
    ensures BodyStart(head) <= |head|
    ensures
      want == Wanted(head, order) <= |later| ==>
        var upstream := FirstRequest(Forwarded(head, order, later[..want]), LineOrder(order));
        && FramedAlike(FirstRequest(head + later, order), upstream, later[want..])
        && (upstream.value.1 == "" <==> |head| - BodyStart(head) <= Length(Parse(head).headers, order))
  {
    EndAt(head);
    if want == Wanted(head, order) <= |later| {
      var over := head[BodyStart(head)..];
      ClientSplits(head, order, later);
      UpstreamSplits(head, order, later[..want]);
      WantedIs(head, order, over);
      SplitAlike(over, later, Length(Parse(head).headers, order), want);
    }
  }

  // ---- A pipelined request -------------------------------------------------

  lemma {:induction false} NextAfter(a: string, d: char, b: string, from: nat)
    requires d !in a && from <= |a|
    ensures Next(a + [d] + b, from, d) == |a|
    decreases |a| - from
  {
    if from == |a| {
    } else {
      assert (a + [d] + b)[from] == a[from];
      NextAfter(a, d, b, from + 1);
    }
  }

  lemma NextPart(s: string, from: nat, a: string, d: char, b: string)
    requires from <= |s| && s[from..] == a + [d] + b && d !in a
    ensures Next(s, from, d) == from + |a|
  {
    NextAfter(a, d, b, 0);
    NextInTail(s, from, from, d);
  }

  lemma StartLineEndIs(s: string, a: nat, b: nat, c: nat)
    requires a == Next(s, 0, ' ') < |s| && b == Next(s, a + 1, ' ') < |s| && c == Next(s, b + 1, '\r') && c + 1 < |s|
    ensures StartLineEnd(s) == Some(c + 2)
  {
  }

  lemma StartLineEndAt(s: string, verb: string, r1: string, url: string, r2: string, version: string, r3: string)
    requires Cut(s, ' ', verb, r1) && Cut(r1, ' ', url, r2) && Cut(r2, '\r', version, r3) && r3 != ""
    ensures StartLineEnd(s) == Some(|verb| + |url| + |version| + 4)
  {
    var a := |verb|;
    var b := a + 1 + |url|;
    PartAt(s, s, 0, ' ', verb, r1);
    LastPartsAt(s, r1, a + 1, url, r2, version, r3);
    StartLineEndIs(s, a, b, b + 1 + |version|);
  }

  lemma LastPartsAt(s: string, r1: string, from: nat, url: string, r2: string, version: string, r3: string)
    requires from <= |s| && r1 == s[from..] && Cut(r1, ' ', url, r2) && Cut(r2, '\r', version, r3) && r3 != ""
    ensures
      var b := from + |url|;
      b == Next(s, from, ' ') < |s| && b + 1 + |version| == Next(s, b + 1, '\r') && b + |version| + 2 < |s|
  {
    PartAt(s, r1, from, ' ', url, r2);
    PartAt(s, r2, from + |url| + 1, '\r', version, r3);
  }

  lemma PartAt(s: string, u: string, from: nat, d: char, text: string, more: string)
    requires from <= |s| && u == s[from..] && Cut(u, d, text, more)
    ensures Next(s, from, d) == from + |text| == |s| - |more| - 1 && more == s[from + |text| + 1..]
  {
    TailAfter(s, from, text, d, more);
    NextPart(s, from, text, d, more);
  }

  lemma StartLineEndOf(info: HttpInfo, rest: string)
    requires ' ' !in info.verb && ' ' !in info.url && '\r' !in info.version
    ensures StartLineEnd(StartLine(info) + rest) == Some(|StartLine(info)|)
  {
    var r3 := "\n" + rest;
    var r2 := info.version + ['\r'] + r3;
    var r1 := info.url + [' '] + r2;
    assert StartLine(info) + rest == info.verb + [' '] + r1;
    StartLineEndAt(StartLine(info) + rest, info.verb, r1, info.url, r2, info.version, r3);
  }

  lemma TailAfter(s: string, from: nat, a: string, d: char, b: string)
    requires from <= |s| && s[from..] == a + [d] + b
    ensures from + |a| + 1 <= |s| && s[from + |a| + 1..] == b
  {
    assert s[from..][|a| + 1..] == b;
  }

  /** A request without headers, and whatever the same read brought behind it. */
  function BareRequest(info: HttpInfo, x: string): string {
    StartLine(info) + ("\r\n" + x)
  }

  lemma BareRequestParses(info: HttpInfo, x: string)
    requires ' ' !in info.verb && ' ' !in info.url && '\r' !in info.version
    ensures Parse(BareRequest(info, x)) == HttpInfo(info.verb, info.url, info.version, map[], x)
  {
    ReadBlankLine(x, map[]);
    ReadStartLine(info, "\r\n" + x);
  }

  lemma BareRequestEnds(info: HttpInfo, x: string)
    requires '\r' !in info.verb + info.url + info.version
    ensures
      var head := BareRequest(info, x);
      HasEnd(head) && BodyStart(head) == |StartLine(info)| + 2 <= |head| && head[BodyStart(head)..] == x
  {
    var line := info.verb + " " + info.url + " " + info.version;
    assert BareRequest(info, x) == line + END_OF_HEAD + x;
    forall i | 0 <= i < |line|
      ensures line[i] != '\r'
    {
      assert line[i] == ' ' || line[i] in info.verb + info.url + info.version;
    }
    TerminatorFirst(line, x);
  }

  /**
   Any bytes that arrive in one read behind a request without headers are forwarded behind it
   unchanged, although the head is clean: the upstream reads the request with an empty body and then
   those bytes, hop-by-hop headers included, as requests of their own.
   */
  lemma PipelinedBytesAreForwarded(info: HttpInfo, x: string)
    requires ' ' !in info.verb && ' ' !in info.url && '\r' !in info.verb + info.url + info.version
    ensures
      var head := BareRequest(info, x);
      && HasEnd(head) && CleanHead(head) && BodyStart(head) <= |head| && Lists([], Parse(head).headers)
      && Wanted(head, []) == 0
      && FirstRequest(Forwarded(head, [], ""), LineOrder([])) == Some(("", x))
  {
    var head := BareRequest(info, x);
    assert '\r' !in info.version by {
      assert forall c :: c in info.version ==> c in info.verb + info.url + info.version;
    }
    BareRequestParses(info, x);
    BareRequestEnds(info, x);
    StartLineEndOf(info, "\r\n" + x);
    UpstreamSplits(head, [], "");
    assert x + "" == x && x[0..] == x;
  }
}
