/** Multipart bodies: what the server writes and how the client parses it. (RFC 2046, section 5.1.1.) */
module Multipart {
  import opened Wrappers
  import opened Bytes
  import opened Seqs
  import opened Codec

  const CR: Byte := 13
  const LF: Byte := 10
  const COLON: Byte := 58
  const BLANK: Byte := 32
  const DASHES: Text := [45, 45]
  const CRLF: Text := [CR, LF]
  const CRLFCRLF: Text := [CR, LF, CR, LF]
  const LFLF: Text := [LF, LF]

  datatype Header = Header(key: Text, value: Text)

  /** A part as it is written: its headers in some order, and its body. */
  datatype Part = Part(headers: seq<Header>, body: seq<Byte>)

  datatype ParsedPart = ParsedPart(headers: map<Text, Text>, body: seq<Byte>)

  // ----- writing -----

  function HeaderLine(h: Header): Text {
    h.key + [COLON, BLANK] + h.value
  }

  function HeaderLines(hs: seq<Header>): Text {
    if hs == [] then [] else HeaderLine(hs[0]) + CRLF + HeaderLines(hs[1..])
  }

  function PartText(delimiter: Text, p: Part): Text {
    delimiter + CRLF + (HeaderLines(p.headers) + CRLF + (p.body + CRLF))
  }

  /** All parts and the closing delimiter. */
  function Written(delimiter: Text, parts: seq<Part>): Text {
    if parts == [] then delimiter + DASHES + CRLF else PartText(delimiter, parts[0]) + Written(delimiter, parts[1..])
  }

  function Delimiter(boundary: Text): Text {
    DASHES + boundary
  }

  /** A response body that grows part by part. */
  class MultipartWriter {
    var body: Text

    constructor ()
      ensures body == []
    {
      body := [];
    }

    method AppendPart(boundary: Text, headers: seq<Header>, partBody: seq<Byte>)
      modifies this
      ensures body == old(body) + PartText(Delimiter(boundary), Part(headers, partBody))
    {
      var start := Delimiter(boundary) + CRLF;
      body := body + start;
      ghost var rest := CRLF + (partBody + CRLF);
      for i := 0 to |headers|
        invariant body + HeaderLines(headers[i..]) == old(body) + start + HeaderLines(headers)
      {
        assert headers[i..][1..] == headers[i + 1..];
        Assoc(body, HeaderLine(headers[i]) + CRLF, HeaderLines(headers[i + 1..]));
        body := body + (HeaderLine(headers[i]) + CRLF);
      }
      AppendNothing(body);
      AppendNothing(HeaderLines(headers));
      ghost var headed := body;
      body := body + CRLF;
      body := body + partBody;
      body := body + CRLF;
      Assemble(old(body), start, HeaderLines(headers), partBody);
    }

    /** Writes every part and closes the body. */
    method WriteAll(boundary: Text, parts: seq<Part>)
      modifies this
      ensures body == old(body) + Written(Delimiter(boundary), parts)
    {
      var delimiter := Delimiter(boundary);
      for i := 0 to |parts|
        invariant body + Written(delimiter, parts[i..]) == old(body) + Written(delimiter, parts)
      {
        assert parts[i..][1..] == parts[i + 1..];
        Assoc(body, PartText(delimiter, parts[i]), Written(delimiter, parts[i + 1..]));
        AppendPart(boundary, parts[i].headers, parts[i].body);
      }
      body := body + (delimiter + DASHES + CRLF);
    }
  }

  lemma AppendNothing(s: Text)
    ensures s + [] == s
  {
  }

  lemma Assemble(before: Text, start: Text, lines: Text, partBody: Text)
    ensures before + start + lines + CRLF + partBody + CRLF == before + (start + (lines + CRLF + (partBody + CRLF)))
  {
  }

  // ----- searching -----

  predicate At(body: Text, i: nat, needle: Text) {
    i + |needle| <= |body| && body[i..i + |needle|] == needle
  }

  /** The first place from `start` on where the needle is. */
  function Find(body: Text, needle: Text, start: nat): (r: Option<nat>)
    ensures r.Some? ==> start <= r.value && At(body, r.value, needle)
    decreases |body| - start
  {
    if start + |needle| > |body| then None
    else if At(body, start, needle) then Some(start)
    else Find(body, needle, start + 1)
  }

  ghost predicate NoneBetween(body: Text, needle: Text, start: nat, end: nat) {
    forall k :: start <= k < end ==> !At(body, k, needle)
  }

  /** Nothing earlier is passed over. */
  lemma {:induction false} FindIsFirst(body: Text, needle: Text, start: nat)
    ensures NoneBetween(body, needle, start,
        if Find(body, needle, start).Some? then Find(body, needle, start).value else |body| + 1)
    decreases |body| - start
  {
    if start + |needle| <= |body| && !At(body, start, needle) { FindIsFirst(body, needle, start + 1); }
  }

  lemma {:induction false} FoundFirst(body: Text, needle: Text, start: nat, at: nat)
    requires start <= at && At(body, at, needle) && NoneBetween(body, needle, start, at)
    ensures Find(body, needle, start) == Some(at)
    decreases at - start
  {
    if start < at { FoundFirst(body, needle, start + 1, at); }
  }

  /** A needle that is nowhere before `at` is not found before it. */
  lemma {:induction false} NotFoundBefore(body: Text, needle: Text, start: nat, at: nat)
    requires start <= at && NoneBetween(body, needle, start, at)
    ensures Find(body, needle, start).Some? ==> at <= Find(body, needle, start).value
    decreases at - start
  {
    if start < at { NotFoundBefore(body, needle, start + 1, at); }
  }

  // ----- headers -----

  /** The length of the white-space character at the front, or 0. */
  function SpaceHead(s: Text): (n: nat)
    ensures n <= |s|
  {
    if s == [] then 0
    else if 9 <= s[0] <= 13 || s[0] == BLANK then 1
    else if |s| >= 2 && NarrowSpace(s[0], s[1]) then 2
    else if |s| >= 3 && WideSpace(s[0], s[1], s[2]) then 3
    else 0
  }

  function SpaceTail(s: Text): (n: nat)
    ensures n <= |s|
  {
    var n := |s|;
    if s == [] then 0
    else if 9 <= s[n - 1] <= 13 || s[n - 1] == BLANK then 1
    else if n >= 2 && NarrowSpace(s[n - 2], s[n - 1]) then 2
    else if n >= 3 && WideSpace(s[n - 3], s[n - 2], s[n - 1]) then 3
    else 0
  }

  predicate NarrowSpace(a: Byte, b: Byte) {
    a == 0xC2 && (b == 0x85 || b == 0xA0)
  }

  predicate WideSpace(a: Byte, b: Byte, c: Byte) {
    || (a == 0xE1 && b == 0x9A && c == 0x80)
    || (a == 0xE2 && b == 0x80 && (0x80 <= c <= 0x8A || c == 0xA8 || c == 0xA9 || c == 0xAF))
    || (a == 0xE2 && b == 0x81 && c == 0x9F)
    || (a == 0xE3 && b == 0x80 && c == 0x80)
  }

  function TrimStart(s: Text): Text {
    if SpaceHead(s) == 0 then s else TrimStart(s[SpaceHead(s)..])
  }

  function TrimEnd(s: Text): Text {
    if SpaceTail(s) == 0 then s else TrimEnd(s[..|s| - SpaceTail(s)])
  }

  function Trim(s: Text): Text {
    TrimEnd(TrimStart(s))
  }

  predicate Trimmed(s: Text) {
    SpaceHead(s) == 0 && SpaceTail(s) == 0
  }

  lemma TrimKeeps(s: Text)
    requires Trimmed(s)
    ensures Trim(s) == s && Trim([BLANK] + s) == s
  {
    assert ([BLANK] + s)[1..] == s;
  }

  /** The lines of a text, without the end of line. */
  function Lines(s: Text): seq<Text> {
    LinesOf(s, LF)
  }

  function TrimCr(s: Text): Text {
    if s != [] && s[|s| - 1] == CR then TrimCr(s[..|s| - 1]) else s
  }

  /** The text before and after the first colon. */
  function SplitColon(s: Text): Option<(Text, Text)> {
    if s == [] then None
    else if s[0] == COLON then Some(([], s[1..]))
    else match SplitColon(s[1..]) case None => None case Some(p) => Some(([s[0]] + p.0, p.1))
  }

  function ParseHeaderLine(line: Text): Option<Header> {
    match SplitColon(TrimCr(line))
    case None => None
    case Some(p) => Some(Header(Trim(p.0), Trim(p.1)))
  }

  function EnterHeader(m: map<Text, Text>, h: Option<Header>): map<Text, Text> {
    if h.None? then m else m[h.value.key := h.value.value]
  }

  function CollectHeaders(lines: seq<Text>): map<Text, Text> {
    if lines == [] then map[]
    else EnterHeader(CollectHeaders(lines[..|lines| - 1]), ParseHeaderLine(lines[|lines| - 1]))
  }

  /** The headers as a map; a later header replaces an earlier one of the same key. */
  function HeaderMap(hs: seq<Header>): map<Text, Text> {
    if hs == [] then map[] else HeaderMap(hs[..|hs| - 1])[hs[|hs| - 1].key := hs[|hs| - 1].value]
  }

  predicate OneLine(s: Text) {
    CR !in s && LF !in s
  }

  predicate GoodHeader(h: Header) {
    OneLine(h.key) && OneLine(h.value) && COLON !in h.key && Trimmed(h.key) && Trimmed(h.value) && Utf8(h.key)
    && Utf8(h.value)
  }

  predicate GoodHeaders(hs: seq<Header>) {
    forall i :: 0 <= i < |hs| ==> GoodHeader(hs[i])
  }

  lemma {:induction false} SplitColonAt(key: Text, rest: Text)
    requires COLON !in key
    ensures SplitColon(key + [COLON] + rest) == Some((key, rest))
  {
    var s := key + [COLON] + rest;
    if key == [] {
      assert s[1..] == rest;
    } else {
      SplitColonAt(key[1..], rest);
      assert s[1..] == key[1..] + [COLON] + rest;
      assert key == [key[0]] + key[1..];
    }
  }

  lemma {:induction false} TrimCrKeeps(line: Text)
    requires line != [] && line[|line| - 1] != CR
    ensures TrimCr(line) == line && TrimCr(line + [CR]) == line
  {
    assert (line + [CR])[..|line|] == line;
  }

  lemma {:induction false} HeaderSplits(h: Header)
    requires GoodHeader(h)
    ensures SplitColon(HeaderLine(h)) == Some((h.key, [BLANK] + h.value))
  {
    assert HeaderLine(h) == h.key + [COLON] + ([BLANK] + h.value);
    SplitColonAt(h.key, [BLANK] + h.value);
  }

  lemma {:induction false} HeaderLineParses(h: Header)
    requires GoodHeader(h)
    ensures ParseHeaderLine(HeaderLine(h)) == Some(h) && ParseHeaderLine(HeaderLine(h) + [CR]) == Some(h)
  {
    var line := HeaderLine(h);
    assert line[|line| - 1] == if h.value == [] then BLANK else h.value[|h.value| - 1];
    TrimCrKeeps(line);
    HeaderSplits(h);
    TrimKeeps(h.key);
    TrimKeeps(h.value);
  }

  // ----- what is written and what is read, piece by piece -----

  /** The form of a body: each part between lines, its headers one to a line, the last delimiter closed
      by two dashes. */
  lemma {:induction false} WrittenLayout(boundary: Text, p: Part, more: seq<Part>, h: Header, hs: seq<Header>)
    ensures Delimiter(boundary) == [45, 45] + boundary
    ensures Written(Delimiter(boundary), []) == Delimiter(boundary) + [45, 45] + [13, 10]
    ensures Written(Delimiter(boundary), [p] + more)
         == Delimiter(boundary) + [13, 10] + (HeaderLines(p.headers) + [13, 10] + (p.body + [13, 10]))
            + Written(Delimiter(boundary), more)
    ensures HeaderLines([]) == []
    ensures HeaderLines([h] + hs) == h.key + [58, 32] + h.value + [13, 10] + HeaderLines(hs)
  {
    assert ([p] + more)[1..] == more && ([h] + hs)[1..] == hs;
  }

  /** A value is looked up under its key; of several the last counts. */
  lemma {:induction false} LastHeaderCounts(hs: seq<Header>, key: Text, i: nat)
    requires i < |hs| ==> hs[i].key == key
    requires forall j :: 0 <= j < |hs| && (i < |hs| ==> i < j) ==> hs[j].key != key
    ensures key in HeaderMap(hs) <==> i < |hs|
    ensures i < |hs| ==> HeaderMap(hs)[key] == hs[i].value
    decreases |hs|
  {
    if hs != [] && i != |hs| - 1 {
      var front := hs[..|hs| - 1];
      LastHeaderCounts(front, key, if i < |hs| then i else |hs|);
    }
  }

  /** What a header line says: the words before and after its first colon, without the white space
      around them. A line without a colon says nothing. */
  lemma {:induction false} HeaderLineSays(key: Text, rest: Text)
    requires COLON !in key && (key + [COLON] + rest)[|key| + |rest|] != CR
    ensures ParseHeaderLine(key + [58] + rest) == Some(Header(Trim(key), Trim(rest)))
    ensures ParseHeaderLine(key) == None
  {
    TrimCrKeeps(key + [COLON] + rest);
    SplitColonAt(key, rest);
    NoColon(key);
  }

  lemma {:induction false} NoColon(line: Text)
    requires COLON !in line
    ensures SplitColon(TrimCr(line)) == None
    decreases |line|
  {
    if line != [] && line[|line| - 1] == CR {
      NoColon(line[..|line| - 1]);
    } else {
      NothingToSplit(line);
    }
  }

  lemma {:induction false} NothingToSplit(s: Text)
    requires COLON !in s
    ensures SplitColon(s) == None
  {
    if s != [] { NothingToSplit(s[1..]); }
  }

  /** White space goes from both ends, and only there. */
  lemma {:induction false} TrimDrops(s: Text, space: Byte)
    requires 9 <= space <= 13 || space == 32
    ensures TrimStart([space] + s) == TrimStart(s) && TrimEnd(s + [space]) == TrimEnd(s)
    ensures s != [] && 32 < s[0] < 0x80 ==> TrimStart(s) == s
    ensures s != [] && 32 < s[|s| - 1] < 0x80 ==> TrimEnd(s) == s
  {
    assert ([space] + s)[1..] == s && (s + [space])[..|s|] == s;
  }
}
