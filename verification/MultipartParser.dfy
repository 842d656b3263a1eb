/** The client's parser of multipart bodies, and the round trip with what the server writes. */
module MultipartParser {
  import opened Wrappers
  import opened Bytes
  import opened Seqs
  import opened Codec
  import opened Multipart

  /** What is found ends with the needle's last byte. */
  lemma {:induction false} AtLast(body: Text, needle: Text)
    requires needle != []
    ensures forall i: nat :: At(body, i, needle) ==>
      i + |needle| <= |body| && body[i + |needle| - 1] == needle[|needle| - 1]
  {
    forall i: nat | At(body, i, needle) ensures body[i + |needle| - 1] == needle[|needle| - 1] {
      assert body[i..i + |needle|][|needle| - 1] == body[i + |needle| - 1];
    }
  }

  /** What replaces malformed text is left open; well-formed text must stay as it is. */
  ghost predicate KeepsText(lossy: Text -> Text) {
    forall s {:trigger lossy(s)} :: Utf8(s) ==> lossy(s) == s
  }

  // ----- the parser's functions -----

  /** Where the headers end and the body starts: after the first empty line, in either line style. */
  function HeaderEnd(body: Text, start: nat): (r: Option<(nat, nat)>)
    ensures r.Some? ==> start <= r.value.0 < r.value.1 <= |body| && body[r.value.1 - 1] == LF
  {
    var crlf, lf := Find(body, CRLFCRLF, start), Find(body, LFLF, start);
    AtLast(body, CRLFCRLF);
    AtLast(body, LFLF);
    if crlf.Some? && (lf.None? || crlf.value <= lf.value) then Some((crlf.value, crlf.value + 4))
    else if lf.Some? then Some((lf.value, lf.value + 2))
    else None
  }

  /** A delimiter at the start of a line. */
  predicate LineDelimiter(body: Text, delimiter: Text, i: nat) {
    At(body, i, delimiter) && 0 < i <= |body| && body[i - 1] == LF
  }

  /** The end of the text before a line, without its line break. */
  function BeforeBreak(body: Text, i: nat): nat
    requires 0 < i <= |body|
  {
    if i >= 2 && body[i - 2..i] == CRLF then i - 2 else i - 1
  }

  function EndFrom(body: Text, delimiter: Text, search: nat): (r: Option<(nat, nat)>)
    ensures r.Some? ==>
      search <= r.value.1 && LineDelimiter(body, delimiter, r.value.1) && r.value.0 == BeforeBreak(body, r.value.1)
    decreases |body| + 1 - search
  {
    var found := Find(body, delimiter, search);
    if found.None? then None
    else if found.value >= 2 && body[found.value - 2..found.value] == CRLF then Some((found.value - 2, found.value))
    else if found.value >= 1 && body[found.value - 1] == LF then Some((found.value - 1, found.value))
    else EndFrom(body, delimiter, found.value + 1)
  }

  /** Where a part's body ends and the next delimiter is. */
  function BodyEnd(body: Text, delimiter: Text, start: nat): (r: Option<(nat, nat)>)
    requires 0 < start <= |body| && body[start - 1] == LF
    ensures r.Some? ==> start <= r.value.0 <= r.value.1 && At(body, r.value.1, delimiter)
  {
    if At(body, start, delimiter) then Some((start, start)) else EndFrom(body, delimiter, start)
  }

  function Newline(body: Text, at: nat): (r: Option<nat>)
    ensures r.Some? ==> at < r.value <= |body|
  {
    if At(body, at, CRLF) then Some(at + 2) else if at < |body| && body[at] == LF then Some(at + 1) else None
  }

  /** One part from its delimiter at `cursor`, and where the next delimiter is. */
  function ParsePart(body: Text, delimiter: Text, cursor: nat, lossy: Text -> Text): (r: Result<(ParsedPart, nat)>)
    requires At(body, cursor, delimiter)
    ensures r.Ok? ==> cursor < r.value.1 <= |body|
  {
    var line := Newline(body, cursor + |delimiter|);
    if line.None? then Err(Other)
    else
      var headers := HeaderEnd(body, line.value);
      if headers.None? then Err(Other)
      else
        var ends := BodyEnd(body, delimiter, headers.value.1);
        if ends.None? then Err(Other)
        else
          var text := lossy(body[line.value..headers.value.0]);
          Ok((ParsedPart(CollectHeaders(Lines(text)), body[headers.value.1..ends.value.0]), ends.value.1))
  }

  function ParseFrom(body: Text, delimiter: Text, cursor: nat, lossy: Text -> Text): Result<seq<ParsedPart>>
    requires cursor <= |body|
    decreases |body| - cursor
  {
    if !At(body, cursor, delimiter) then Err(Other)
    else if At(body, cursor + |delimiter|, DASHES) then Ok([])
    else
      var part :- ParsePart(body, delimiter, cursor, lossy);
      var more :- ParseFrom(body, delimiter, part.1, lossy);
      Ok([part.0] + more)
  }

  function ParseWhole(body: Text, delimiter: Text, lossy: Text -> Text): Result<seq<ParsedPart>> {
    var first := Find(body, delimiter, 0);
    if first.None? then Err(Other) else ParseFrom(body, delimiter, first.value, lossy)
  }

  // ----- the parser as it runs -----

  method FindBodyEnd(body: Text, delimiter: Text, start: nat) returns (r: Option<(nat, nat)>)
    requires 0 < start <= |body| && body[start - 1] == LF
    ensures r == BodyEnd(body, delimiter, start)
  {
    if At(body, start, delimiter) {
      return Some((start, start));
    }
    var search := start;
    while true
      invariant EndFrom(body, delimiter, start) == EndFrom(body, delimiter, search)
      decreases |body| + 1 - search
    {
      var found := Find(body, delimiter, search);
      if found.None? {
        return None;
      }
      var f := found.value;
      if f >= 2 && body[f - 2..f] == CRLF {
        return Some((f - 2, f));
      }
      if f >= 1 && body[f - 1] == LF {
        return Some((f - 1, f));
      }
      search := f + 1;
    }
  }

  method ParsePartHeaders(body: Text, start: nat, lossy: Text -> Text) returns (r: Result<(map<Text, Text>, nat)>)
    ensures match HeaderEnd(body, start)
            case None => r == Err(Other)
            case Some(ends) => r == Ok((CollectHeaders(Lines(lossy(body[start..ends.0]))), ends.1))
  {
    var ends := HeaderEnd(body, start);
    if ends.None? {
      return Err(Other);
    }
    var headers: map<Text, Text> := map[];
    var lines := Lines(lossy(body[start..ends.value.0]));
    for i := 0 to |lines|
      invariant headers == CollectHeaders(lines[..i])
    {
      assert lines[..i + 1][..i] == lines[..i];
      var header := ParseHeaderLine(lines[i]);
      if header.Some? {
        headers := headers[header.value.key := header.value.value];
      }
    }
    TakeAll(lines);
    return Ok((headers, ends.value.1));
  }

  method ParseMultipart(body: Text, boundary: Text, lossy: Text -> Text) returns (r: Result<seq<ParsedPart>>)
    ensures r == ParseWhole(body, Delimiter(boundary), lossy)
  {
    var delimiter := Delimiter(boundary);
    var first := Find(body, delimiter, 0);
    if first.None? {
      return Err(Other);
    }
    r := ParseParts(body, delimiter, first.value, lossy);
  }

  /** The cursor moves from delimiter to delimiter until the closing one. */
  method ParseParts(body: Text, delimiter: Text, start: nat, lossy: Text -> Text) returns (r: Result<seq<ParsedPart>>)
    requires start <= |body|
    ensures r == ParseFrom(body, delimiter, start, lossy)
  {
    var cursor := start;
    var parts: seq<ParsedPart> := [];
    ghost var whole := ParseFrom(body, delimiter, start, lossy);
    Prepend(parts, whole);
    while true
      invariant cursor <= |body| && whole == After(parts, ParseFrom(body, delimiter, cursor, lossy))
      decreases |body| - cursor
    {
      if !At(body, cursor, delimiter) {
        return Err(Other);
      }
      if At(body, cursor + |delimiter|, DASHES) {
        assert parts + [] == parts;
        return Ok(parts);
      }
      var part := ParseOnePart(body, delimiter, cursor, lossy);
      if part.Err? {
        return Err(part.error);
      }
      ParseStep(body, delimiter, cursor, lossy, parts);
      parts := parts + [part.value.0];
      cursor := part.value.1;
    }
  }

  method ParseOnePart(body: Text, delimiter: Text, cursor: nat, lossy: Text -> Text)
      returns (r: Result<(ParsedPart, nat)>)
    requires At(body, cursor, delimiter)
    ensures r == ParsePart(body, delimiter, cursor, lossy)
  {
    var line := Newline(body, cursor + |delimiter|);
    if line.None? {
      return Err(Other);
    }
    var headers := ParsePartHeaders(body, line.value, lossy);
    if headers.Err? {
      return Err(Other);
    }
    var ends := FindBodyEnd(body, delimiter, headers.value.1);
    if ends.None? {
      return Err(Other);
    }
    return Ok((ParsedPart(headers.value.0, body[headers.value.1..ends.value.0]), ends.value.1));
  }

  ghost function After(parts: seq<ParsedPart>, more: Result<seq<ParsedPart>>): Result<seq<ParsedPart>> {
    match more case Ok(tail) => Ok(parts + tail) case Err(e) => Err(e)
  }

  lemma {:induction false} Prepend(parts: seq<ParsedPart>, more: Result<seq<ParsedPart>>)
    requires parts == []
    ensures After(parts, more) == more
  {
    if more.Ok? { assert parts + more.value == more.value; }
  }

  lemma {:induction false} PrependOne(parts: seq<ParsedPart>, part: ParsedPart, more: Result<seq<ParsedPart>>)
    ensures After(parts + [part], more) == After(parts, After([part], more))
  {
    if more.Ok? { Assoc(parts, [part], more.value); }
  }

  /** One round of the loop. */
  lemma {:induction false} ParseStep(body: Text, delimiter: Text, cursor: nat, lossy: Text -> Text,
      parts: seq<ParsedPart>)
    requires cursor <= |body| && At(body, cursor, delimiter) && !At(body, cursor + |delimiter|, DASHES)
    requires ParsePart(body, delimiter, cursor, lossy).Ok?
    ensures var (part, end) := ParsePart(body, delimiter, cursor, lossy).value;
            After(parts, ParseFrom(body, delimiter, cursor, lossy)) == After(parts + [part],
                ParseFrom(body, delimiter, end, lossy))
  {
    var (part, end) := ParsePart(body, delimiter, cursor, lossy).value;
    PrependOne(parts, part, ParseFrom(body, delimiter, end, lossy));
  }

  /** Where something ends, and where what follows it starts. */
  predicate Ends(r: Option<(nat, nat)>, end: nat, next: nat) {
    r.Some? && r.value.0 == end && r.value.1 == next
  }

  // ----- headers come back -----

  /** The lines as the parser cuts them: all but the last still end with the carriage return. */
  function HeaderTexts(hs: seq<Header>): (ts: seq<Text>)
    ensures |ts| == |hs|
  {
    if hs == [] then [] else [if |hs| == 1 then HeaderLine(hs[0]) else HeaderLine(hs[0]) + [CR]] + HeaderTexts(hs[1..])
  }

  /** The header lines joined by line breaks, without one after the last. */
  function HeaderBlock(hs: seq<Header>): Text
    requires hs != []
  {
    if |hs| == 1 then HeaderLine(hs[0]) else HeaderLine(hs[0]) + CRLF + HeaderBlock(hs[1..])
  }

  lemma {:induction false} BlockAndBreak(hs: seq<Header>)
    requires hs != []
    ensures HeaderLines(hs) == HeaderBlock(hs) + CRLF
  {
    if |hs| > 1 {
      BlockAndBreak(hs[1..]);
      Assoc(HeaderLine(hs[0]) + CRLF, HeaderBlock(hs[1..]), CRLF);
    } else {
      assert HeaderLines(hs[1..]) == [];
    }
  }

  lemma {:induction false} LineIsPlain(h: Header)
    requires GoodHeader(h)
    ensures OneLine(HeaderLine(h)) && HeaderLine(h) != []
  {
  }

  lemma {:induction false} LinesOfBlock(hs: seq<Header>)
    requires GoodHeaders(hs) && hs != []
    ensures Lines(HeaderBlock(hs)) == HeaderTexts(hs)
  {
    LineIsPlain(hs[0]);
    var line := HeaderLine(hs[0]);
    if |hs| == 1 {
      LastLine(line, LF);
    } else {
      assert hs[1..][0] == hs[1];
      LinesOfBlock(hs[1..]);
      var more := HeaderBlock(hs[1..]);
      LineBreak(line + [CR], LF, more);
      assert line + CRLF == line + [CR] + [LF];
    }
  }

  lemma {:induction false} TextsParse(hs: seq<Header>, i: nat)
    requires GoodHeaders(hs) && i < |hs|
    ensures ParseHeaderLine(HeaderTexts(hs)[i]) == Some(hs[i])
  {
    HeaderLineParses(hs[0]);
    if i > 0 { TextsParse(hs[1..], i - 1); }
  }

  lemma {:induction false} CollectAll(lines: seq<Text>, hs: seq<Header>)
    requires |lines| == |hs| && forall i :: 0 <= i < |hs| ==> ParseHeaderLine(lines[i]) == Some(hs[i])
    ensures CollectHeaders(lines) == HeaderMap(hs)
  {
    if hs != [] { CollectAll(lines[..|lines| - 1], hs[..|hs| - 1]); }
  }

  lemma {:induction false} BlockIsUtf8(hs: seq<Header>)
    requires GoodHeaders(hs) && hs != []
    ensures Utf8(HeaderBlock(hs))
  {
    LineIsUtf8(hs[0]);
    if |hs| > 1 {
      assert hs[1..][0] == hs[1];
      BlockIsUtf8(hs[1..]);
      var line, more := HeaderLine(hs[0]), HeaderBlock(hs[1..]);
      Utf8AroundAscii([], LF, more);
      assert [] + [LF] + more == [LF] + more;
      Utf8AroundAscii(line, CR, [LF] + more);
      assert line + CRLF + more == line + [CR] + ([LF] + more);
    }
  }

  lemma {:induction false} LineIsUtf8(h: Header)
    requires GoodHeader(h)
    ensures Utf8(HeaderLine(h))
  {
    Utf8AroundAscii([], BLANK, h.value);
    assert [] + [BLANK] + h.value == [BLANK] + h.value;
    Utf8AroundAscii(h.key, COLON, [BLANK] + h.value);
    assert HeaderLine(h) == h.key + [COLON] + ([BLANK] + h.value);
  }

  /** The header block, read by anything that leaves well-formed text alone, gives the headers. */
  lemma {:induction false} BlockParses(hs: seq<Header>, lossy: Text -> Text)
    requires GoodHeaders(hs) && hs != [] && KeepsText(lossy)
    ensures CollectHeaders(Lines(lossy(HeaderBlock(hs)))) == HeaderMap(hs)
  {
    BlockIsUtf8(hs);
    LinesOfBlock(hs);
    forall i | 0 <= i < |hs| ensures ParseHeaderLine(HeaderTexts(hs)[i]) == Some(hs[i]) { TextsParse(hs, i); }
    CollectAll(HeaderTexts(hs), hs);
  }

  /** One byte that differs is enough. */
  lemma {:induction false} Differs(s: Text, k: nat, needle: Text, j: nat)
    requires j < |needle| && k + j < |s| && s[k + j] != needle[j]
    ensures !At(s, k, needle)
  {
    if k + |needle| <= |s| { assert s[k..k + |needle|][j] == s[k + j]; }
  }

  /** Inside the block no two line breaks follow each other. */
  lemma {:induction false} NoEmptyLine(hs: seq<Header>, k: nat)
    requires GoodHeaders(hs) && hs != [] && k < |HeaderBlock(hs)|
    ensures var s := HeaderBlock(hs) + CRLFCRLF; !At(s, k, CRLFCRLF) && !At(s, k, LFLF)
  {
    var line := HeaderLine(hs[0]);
    var s := HeaderBlock(hs) + CRLFCRLF;
    LineIsPlain(hs[0]);
    if k < |line| {
      assert s[k] == line[k];
      Differs(s, k, CRLFCRLF, 0);
      Differs(s, k, LFLF, 0);
    } else {
      assert hs[1..][0] == hs[1];
      var more := HeaderBlock(hs[1..]) + CRLFCRLF;
      assert s == line + CRLF + more;
      if k >= |line| + 2 {
        NoEmptyLine(hs[1..], k - |line| - 2);
        Shift(line + CRLF, more, k, CRLFCRLF);
        Shift(line + CRLF, more, k, LFLF);
      } else {
        NextLineStarts(hs[1..]);
        AtLineEnd(line, more, k);
      }
    }
  }

  lemma {:induction false} NextLineStarts(hs: seq<Header>)
    requires GoodHeaders(hs) && hs != []
    ensures HeaderBlock(hs) != [] && HeaderBlock(hs)[0] != CR && HeaderBlock(hs)[0] != LF
  {
    LineIsPlain(hs[0]);
    assert HeaderBlock(hs)[0] == HeaderLine(hs[0])[0];
  }

  lemma {:induction false} AtLineEnd(line: Text, more: Text, k: nat)
    requires |line| <= k < |line| + 2 && more != [] && more[0] != CR && more[0] != LF
    ensures var s := line + CRLF + more; !At(s, k, CRLFCRLF) && !At(s, k, LFLF)
  {
    var s := line + CRLF + more;
    assert s[|line|] == CR && s[|line| + 1] == LF && s[|line| + 2] == more[0];
    Differs(s, k, CRLFCRLF, if k == |line| then 2 else 0);
    Differs(s, k, LFLF, if k == |line| then 0 else 1);
  }

  /** Looking further back in a longer text. */
  lemma {:induction false} Shift(before: Text, rest: Text, k: nat, needle: Text)
    requires k >= |before|
    ensures At(before + rest, k, needle) <==> At(rest, k - |before|, needle)
  {
    if k + |needle| <= |before + rest| {
      assert (before + rest)[k..k + |needle|] == rest[k - |before|..k - |before| + |needle|];
    }
  }

  // ----- positions in a text with a known rest -----

  lemma {:induction false} AtRest(body: Text, c: nat, k: nat, needle: Text)
    requires c <= |body|
    ensures At(body, c + k, needle) <==> At(body[c..], k, needle)
  {
    if c + k + |needle| <= |body| { assert body[c + k..c + k + |needle|] == body[c..][k..k + |needle|]; }
  }

  lemma {:induction false} AtFront(front: Text, rest: Text, k: nat, needle: Text)
    requires k + |needle| <= |front|
    ensures At(front + rest, k, needle) <==> At(front, k, needle)
  {
    assert (front + rest)[k..k + |needle|] == front[k..k + |needle|];
  }

  lemma {:induction false} NoEarlyEnd(body: Text, start: nat, hs: seq<Header>, rest: Text, k: nat)
    requires start <= |body| && GoodHeaders(hs) && hs != [] && body[start..] == HeaderBlock(hs) + CRLFCRLF + rest
    requires k < |HeaderBlock(hs)|
    ensures !At(body, start + k, CRLFCRLF) && !At(body, start + k, LFLF)
  {
    var s := HeaderBlock(hs) + CRLFCRLF;
    NoEmptyLine(hs, k);
    AtFront(s, rest, k, CRLFCRLF);
    AtRest(body, start, k, CRLFCRLF);
    AtFront(s, rest, k, LFLF);
    AtRest(body, start, k, LFLF);
  }

  lemma {:induction false} EndIsThere(body: Text, start: nat, block: Text, rest: Text)
    requires start <= |body| && body[start..] == block + CRLFCRLF + rest
    ensures At(body, start + |block|, CRLFCRLF) && body[start..start + |block|] == block
  {
    assert (block + CRLFCRLF)[|block|..|block| + 4] == CRLFCRLF;
    AtFront(block + CRLFCRLF, rest, |block|, CRLFCRLF);
    AtRest(body, start, |block|, CRLFCRLF);
    assert body[start..start + |block|] == body[start..][..|block|];
  }

  /** The headers of a part end where they were written to end. */
  lemma {:induction false} HeadersEnd(body: Text, start: nat, hs: seq<Header>, rest: Text)
    requires start <= |body| && GoodHeaders(hs) && hs != [] && body[start..] == HeaderBlock(hs) + CRLFCRLF + rest
    ensures Ends(HeaderEnd(body, start), start + |HeaderBlock(hs)|, start + |HeaderBlock(hs)| + 4)
  {
    var end := start + |HeaderBlock(hs)|;
    EndIsThere(body, start, HeaderBlock(hs), rest);
    forall k | start <= k < end ensures !At(body, k, CRLFCRLF) && !At(body, k, LFLF) {
      NoEarlyEnd(body, start, hs, rest, k - start);
    }
    FoundFirst(body, CRLFCRLF, start, end);
    NotFoundBefore(body, LFLF, start, end);
  }

  // ----- bodies come back -----

  /** No line of the body, its first one included, starts with the delimiter. */
  predicate PlainBody(delimiter: Text, b: Text) {
    !At(b, 0, delimiter) && forall k :: 0 <= k <= |b| ==> !LineDelimiter(b, delimiter, k)
  }

  predicate GoodDelimiter(delimiter: Text) {
    OneLine(delimiter) && |delimiter| >= 2 && delimiter[0] == 45
  }

  /** Within what is written of a body, up to the next delimiter, delimiters are those of the body. */
  lemma {:induction false} DelimiterInside(b: Text, delimiter: Text, rest: Text, k: nat)
    requires GoodDelimiter(delimiter) && k < |b| + 2
    ensures At(b + CRLF + rest, k, delimiter) <==> At(b, k, delimiter)
  {
    var s := b + CRLF + rest;
    assert s == b + (CRLF + rest) && s[|b|] == CR && s[|b| + 1] == LF;
    if k + |delimiter| <= |b| {
      AtFront(b, CRLF + rest, k, delimiter);
    } else if k <= |b| {
      Differs(s, k, delimiter, |b| - k);
    } else {
      Differs(s, k, delimiter, 0);
    }
  }

  lemma {:induction false} LineDelimiterInside(body: Text, start: nat, b: Text, delimiter: Text, rest: Text, k: nat)
    requires start <= |body| && body[start..] == b + CRLF + rest && GoodDelimiter(delimiter) && k < |b| + 2
    ensures At(body, start + k, delimiter) <==> At(b, k, delimiter)
    ensures k > 0 ==> (LineDelimiter(body, delimiter, start + k) <==> LineDelimiter(b, delimiter, k))
  {
    AtRest(body, start, k, delimiter);
    DelimiterInside(b, delimiter, rest, k);
    if 0 < k <= |b| { assert body[start..][k - 1] == body[start + k - 1]; }
  }

  /** The delimiter after the body is one at the start of a line. */
  lemma {:induction false} DelimiterAfter(body: Text, start: nat, b: Text, delimiter: Text, rest: Text)
    requires start <= |body| && body[start..] == b + CRLF + rest && At(rest, 0, delimiter)
    ensures var next := start + |b| + 2; LineDelimiter(body, delimiter, next) && BeforeBreak(body, next) == start + |b|
    ensures body[start..start + |b|] == b
  {
    var next := start + |b| + 2;
    Shift(b + CRLF, rest, |b| + 2, delimiter);
    AtRest(body, start, |b| + 2, delimiter);
    assert body[start..][|b|] == body[next - 2] && body[start..][|b| + 1] == body[next - 1];
    assert body[start..start + |b|] == body[start..][..|b|];
  }

  lemma {:induction false} NoneInPlainBody(body: Text, start: nat, b: Text, delimiter: Text, rest: Text, k: nat)
    requires start <= |body| && body[start..] == b + CRLF + rest && GoodDelimiter(delimiter) && PlainBody(delimiter, b)
    requires k < |b| + 2
    ensures !LineDelimiter(body, delimiter, start + k)
  {
    LineDelimiterInside(body, start, b, delimiter, rest, k);
    if k == |b| + 1 { Differs(b + CRLF + rest, k, delimiter, 0); }
  }

  /** A body none of whose lines starts with the delimiter ends where it was written to end. */
  lemma {:induction false} PlainBodyEnds(body: Text, start: nat, b: Text, delimiter: Text, rest: Text)
    requires 0 < start <= |body| && body[start - 1] == LF && body[start..] == b + CRLF + rest
    requires GoodDelimiter(delimiter) && At(rest, 0, delimiter) && PlainBody(delimiter, b)
    ensures Ends(BodyEnd(body, delimiter, start), start + |b|, start + |b| + 2)
  {
    var next := start + |b| + 2;
    DelimiterAfter(body, start, b, delimiter, rest);
    NotAtOnce(body, start, b, delimiter, rest);
    forall g | start <= g < next ensures !LineDelimiter(body, delimiter, g) {
      NoneInPlainBody(body, start, b, delimiter, rest, g - start);
    }
    EndFromIs(body, delimiter, start, next);
  }

  lemma {:induction false} NotAtOnce(body: Text, start: nat, b: Text, delimiter: Text, rest: Text)
    requires start <= |body| && body[start..] == b + CRLF + rest && GoodDelimiter(delimiter) && PlainBody(delimiter, b)
    ensures !At(body, start, delimiter)
  {
    LineDelimiterInside(body, start, b, delimiter, rest, 0);
  }

  lemma {:induction false} EndFromIs(body: Text, delimiter: Text, search: nat, next: nat)
    requires search <= next && LineDelimiter(body, delimiter, next) && forall g :: search <= g < next ==>
      !LineDelimiter(body, delimiter, g)
    ensures Ends(EndFrom(body, delimiter, search), BeforeBreak(body, next), next)
    decreases next - search
  {
    FindIsFirst(body, delimiter, search);
    var found := Find(body, delimiter, search).value;
    if found < next { EndFromIs(body, delimiter, found + 1, next); }
  }

  // ----- the round trip -----

  lemma {:induction false} SuffixOf(body: Text, c: nat, front: Text, rest: Text)
    requires c <= |body| && body[c..] == front + rest
    ensures c + |front| <= |body| && body[c + |front|..] == rest
  {
    assert body[c + |front|..] == body[c..][|front|..];
  }

  lemma {:induction false} AtStart(body: Text, c: nat, needle: Text, rest: Text)
    requires c <= |body| && body[c..] == needle + rest
    ensures At(body, c, needle)
  {
    assert body[c..c + |needle|] == body[c..][..|needle|];
  }

  /** The same text, cut after the delimiter line, and after the headers. */
  lemma {:induction false} Regroup(delimiter: Text, block: Text, b: Text, more: Text)
    ensures delimiter + CRLF + (block + CRLF + CRLF + (b + CRLF)) + more
        == delimiter + (CRLF + (block + CRLFCRLF + (b + CRLF + more)))
    ensures CRLF + CRLF == CRLFCRLF
  {
  }

  /** Where the pieces of a part are. */
  lemma {:induction false} PartLayout(body: Text, delimiter: Text, c: nat, p: Part, more: Text)
    requires c <= |body| && body[c..] == PartText(delimiter, p) + more && p.headers != []
    ensures At(body, c, delimiter) && At(body, c + |delimiter|, CRLF)
    ensures var line, size := c + |delimiter| + 2, |HeaderBlock(p.headers)|;
      && line + size + 4 <= |body|
      && body[line..] == HeaderBlock(p.headers) + CRLFCRLF + (p.body + CRLF + more)
      && body[line + size + 4..] == p.body + CRLF + more
  {
    var block := HeaderBlock(p.headers);
    BlockAndBreak(p.headers);
    Regroup(delimiter, block, p.body, more);
    AtStart(body, c, delimiter, CRLF + (block + CRLFCRLF + (p.body + CRLF + more)));
    SuffixOf(body, c, delimiter, CRLF + (block + CRLFCRLF + (p.body + CRLF + more)));
    AtStart(body, c + |delimiter|, CRLF, block + CRLFCRLF + (p.body + CRLF + more));
    SuffixOf(body, c + |delimiter|, CRLF, block + CRLFCRLF + (p.body + CRLF + more));
    SuffixOf(body, c + |delimiter| + 2, block + CRLFCRLF, p.body + CRLF + more);
  }

  lemma {:induction false} NotDashes(body: Text, at: nat)
    requires At(body, at, CRLF)
    ensures !At(body, at, DASHES)
  {
    assert body[at..at + 2][0] == CR;
  }

  /** From `c` on there is this part, and then `more`. */
  ghost predicate PartAt(body: Text, delimiter: Text, c: nat, p: Part, more: Text) {
    c <= |body| && body[c..] == PartText(delimiter, p) + more
  }

  lemma {:induction false} PartStarts(body: Text, delimiter: Text, c: nat, p: Part, more: Text)
    requires PartAt(body, delimiter, c, p, more)
    ensures At(body, c, delimiter) && !At(body, c + |delimiter|, DASHES)
    ensures Newline(body, c + |delimiter|).Some? && Newline(body, c + |delimiter|).value == c + |delimiter| + 2
    ensures c + |delimiter| + 2 <= |body|
    ensures body[c + |delimiter| + 2..] == HeaderLines(p.headers) + CRLF + (p.body + CRLF) + more
  {
    var rest := HeaderLines(p.headers) + CRLF + (p.body + CRLF);
    CutDelimiter(delimiter, rest, more);
    AtStart(body, c, delimiter, CRLF + (rest + more));
    SuffixOf(body, c, delimiter, CRLF + (rest + more));
    AtStart(body, c + |delimiter|, CRLF, rest + more);
    SuffixOf(body, c + |delimiter|, CRLF, rest + more);
    NotDashes(body, c + |delimiter|);
  }

  lemma {:induction false} CutDelimiter(delimiter: Text, rest: Text, more: Text)
    ensures delimiter + CRLF + rest + more == delimiter + (CRLF + (rest + more))
  {
  }

  /** What the parser finds of a part before its body: the headers from `line` to `stop`, and the
      start of the body. */
  ghost predicate FindsHead(body: Text, delimiter: Text, c: nat, line: nat, stop: nat, start: nat) {
    && At(body, c, delimiter) && !At(body, c + |delimiter|, DASHES)
    && Newline(body, c + |delimiter|).Some? && Newline(body, c + |delimiter|).value == line
    && Ends(HeaderEnd(body, line), stop, start)
  }

  /** The parser's steps on one part, put together. */
  lemma {:induction false} PartFrom(body: Text, delimiter: Text, c: nat, line: nat, stop: nat, start: nat, end: nat,
      next: nat, lossy: Text -> Text)
    requires FindsHead(body, delimiter, c, line, stop, start) && Ends(BodyEnd(body, delimiter, start), end, next)
    ensures ParsePart(body, delimiter, c, lossy)
        == Ok((ParsedPart(CollectHeaders(Lines(lossy(body[line..stop]))), body[start..end]), next))
  {
  }

  /** Headers at the start of a line are found as they were written, and so is what follows them. */
  lemma {:induction false} BlockFound(body: Text, line: nat, hs: seq<Header>, rest: Text)
      returns (stop: nat, start: nat)
    requires line <= |body| && GoodHeaders(hs) && hs != [] && body[line..] == HeaderBlock(hs) + CRLFCRLF + rest
    ensures Ends(HeaderEnd(body, line), stop, start) && body[line..stop] == HeaderBlock(hs)
    ensures line < start <= |body| && body[start..] == rest
  {
    HeadersEnd(body, line, hs, rest);
    EndIsThere(body, line, HeaderBlock(hs), rest);
    SuffixOf(body, line, HeaderBlock(hs) + CRLFCRLF, rest);
    stop := line + |HeaderBlock(hs)|;
    start := stop + 4;
  }

  /** A part's headers are found as they were written, and what follows is its body. */
  lemma {:induction false} HeadFound(body: Text, delimiter: Text, c: nat, p: Part, more: Text)
      returns (line: nat, stop: nat, start: nat)
    requires PartAt(body, delimiter, c, p, more) && GoodHeaders(p.headers) && p.headers != []
    ensures FindsHead(body, delimiter, c, line, stop, start) && body[line..stop] == HeaderBlock(p.headers)
    ensures c < start <= |body| && body[start..] == p.body + CRLF + more
  {
    PartStarts(body, delimiter, c, p, more);
    PartLayout(body, delimiter, c, p, more);
    line := c + |delimiter| + 2;
    stop, start := BlockFound(body, line, p.headers, p.body + CRLF + more);
  }

  /** A body none of whose lines starts with the delimiter is found whole. */
  lemma {:induction false} PlainBodyFound(body: Text, delimiter: Text, start: nat, b: Text, more: Text)
      returns (end: nat, next: nat)
    requires 0 < start <= |body| && body[start - 1] == LF && body[start..] == b + CRLF + more
    requires GoodDelimiter(delimiter) && At(more, 0, delimiter) && PlainBody(delimiter, b)
    ensures Ends(BodyEnd(body, delimiter, start), end, next) && body[start..end] == b
    ensures start <= next <= |body| && body[next..] == more
  {
    PlainBodyEnds(body, start, b, delimiter, more);
    DelimiterAfter(body, start, b, delimiter, more);
    SuffixOf(body, start, b + CRLF, more);
    end := start + |b|;
    next := end + 2;
  }

  function AsParsed(parts: seq<Part>): (r: seq<ParsedPart>)
    ensures |r| == |parts|
  {
    if parts == [] then [] else [ParsedPart(HeaderMap(parts[0].headers), parts[0].body)] + AsParsed(parts[1..])
  }

  lemma {:induction false} WrittenStarts(delimiter: Text, parts: seq<Part>)
    ensures At(Written(delimiter, parts), 0, delimiter)
  {
  }

  predicate AllPlain(delimiter: Text, parts: seq<Part>) {
    forall i {:trigger PlainBody(delimiter, parts[i].body)} :: 0 <= i < |parts| ==> PlainBody(delimiter, parts[i].body)
  }

  /** One round of the parser. */
  lemma {:induction false} ParseRound(body: Text, delimiter: Text, c: nat, line: nat, stop: nat, start: nat, end: nat,
      next: nat, lossy: Text -> Text)
    requires FindsHead(body, delimiter, c, line, stop, start) && Ends(BodyEnd(body, delimiter, start), end, next)
    requires c < start
    ensures ParseFrom(body, delimiter, c, lossy) ==
            After([ParsedPart(CollectHeaders(Lines(lossy(body[line..stop]))), body[start..end])],
                ParseFrom(body, delimiter, next, lossy))
  {
    PartFrom(body, delimiter, c, line, stop, start, end, next, lossy);
  }

  ghost predicate AllGoodHeaders(parts: seq<Part>) {
    forall i {:trigger GoodHeaders(parts[i].headers)} :: 0 <= i < |parts| ==> GoodHeaders(parts[i].headers)
  }

  /** A first part whose body is plain is read back, and the parser goes on behind it. */
  lemma {:induction false} PlainRound(body: Text, delimiter: Text, c: nat, p: Part, more: Text, lossy: Text -> Text)
      returns (next: nat)
    requires PartAt(body, delimiter, c, p, more) && GoodDelimiter(delimiter) && At(more, 0, delimiter)
    requires GoodHeaders(p.headers) && p.headers != [] && KeepsText(lossy) && PlainBody(delimiter, p.body)
    ensures next <= |body| && body[next..] == more
    ensures ParseFrom(body, delimiter, c, lossy)
        == After([ParsedPart(HeaderMap(p.headers), p.body)], ParseFrom(body, delimiter, next, lossy))
  {
    var line, stop, start := HeadFound(body, delimiter, c, p, more);
    var end;
    end, next := PlainBodyFound(body, delimiter, start, p.body, more);
    BlockParses(p.headers, lossy);
    ParseRound(body, delimiter, c, line, stop, start, end, next, lossy);
  }

  /** A first part without headers and with an empty body is read back as well: the blank line of its
      headers and the line break of its body end its headers together. */
  lemma {:induction false} EmptyRound(body: Text, delimiter: Text, c: nat, p: Part, more: Text, lossy: Text -> Text)
      returns (next: nat)
    requires PartAt(body, delimiter, c, p, more) && At(more, 0, delimiter) && KeepsText(lossy)
    requires p.headers == [] && p.body == []
    ensures next <= |body| && body[next..] == more
    ensures ParseFrom(body, delimiter, c, lossy)
        == After([ParsedPart(HeaderMap(p.headers), p.body)], ParseFrom(body, delimiter, next, lossy))
  {
    PartStarts(body, delimiter, c, p, more);
    var line := c + |delimiter| + 2;
    assert HeaderLines(p.headers) + CRLF + (p.body + CRLF) == CRLFCRLF;
    AtStart(body, line, CRLFCRLF, more);
    SuffixOf(body, line, CRLFCRLF, more);
    FoundFirst(body, CRLFCRLF, line, line);
    NotFoundBefore(body, LFLF, line, line);
    next := line + 4;
    AtRest(body, next, 0, delimiter);
    assert body[line..line] == [] && body[next..next] == [];
    assert Lines(lossy([])) == [];
    ParseRound(body, delimiter, c, line, line, next, next, next, lossy);
  }

  /** What holds of all parts holds of the first, and of those from the `k`-th on. */
  lemma {:induction false} FirstAndRest(delimiter: Text, parts: seq<Part>, k: nat)
    requires k <= |parts| && AllPlain(delimiter, parts) && AllGoodHeaders(parts)
    ensures AllPlain(delimiter, parts[k..]) && AllGoodHeaders(parts[k..])
    ensures parts != [] ==> PlainBody(delimiter, parts[0].body) && GoodHeaders(parts[0].headers)
  {
    var rest := parts[k..];
    forall i | 0 <= i < |rest| ensures PlainBody(delimiter, rest[i].body) && GoodHeaders(rest[i].headers) {
      assert rest[i] == parts[k + i];
      assert PlainBody(delimiter, parts[k + i].body) && GoodHeaders(parts[k + i].headers);
    }
  }

  /** Without headers there is nothing before the blank line, so a body must not follow it. */
  predicate Readable(p: Part) {
    p.headers != [] || p.body == []
  }

  predicate AllReadable(parts: seq<Part>) {
    forall i {:trigger Readable(parts[i])} :: 0 <= i < |parts| ==> Readable(parts[i])
  }

  /** Parts that can be read, without a line that starts with the delimiter, are all read back in order. */
  lemma {:induction false} PlainRoundTrip(body: Text, delimiter: Text, c: nat, parts: seq<Part>, lossy: Text -> Text)
    requires c <= |body| && body[c..] == Written(delimiter, parts) && GoodDelimiter(delimiter)
    requires AllGoodHeaders(parts) && KeepsText(lossy) && AllPlain(delimiter, parts) && AllReadable(parts)
    ensures ParseFrom(body, delimiter, c, lossy) == Ok(AsParsed(parts))
    decreases |parts|
  {
    if parts == [] {
      ClosingEnds(body, delimiter, c, lossy);
    } else {
      var p, more := parts[0], Written(delimiter, parts[1..]);
      WrittenStarts(delimiter, parts[1..]);
      FirstAndRest(delimiter, parts, 1);
      assert Readable(p);
      assert AllReadable(parts[1..]) by {
        forall i | 0 <= i < |parts[1..]| ensures Readable(parts[1..][i]) { assert Readable(parts[i + 1]); }
      }
      var next;
      if p.headers != [] {
        next := PlainRound(body, delimiter, c, p, more, lossy);
      } else {
        next := EmptyRound(body, delimiter, c, p, more, lossy);
      }
      PlainRoundTrip(body, delimiter, next, parts[1..], lossy);
    }
  }

  lemma {:induction false} ClosingEnds(body: Text, delimiter: Text, c: nat, lossy: Text -> Text)
    requires c <= |body| && body[c..] == delimiter + DASHES + CRLF
    ensures ParseFrom(body, delimiter, c, lossy) == Ok([])
  {
    Assoc(delimiter, DASHES, CRLF);
    AtStart(body, c, delimiter, DASHES + CRLF);
    SuffixOf(body, c, delimiter, DASHES + CRLF);
    AtStart(body, c + |delimiter|, DASHES, CRLF);
  }

  // ----- nothing else is read back -----

  /** No body that the parser returns has a line that starts with the delimiter. */
  lemma {:induction false} FoundBodyIsPlain(body: Text, delimiter: Text, start: nat)
    requires 0 < start <= |body| && body[start - 1] == LF && GoodDelimiter(delimiter)
    ensures var r := BodyEnd(body, delimiter, start); r.Some? ==> PlainBody(delimiter, body[start..r.value.0])
  {
    var r := BodyEnd(body, delimiter, start);
    if r.Some? && !At(body, start, delimiter) {
      var b := body[start..r.value.0];
      forall k | 0 <= k <= |b| ensures !LineDelimiter(b, delimiter, k) {
        if LineDelimiter(b, delimiter, k) {
          InSlice(body, delimiter, start, r.value.0, k);
          EndFromIsFirst(body, delimiter, start, start + k);
        }
      }
      if At(b, 0, delimiter) { InSlice(body, delimiter, start, r.value.0, 0); }
    }
  }

  lemma {:induction false} InSlice(body: Text, delimiter: Text, start: nat, end: nat, k: nat)
    requires start <= end <= |body| && At(body[start..end], k, delimiter)
    ensures At(body, start + k, delimiter)
    ensures LineDelimiter(body[start..end], delimiter, k) ==> LineDelimiter(body, delimiter, start + k)
  {
    var b := body[start..end];
    AtBytes(b, k, delimiter);
    forall j | 0 <= j < |delimiter| ensures body[start + k + j] == delimiter[j] { assert b[k + j] == delimiter[j]; }
    assert body[start + k..start + k + |delimiter|] == delimiter;
  }

  /** The search passes over no delimiter at the start of a line. */
  lemma {:induction false} EndFromIsFirst(body: Text, delimiter: Text, search: nat, g: nat)
    requires EndFrom(body, delimiter, search).Some? && search <= g < EndFrom(body, delimiter, search).value.1
    ensures !LineDelimiter(body, delimiter, g)
    decreases |body| + 1 - search
  {
    FindIsFirst(body, delimiter, search);
    var found := Find(body, delimiter, search).value;
    if g > found { EndFromIsFirst(body, delimiter, found + 1, g); }
  }

  predicate AllFoundPlain(delimiter: Text, parts: seq<ParsedPart>) {
    forall i :: 0 <= i < |parts| ==> PlainBody(delimiter, parts[i].body)
  }

  lemma {:induction false} ParsedArePlain(body: Text, delimiter: Text, c: nat, lossy: Text -> Text)
    requires c <= |body| && GoodDelimiter(delimiter)
    ensures var r := ParseFrom(body, delimiter, c, lossy); r.Ok? ==> AllFoundPlain(delimiter, r.value)
    decreases |body| - c
  {
    if At(body, c, delimiter) && !At(body, c + |delimiter|, DASHES) && ParsePart(body, delimiter, c, lossy).Ok? {
      ParsedArePlain(body, delimiter, ParsePart(body, delimiter, c, lossy).value.1, lossy);
      ParsedPartIsPlain(body, delimiter, c, lossy);
    }
  }

  lemma {:induction false} ParsedPartIsPlain(body: Text, delimiter: Text, c: nat, lossy: Text -> Text)
    requires At(body, c, delimiter) && GoodDelimiter(delimiter) && ParsePart(body, delimiter, c, lossy).Ok?
    ensures PlainBody(delimiter, ParsePart(body, delimiter, c, lossy).value.0.body)
  {
    var start := PartBodyAt(body, delimiter, c, lossy);
    FoundBodyIsPlain(body, delimiter, start);
  }

  lemma {:induction false} PartBodyAt(body: Text, delimiter: Text, c: nat, lossy: Text -> Text) returns (start: nat)
    requires At(body, c, delimiter) && ParsePart(body, delimiter, c, lossy).Ok?
    ensures 0 < start <= |body| && body[start - 1] == LF && BodyEnd(body, delimiter, start).Some?
    ensures ParsePart(body, delimiter, c, lossy).value.0.body == body[start..BodyEnd(body, delimiter, start).value.0]
  {
    start := HeaderEnd(body, Newline(body, c + |delimiter|).value).value.1;
  }

  /** An empty line ends just before `at`. */
  predicate EmptyLineEnds(s: Text, at: nat) {
    2 <= at <= |s| && s[at - 1] == LF && (s[at - 2] == LF || (at >= 3 && s[at - 2] == CR && s[at - 3] == LF))
  }

  /** The parser takes a part's body to start behind an empty line. */
  lemma {:induction false} HeadEndsAtEmptyLine(body: Text, start: nat)
    ensures var r := HeaderEnd(body, start); r.Some? ==> EmptyLineEnds(body, r.value.1)
  {
    var crlf, lf := Find(body, CRLFCRLF, start), Find(body, LFLF, start);
    if crlf.Some? { AtBytes(body, crlf.value, CRLFCRLF); }
    if lf.Some? { AtBytes(body, lf.value, LFLF); }
  }

  lemma {:induction false} AtBytes(body: Text, i: nat, needle: Text)
    requires At(body, i, needle)
    ensures forall j :: 0 <= j < |needle| ==> body[i + j] == needle[j]
  {
    forall j | 0 <= j < |needle| ensures body[i + j] == needle[j] {
      assert body[i..i + |needle|][j] == body[i + j];
    }
  }

  /** Header lines have no empty line among them. */
  lemma {:induction false} NoEmptyLineAmong(line: Text, hs: seq<Header>, at: nat)
    requires OneLine(line) && line != [] && GoodHeaders(hs) && at <= |line + CRLF + HeaderLines(hs)|
    ensures !EmptyLineEnds(line + CRLF + HeaderLines(hs), at)
    decreases |hs|
  {
    var rest := HeaderLines(hs);
    var s := line + CRLF + rest;
    assert s[|line|] == CR && s[|line| + 1] == LF;
    if at <= |line| + 2 {
      if 1 <= at <= |line| { assert s[at - 1] == line[at - 1]; }
      if at == |line| + 2 { assert s[at - 3] == line[|line| - 1]; }
    } else {
      var first := HeaderLine(hs[0]);
      LineIsPlain(hs[0]);
      NoEmptyLineAmong(first, hs[1..], at - |line| - 2);
      assert rest == first + CRLF + HeaderLines(hs[1..]);
      assert forall j :: 0 <= j < |rest| ==> s[|line| + 2 + j] == rest[j];
      assert rest[0] == first[0] && rest[1] == first[1];
    }
  }

  /** So an empty line after the start of a part ends no earlier than the part's headers. */
  lemma {:induction false} EmptyLineIsPastHead(body: Text, delimiter: Text, c: nat, hs: seq<Header>, rest: Text,
      at: nat)
    requires c <= |body| && body[c..] == delimiter + CRLF + HeaderLines(hs) + rest
    requires GoodDelimiter(delimiter) && GoodHeaders(hs)
    requires c < at && EmptyLineEnds(body, at)
    ensures at > c + |delimiter| + 2 + |HeaderLines(hs)|
  {
    var head := delimiter + CRLF + HeaderLines(hs);
    if at - c <= |head| {
      EmptyLineInFront(body, c, head, rest, at - c);
      NoEmptyLineAmong(delimiter, hs, at - c);
    }
  }

  lemma {:induction false} EmptyLineInFront(body: Text, c: nat, head: Text, rest: Text, r: nat)
    requires c <= |body| && body[c..] == head + rest && 0 < r <= |head| && EmptyLineEnds(body, c + r)
    requires |head| >= 2 && head[0] != LF && head[1] != LF
    ensures EmptyLineEnds(head, r)
  {
    assert forall j :: 0 <= j < |head| ==> body[c + j] == body[c..][j] == head[j];
  }

  // ----- the parser may lag behind, but never catches up -----

  lemma {:induction false} PlainSuffix(delimiter: Text, b: Text, t: nat)
    requires PlainBody(delimiter, b) && t <= |b| && (t > 0 ==> b[t - 1] == LF) && |delimiter| > 0
    ensures PlainBody(delimiter, b[t..])
  {
    var c := b[t..];
    assert c == b[t..|b|] && (t == 0 ==> c == b);
    forall k | 0 <= k <= |c| ensures !LineDelimiter(c, delimiter, k) {
      if LineDelimiter(c, delimiter, k) { InSlice(b, delimiter, t, |b|, k); }
    }
    assert t > 0 ==> !LineDelimiter(b, delimiter, t);
    if At(c, 0, delimiter) { InSlice(b, delimiter, t, |b|, 0); }
  }

  /** Where a part's body was written to start, and where the next part starts. */
  function BodyStart(delimiter: Text, c: nat, p: Part): nat {
    c + |delimiter| + 2 + |HeaderLines(p.headers)| + 2
  }

  function NextStart(delimiter: Text, c: nat, p: Part): nat {
    BodyStart(delimiter, c, p) + |p.body| + 2
  }

  lemma {:induction false} BodyIsThere(body: Text, delimiter: Text, c: nat, p: Part, more: Text)
    requires PartAt(body, delimiter, c, p, more)
    ensures BodyStart(delimiter, c, p) <= |body| && body[BodyStart(delimiter, c, p)..] == p.body + CRLF + more
    ensures NextStart(delimiter, c, p) <= |body| && body[NextStart(delimiter, c, p)..] == more
  {
    PartStarts(body, delimiter, c, p, more);
    var line, lines := c + |delimiter| + 2, HeaderLines(p.headers);
    Assoc(lines + CRLF, p.body + CRLF, more);
    SuffixOf(body, line, lines + CRLF, p.body + CRLF + more);
    SuffixOf(body, line + |lines + CRLF|, p.body + CRLF, more);
  }

  /** A body that the parser takes to start within a part ends where the part's body ends. */
  lemma {:induction false} EndsWithinPart(body: Text, delimiter: Text, start: nat, b: Text, more: Text, at: nat)
      returns (end: nat)
    requires 0 < start <= |body| && body[start - 1] == LF && body[start..] == b + CRLF + more
    requires GoodDelimiter(delimiter) && At(more, 0, delimiter) && PlainBody(delimiter, b)
    requires start <= at <= start + |b| + 2 && body[at - 1] == LF
    ensures at <= end && Ends(BodyEnd(body, delimiter, at), end, start + |b| + 2)
    ensures end - at <= |b| && (at > start && b != [] ==> end - at < |b|)
  {
    var t := at - start;
    assert forall j :: 0 <= j < |b| ==> body[start + j] == body[start..][j] == b[j];
    assert body[start + |b|] == body[start..][|b|] == CR;
    if t <= |b| {
      PlainSuffix(delimiter, b, t);
      assert body[at..] == body[start..][t..] == b[t..] + CRLF + more;
      PlainBodyEnds(body, at, b[t..], delimiter, more);
      end := start + |b|;
    } else {
      assert body[at..] == body[start..][t..] == more;
      AtRest(body, at, 0, delimiter);
      end := at;
    }
  }

  /** Behind an empty line the parser stops at the delimiter of a later part, or the closing one. When
      that is the very next one, the body found is at most the written one. */
  lemma {:induction false} NextDelimiter(body: Text, delimiter: Text, c: nat, parts: seq<Part>, at: nat)
      returns (k: nat, end: nat, next: nat)
    requires c <= |body| && body[c..] == Written(delimiter, parts) && GoodDelimiter(delimiter)
    requires AllGoodHeaders(parts) && AllPlain(delimiter, parts) && c < at && EmptyLineEnds(body, at)
    ensures 1 <= k <= |parts| && at <= end && Ends(BodyEnd(body, delimiter, at), end, next)
    ensures next <= |body| && body[next..] == Written(delimiter, parts[k..])
    ensures k == 1 && at > BodyStart(delimiter, c, parts[0]) && parts[0].body != [] ==> end - at < |parts[0].body|
    decreases |parts|
  {
    if parts == [] {
      ClosingHasNoEmptyLine(body, delimiter, c, at);
    } else {
      var next1 := NextStart(delimiter, c, parts[0]);
      FirstAndRest(delimiter, parts, 1);
      if at <= next1 {
        end := EndsInFirst(body, delimiter, c, parts[0], parts[1..], at);
        k, next := 1, next1;
      } else {
        BodyIsThere(body, delimiter, c, parts[0], Written(delimiter, parts[1..]));
        var j;
        j, end, next := NextDelimiter(body, delimiter, next1, parts[1..], at);
        k := j + 1;
        assert parts[1..][j..] == parts[k..];
      }
    }
  }

  lemma {:induction false} EndsInFirst(body: Text, delimiter: Text, c: nat, p: Part, others: seq<Part>, at: nat)
      returns (end: nat)
    requires PartAt(body, delimiter, c, p, Written(delimiter, others)) && GoodDelimiter(delimiter)
    requires GoodHeaders(p.headers) && PlainBody(delimiter, p.body)
    requires c < at <= NextStart(delimiter, c, p) && EmptyLineEnds(body, at)
    ensures at <= end && Ends(BodyEnd(body, delimiter, at), end, NextStart(delimiter, c, p))
    ensures NextStart(delimiter, c, p) <= |body| && body[NextStart(delimiter, c, p)..] == Written(delimiter, others)
    ensures at > BodyStart(delimiter, c, p) && p.body != [] ==> end - at < |p.body|
  {
    var more := Written(delimiter, others);
    WrittenStarts(delimiter, others);
    BodyIsThere(body, delimiter, c, p, more);
    HeadOf(body, delimiter, c, p, more, at);
    end := EndsWithinPart(body, delimiter, BodyStart(delimiter, c, p), p.body, more, at);
  }

  lemma {:induction false} ClosingHasNoEmptyLine(body: Text, delimiter: Text, c: nat, at: nat)
    requires c <= |body| && body[c..] == delimiter + DASHES + CRLF && GoodDelimiter(delimiter) && c < at
    ensures !EmptyLineEnds(body, at)
  {
    if EmptyLineEnds(body, at) {
      assert HeaderLines([]) == [];
      assert delimiter + DASHES + CRLF == (delimiter + DASHES) + CRLF + HeaderLines([]) + [];
      EmptyLineIsPastHead(body, delimiter + DASHES, c, [], [], at);
    }
  }

  lemma {:induction false} BlankIsThere(body: Text, delimiter: Text, c: nat, p: Part, more: Text)
    requires PartAt(body, delimiter, c, p, more)
    ensures BodyStart(delimiter, c, p) <= |body| && At(body, BodyStart(delimiter, c, p) - 2, CRLF)
    ensures body[BodyStart(delimiter, c, p) - 2] == CR && body[BodyStart(delimiter, c, p) - 1] == LF
  {
    PartStarts(body, delimiter, c, p, more);
    var line, lines := c + |delimiter| + 2, HeaderLines(p.headers);
    Assoc(lines + CRLF, p.body + CRLF, more);
    Assoc(lines, CRLF, p.body + CRLF + more);
    SuffixOf(body, line, lines, CRLF + (p.body + CRLF + more));
    AtStart(body, line + |lines|, CRLF, p.body + CRLF + more);
    AtBytes(body, line + |lines|, CRLF);
  }

  lemma {:induction false} CutHead(delimiter: Text, lines: Text, rest: Text, more: Text)
    ensures delimiter + CRLF + (lines + rest) + more == delimiter + CRLF + lines + (rest + more)
  {
  }

  /** An empty line behind the start of a part ends no earlier than the blank line of its headers. */
  lemma {:induction false} HeadOf(body: Text, delimiter: Text, c: nat, p: Part, more: Text, at: nat)
    requires PartAt(body, delimiter, c, p, more) && GoodDelimiter(delimiter) && GoodHeaders(p.headers)
    requires c < at && EmptyLineEnds(body, at)
    ensures at >= BodyStart(delimiter, c, p) && body[BodyStart(delimiter, c, p) - 1] == LF
  {
    BlankIsThere(body, delimiter, c, p, more);
    var lines, rest := HeaderLines(p.headers), CRLF + (p.body + CRLF);
    Assoc(lines, CRLF, p.body + CRLF);
    CutHead(delimiter, lines, rest, more);
    EmptyLineIsPastHead(body, delimiter, c, p.headers, rest + more, at);
  }

  /** Without headers the body is taken to start too late. */
  lemma {:induction false} HeaderlessStartsLate(body: Text, delimiter: Text, c: nat, p: Part, more: Text, line: nat)
    requires PartAt(body, delimiter, c, p, more) && p.headers == [] && line == c + |delimiter| + 2
    ensures var r := HeaderEnd(body, line); r.Some? ==> r.value.1 > BodyStart(delimiter, c, p)
  {
    BlankIsThere(body, delimiter, c, p, more);
    assert HeaderLines(p.headers) == [] && body[line] == CR;
    Differs(body, line, LFLF, 0);
  }

  /** Where the body ends that the parser takes to start at `start`, and how many parts that uses up. */
  lemma {:induction false} AnyBody(body: Text, delimiter: Text, c: nat, parts: seq<Part>, line: nat, stop: nat,
      start: nat)
      returns (k: nat, end: nat, next: nat)
    requires c <= |body| && body[c..] == Written(delimiter, parts) && GoodDelimiter(delimiter) && parts != []
    requires AllGoodHeaders(parts) && AllPlain(delimiter, parts)
    requires line == c + |delimiter| + 2 && Ends(HeaderEnd(body, line), stop, start)
    requires c < start && EmptyLineEnds(body, start)
    ensures 1 <= k <= |parts| && next <= |body| && body[next..] == Written(delimiter, parts[k..])
    ensures start <= end && Ends(BodyEnd(body, delimiter, start), end, next)
    ensures k == 1 && !Readable(parts[0]) ==> end - start < |parts[0].body|
  {
    if parts[0].headers == [] {
      HeaderlessStartsLate(body, delimiter, c, parts[0], Written(delimiter, parts[1..]), line);
    }
    k, end, next := NextDelimiter(body, delimiter, c, parts, start);
  }

  lemma {:induction false} HeadExists(body: Text, delimiter: Text, c: nat, line: nat, lossy: Text -> Text)
    requires c <= |body| && At(body, c, delimiter) && !At(body, c + |delimiter|, DASHES)
    requires Newline(body, c + |delimiter|).Some? && Newline(body, c + |delimiter|).value == line
    requires ParseFrom(body, delimiter, c, lossy).Ok?
    ensures HeaderEnd(body, line).Some?
  {
  }

  /** Where the parser takes a part's headers and body to be, whatever they are. */
  lemma {:induction false} AnyHead(body: Text, delimiter: Text, c: nat, p: Part, more: Text, lossy: Text -> Text)
      returns (line: nat, stop: nat, start: nat)
    requires PartAt(body, delimiter, c, p, more) && ParseFrom(body, delimiter, c, lossy).Ok?
    ensures FindsHead(body, delimiter, c, line, stop, start) && c < start && EmptyLineEnds(body, start)
    ensures line == c + |delimiter| + 2
  {
    PartStarts(body, delimiter, c, p, more);
    line := c + |delimiter| + 2;
    HeadExists(body, delimiter, c, line, lossy);
    HeadEndsAtEmptyLine(body, line);
    var head := HeaderEnd(body, line).value;
    stop, start := head.0, head.1;
  }

  /** From a part's delimiter at most as many parts are read as were written, and exactly what was
      written only if every part can be read. */
  lemma {:induction false} NeverCatchesUp(body: Text, delimiter: Text, c: nat, parts: seq<Part>, lossy: Text -> Text)
    requires c <= |body| && body[c..] == Written(delimiter, parts) && GoodDelimiter(delimiter)
    requires AllGoodHeaders(parts) && AllPlain(delimiter, parts)
    ensures var r := ParseFrom(body, delimiter, c, lossy);
      r.Ok? ==> |r.value| <= |parts| && (r.value == AsParsed(parts) ==> AllReadable(parts))
    decreases |parts|
  {
    if parts == [] {
      ClosingEnds(body, delimiter, c, lossy);
    } else if ParseFrom(body, delimiter, c, lossy).Ok? {
      var line, stop, start := AnyHead(body, delimiter, c, parts[0], Written(delimiter, parts[1..]), lossy);
      var k, end, next := AnyBody(body, delimiter, c, parts, line, stop, start);
      ParseRound(body, delimiter, c, line, stop, start, end, next, lossy);
      var part := ParsedPart(CollectHeaders(Lines(lossy(body[line..stop]))), body[start..end]);
      FirstAndRest(delimiter, parts, k);
      NeverCatchesUp(body, delimiter, next, parts[k..], lossy);
      SameParts(part, parts, k, ParseFrom(body, delimiter, next, lossy).value);
    }
  }

  lemma {:induction false} SameParts(part: ParsedPart, parts: seq<Part>, k: nat, more: seq<ParsedPart>)
    requires 1 <= k <= |parts| && |more| <= |parts| - k
    requires k == 1 && !Readable(parts[0]) ==> |part.body| < |parts[0].body|
    requires more == AsParsed(parts[k..]) ==> AllReadable(parts[k..])
    ensures |[part] + more| <= |parts|
    ensures [part] + more == AsParsed(parts) ==> AllReadable(parts)
  {
    if [part] + more == AsParsed(parts) {
      assert ([part] + more)[0] == part && ([part] + more)[1..] == more;
      assert AsParsed(parts)[1..] == AsParsed(parts[1..]);
      assert k == 1;
      forall i | 0 <= i < |parts| ensures Readable(parts[i]) {
        if i > 0 {
          assert parts[i] == parts[1..][i - 1];
          assert Readable(parts[1..][i - 1]);
        }
      }
    }
  }

  // ----- the round trip -----

  /** What the server writes is what the client reads, part by part and in order, exactly when no line of
      any body starts with the delimiter and every part without headers has an empty body. */
  lemma {:induction false} MultipartRoundTrip(boundary: Text, parts: seq<Part>, lossy: Text -> Text)
    requires OneLine(boundary) && AllGoodHeaders(parts) && KeepsText(lossy)
    ensures ParseWhole(Written(Delimiter(boundary), parts), Delimiter(boundary), lossy) == Ok(AsParsed(parts))
            <==> AllPlain(Delimiter(boundary), parts) && AllReadable(parts)
  {
    var delimiter := Delimiter(boundary);
    var body := Written(delimiter, parts);
    WrittenStarts(delimiter, parts);
    FoundFirst(body, delimiter, 0, 0);
    TakeAll(body);
    if AllPlain(delimiter, parts) && AllReadable(parts) {
      PlainRoundTrip(body, delimiter, 0, parts, lossy);
    } else {
      ParsedArePlain(body, delimiter, 0, lossy);
      AsParsedBodies(parts);
      if AllPlain(delimiter, parts) { NeverCatchesUp(body, delimiter, 0, parts, lossy); }
    }
  }

  lemma {:induction false} AsParsedBodies(parts: seq<Part>)
    ensures forall i :: 0 <= i < |parts| ==> AsParsed(parts)[i].body == parts[i].body
  {
    if parts != [] {
      AsParsedBodies(parts[1..]);
      forall i | 0 < i < |parts| ensures AsParsed(parts)[i].body == parts[i].body {
        assert AsParsed(parts)[i] == AsParsed(parts[1..])[i - 1] && parts[i] == parts[1..][i - 1];
      }
    }
  }

  /** A part without headers and without a body is read back. */
  lemma {:induction false} EmptyPartComesBack(boundary: Text, lossy: Text -> Text)
    requires OneLine(boundary) && KeepsText(lossy)
    ensures ParseWhole(Written(Delimiter(boundary), [Part([], [])]), Delimiter(boundary), lossy)
        == Ok([ParsedPart(map[], [])])
  {
    EmptyPart(Delimiter(boundary));
    MultipartRoundTrip(boundary, [Part([], [])], lossy);
  }

  lemma {:induction false} EmptyPart(delimiter: Text)
    requires |delimiter| > 0
    ensures var parts := [Part([], [])];
      && AsParsed(parts) == [ParsedPart(map[], [])]
      && AllPlain(delimiter, parts) && AllReadable(parts) && AllGoodHeaders(parts)
  {
    var parts := [Part([], [])];
    assert parts[1..] == [] && HeaderMap([]) == map[];
    assert AsParsed(parts) == [ParsedPart(HeaderMap([]), [])] + AsParsed([]);
  }

  const HEADERLESS: Text := [45, 45, 98, 13, 10, 13, 10, 120, 13, 10, 45, 45, 98, 45, 45, 13, 10]

  /** A part without headers and with the body "x": there is no empty line to end its headers, and the
      whole response is refused. */
  lemma {:induction false} HeaderlessPartFails(lossy: Text -> Text)
    ensures ParseWhole(Written(Delimiter([98]), [Part([], [120])]), Delimiter([98]), lossy) == Err(Other)
  {
    HeaderlessText();
    HeaderlessHasNoHeaders();
    var delimiter := Delimiter([98]);
    FoundFirst(HEADERLESS, delimiter, 0, 0);
    assert At(HEADERLESS, 3, CRLF);
    NotDashes(HEADERLESS, 3);
    assert ParsePart(HEADERLESS, delimiter, 0, lossy) == Err(Other);
  }

  lemma {:induction false} HeaderlessText()
    ensures Delimiter([98]) == [45, 45, 98] && Written(Delimiter([98]), [Part([], [120])]) == HEADERLESS
  {
    var delimiter, parts := Delimiter([98]), [Part([], [120])];
    assert PartText(delimiter, parts[0]) == [45, 45, 98, 13, 10, 13, 10, 120, 13, 10];
    assert Written(delimiter, parts[1..]) == [45, 45, 98, 45, 45, 13, 10];
  }

  lemma {:induction false} HeaderlessHasNoHeaders()
    ensures HeaderEnd(HEADERLESS, 5) == None
  {
    forall k | 5 <= k < |HEADERLESS| ensures !At(HEADERLESS, k, CRLFCRLF) && !At(HEADERLESS, k, LFLF) {
      HeaderlessAt(k);
    }
    NotFoundBefore(HEADERLESS, CRLFCRLF, 5, |HEADERLESS|);
    NotFoundBefore(HEADERLESS, LFLF, 5, |HEADERLESS|);
  }

  lemma {:induction false} HeaderlessAt(k: nat)
    requires 5 <= k < |HEADERLESS|
    ensures !At(HEADERLESS, k, CRLFCRLF) && !At(HEADERLESS, k, LFLF)
  {
    if HEADERLESS[k] != CR {
      Differs(HEADERLESS, k, CRLFCRLF, 0);
    } else if k + 2 < |HEADERLESS| {
      Differs(HEADERLESS, k, CRLFCRLF, 2);
    }
    if HEADERLESS[k] != LF {
      Differs(HEADERLESS, k, LFLF, 0);
    } else if k + 1 < |HEADERLESS| {
      Differs(HEADERLESS, k, LFLF, 1);
    }
  }

  /** Parts come back in order, each with its body and its headers as a map. */
  lemma {:induction false} AsParsedPartByPart(parts: seq<Part>, i: nat)
    requires i < |parts|
    ensures |AsParsed(parts)| == |parts|
    ensures AsParsed(parts)[i] == ParsedPart(HeaderMap(parts[i].headers), parts[i].body)
  {
    if |parts| > 1 { AsParsedPartByPart(parts[1..], if i > 0 then i - 1 else 0); }
  }

  // ----- bodies of other writers -----

  /** Lines may end with a line feed alone. */
  lemma LineStyles(body: Text, at: nat)
    ensures at + 2 <= |body| && body[at..at + 2] == [13, 10] ==> Newline(body, at) == Some(at + 2)
    ensures at < |body| && body[at] == 10 ==> Newline(body, at) == Some(at + 1)
    ensures at >= |body| || body[at] !in {10, 13} ==> Newline(body, at) == None
    ensures 0 < at <= |body| && body[at - 1] == 10 ==>
      BeforeBreak(body, at) == if at >= 2 && body[at - 2] == 13 then at - 2 else at - 1
  {
    if at + 2 <= |body| { assert body[at..at + 2][0] == body[at]; }
    if 2 <= at <= |body| { assert body[at - 2..at] == [body[at - 2], body[at - 1]]; }
  }

  /** The headers end at the first empty line of either style. */
  lemma HeadersEndFirst(body: Text, start: nat, k: nat)
    requires start <= k && NoneBetween(body, [13, 10, 13, 10], start, k) && NoneBetween(body, [10, 10], start, k)
    ensures At(body, k, [13, 10, 13, 10]) ==> HeaderEnd(body, start) == Some((k, k + 4))
    ensures At(body, k, [10, 10]) ==> HeaderEnd(body, start) == Some((k, k + 2))
  {
    if At(body, k, CRLFCRLF) {
      FoundFirst(body, CRLFCRLF, start, k);
      NotFoundBefore(body, LFLF, start, k);
    }
    if At(body, k, LFLF) {
      FoundFirst(body, LFLF, start, k);
      NotFoundBefore(body, CRLFCRLF, start, k);
      assert body[k..k + 2][0] == 10;
      assert !At(body, k, CRLFCRLF) by { assert k + 4 <= |body| ==> body[k..k + 4][0] == body[k]; }
    }
  }

  /** A body without the delimiter is refused; one that only closes has no parts. */
  lemma BodiesWithoutParts(body: Text, delimiter: Text, lossy: Text -> Text)
    ensures NoneBetween(body, delimiter, 0, |body| + 1) ==> ParseWhole(body, delimiter, lossy) == Err(Other)
    ensures At(body, 0, delimiter + [45, 45]) ==> ParseWhole(body, delimiter, lossy) == Ok([])
  {
    FindIsFirst(body, delimiter, 0);
    if At(body, 0, delimiter + [45, 45]) {
      var closing := delimiter + [45, 45];
      assert body[..|delimiter|] == closing[..|delimiter|];
      assert body[|delimiter|..|delimiter| + 2] == closing[|delimiter|..];
    }
  }
}
