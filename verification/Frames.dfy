/** Whole messages as frames, and frames on a byte stream. A frame is its length, a type code, a
    tag and the body; the length counts itself. (9P: intro(5).) */
module Frames {
  import opened Wrappers
  import opened Bytes
  import opened Seqs
  import opened Codec
  import opened Messages

  const MAX_STREAM_FRAME_SIZE: nat := 65536

  // ----- one frame -----

  function EncodeFrame(typ: u8, tag: u16, fs: seq<Field>): Result<seq<Byte>> {
    var body := EncodeAll(fs);
    if AllFit(fs)
    && 7 + |body| < 0x1_0000_0000 then Ok(LE(4, 7 + |body|) + ([typ] + LE(2, tag) + body)) else Err(Invalid)
  }

  datatype RawFrame = RawFrame(typ: u8, tag: u16, body: seq<Byte>)

  function DecodeFrame(frame: seq<Byte>): Result<RawFrame> {
    Widths();
    if |frame| < 7 || FromLE(frame[0..4]) != |frame| then Err(Invalid)
    else Ok(RawFrame(frame[4], FromLE(frame[5..7]), frame[7..]))
  }

  lemma DecodeFrameInverts(typ: u8, tag: u16, fs: seq<Field>)
    requires EncodeFrame(typ, tag, fs).Ok?
    ensures DecodeFrame(EncodeFrame(typ, tag, fs).value) == Ok(RawFrame(typ, tag, EncodeAll(fs)))
  {
    var body := EncodeAll(fs);
    var frame := EncodeFrame(typ, tag, fs).value;
    Widths();
    FromLEOfLE(4, 7 + |body|);
    FromLEOfLE(2, tag);
    assert frame[0..4] == LE(4, 7 + |body|) && frame[5..7] == LE(2, tag) && frame[7..] == body;
  }

  lemma FrameParts(frame: seq<Byte>)
    requires DecodeFrame(frame).Ok?
    ensures var raw := DecodeFrame(frame).value;
            && 7 + |raw.body| == |frame| < 0x1_0000_0000
            && frame == LE(4, |frame|) + ([raw.typ] + LE(2, raw.tag) + raw.body)
  {
    Widths();
    LEOfFromLE(frame[0..4]);
    LEOfFromLE(frame[5..7]);
    assert frame == frame[0..4] + ([frame[4]] + frame[5..7] + frame[7..]);
  }

  /** `finish`: a body must be consumed to its last byte. */
  function DecodeBody(kinds: seq<Kind>, body: seq<Byte>): Result<seq<Field>> {
    var p :- TakeFields(kinds, body);
    if p.rest == [] then Ok(p.value) else Err(Invalid)
  }

  lemma DecodeBodyInverts(kinds: seq<Kind>, fs: seq<Field>)
    requires KindsMatch(kinds, fs) && AllGood(fs)
    ensures DecodeBody(kinds, EncodeAll(fs)) == Ok(fs)
  {
    TakeFieldsInverts(kinds, fs, []);
    assert EncodeAll(fs) + [] == EncodeAll(fs);
  }

  lemma DecodeBodySound(kinds: seq<Kind>, body: seq<Byte>)
    requires DecodeBody(kinds, body).Ok?
    ensures var fs := DecodeBody(kinds, body).value; KindsMatch(kinds, fs) && AllGood(fs) && EncodeAll(fs) == body
  {
    TakeFieldsSound(kinds, body);
    var p := TakeFields(kinds, body).value;
    assert EncodeAll(p.value) + [] == EncodeAll(p.value);
  }

  predicate AllTextual(fs: seq<Field>) {
    forall i :: 0 <= i < |fs| ==> Textual(fs[i])
  }

  // ----- requests and responses -----

  function EncodeRequest(tag: u16, m: Request): Result<seq<Byte>> {
    EncodeFrame(RequestType(m), tag, RequestFields(m))
  }

  function DecodeRequest(frame: seq<Byte>): Result<(u16, Request)> {
    var raw :- DecodeFrame(frame);
    var kinds := RequestKinds(raw.typ);
    if kinds.None? then Err(Other)
    else
      var fs :- DecodeBody(kinds.value, raw.body);
      DecodeBodySound(kinds.value, raw.body);
      Ok((raw.tag, BuildRequest(raw.typ, fs)))
  }

  function EncodeResponse(tag: u16, m: Response): Result<seq<Byte>> {
    EncodeFrame(ResponseType(m), tag, ResponseFields(m))
  }

  function DecodeResponse(frame: seq<Byte>): Result<(u16, Response)> {
    var raw :- DecodeFrame(frame);
    var kinds := ResponseKinds(raw.typ);
    if kinds.None? then Err(Other)
    else
      var fs :- DecodeBody(kinds.value, raw.body);
      DecodeBodySound(kinds.value, raw.body);
      Ok((raw.tag, BuildResponse(raw.typ, fs)))
  }

  /** Every request that encodes decodes to itself, under its tag. */
  lemma RequestRoundTrip(tag: u16, m: Request)
    requires EncodeRequest(tag, m).Ok? && AllTextual(RequestFields(m))
    ensures DecodeRequest(EncodeRequest(tag, m).value) == Ok((tag, m))
  {
    DecodeFrameInverts(RequestType(m), tag, RequestFields(m));
    RequestFromItsFields(m);
    DecodeBodyInverts(RequestKinds(RequestType(m)).value, RequestFields(m));
  }

  /** Every frame that decodes as a request is the encoding of that request, byte for byte. */
  lemma RequestReencodes(frame: seq<Byte>)
    requires DecodeRequest(frame).Ok?
    ensures var (tag, m) := DecodeRequest(frame).value;
            EncodeRequest(tag, m) == Ok(frame) && AllTextual(RequestFields(m))
  {
    var raw := DecodeFrame(frame).value;
    DecodeBodySound(RequestKinds(raw.typ).value, raw.body);
    RequestFieldsBack(raw.typ, DecodeBody(RequestKinds(raw.typ).value, raw.body).value);
    FrameParts(frame);
  }

  lemma ResponseRoundTrip(tag: u16, m: Response)
    requires EncodeResponse(tag, m).Ok? && AllTextual(ResponseFields(m))
    ensures DecodeResponse(EncodeResponse(tag, m).value) == Ok((tag, m))
  {
    DecodeFrameInverts(ResponseType(m), tag, ResponseFields(m));
    ResponseFromItsFields(m);
    DecodeBodyInverts(ResponseKinds(ResponseType(m)).value, ResponseFields(m));
  }

  lemma ResponseReencodes(frame: seq<Byte>)
    requires DecodeResponse(frame).Ok?
    ensures var (tag, m) := DecodeResponse(frame).value;
            EncodeResponse(tag, m) == Ok(frame) && AllTextual(ResponseFields(m))
  {
    var raw := DecodeFrame(frame).value;
    DecodeBodySound(ResponseKinds(raw.typ).value, raw.body);
    ResponseFieldsBack(raw.typ, DecodeBody(ResponseKinds(raw.typ).value, raw.body).value);
    FrameParts(frame);
  }

  // ----- the encoder and the decoder as the program runs them -----

  /** Pushes the fields of a body onto a growing buffer; a length that does not fit fails. */
  method PutFields(fs: seq<Field>) returns (r: Result<seq<Byte>>)
    ensures r == if AllFit(fs) then Ok(EncodeAll(fs)) else Err(Invalid)
  {
    var out: seq<Byte> := [];
    for i := 0 to |fs|
      invariant forall j :: 0 <= j < i ==> Fits(fs[j])
      invariant out + EncodeAll(fs[i..]) == EncodeAll(fs)
    {
      if !Fits(fs[i]) {
        return Err(Invalid);
      }
      assert fs[i..][1..] == fs[i + 1..];
      Assoc(out, EncodeField(fs[i]), EncodeAll(fs[i + 1..]));
      out := out + EncodeField(fs[i]);
    }
    assert out + [] == out;
    return Ok(out);
  }

  /** What comes of taking names when some have been taken before. */
  function InFront(names: seq<seq<Byte>>, r: Result<Parsed<seq<seq<Byte>>>>): Result<Parsed<seq<seq<Byte>>>> {
    match r case Ok(p) => Ok(Parsed(names + p.value, p.rest)) case Err(e) => Err(e)
  }

  lemma NothingInFront(r: Result<Parsed<seq<seq<Byte>>>>)
    ensures InFront([], r) == r
  {
    if r.Ok? { assert [] + r.value.value == r.value.value; }
  }

  lemma AllInFront(names: seq<seq<Byte>>, rest: seq<Byte>)
    ensures InFront(names, TakeStrs(rest, 0)) == Ok(Parsed(names, rest))
  {
    assert names + [] == names;
  }

  lemma NextInFront(names: seq<seq<Byte>>, b: seq<Byte>, n: nat)
    requires n > 0
    ensures var first := TakeStr(b);
            InFront(names, TakeStrs(b, n)) == if first.Err? then Err(first.error)
              else InFront(names + [first.value.value], TakeStrs(first.value.rest, n - 1))
  {
    var first := TakeStr(b);
    if first.Ok? && TakeStrs(first.value.rest, n - 1).Ok? {
      Assoc(names, [first.value.value], TakeStrs(first.value.rest, n - 1).value.value);
    }
  }

  /** A cursor over a body. */
  class Decoder {
    const data: seq<Byte>
    var offset: nat

    predicate Valid()
      reads this
    {
      offset <= |data|
    }

    /** What has not been read yet. */
    function Rest(): seq<Byte>
      requires Valid()
      reads this
    {
      data[offset..]
    }

    constructor (data: seq<Byte>)
      ensures Valid() && this.data == data && offset == 0
    {
      this.data, offset := data, 0;
    }

    method Take(len: nat) returns (r: Result<seq<Byte>>)
      requires Valid()
      modifies this
      ensures Valid()
      ensures r.Ok? <==> TakeBytes(old(Rest()), len).Ok?
      ensures r.Ok? ==> TakeBytes(old(Rest()), len) == Ok(Parsed(r.value, Rest()))
      ensures r.Err? ==> r == Err(UnexpectedEof) && offset == old(offset)
    {
      var end := offset + len;
      if end > |data| {
        return Err(UnexpectedEof);
      }
      r := Ok(data[offset..end]);
      assert Rest()[..len] == data[offset..end] && Rest()[len..] == data[end..];
      offset := end;
    }

    method TakeNumber(width: nat) returns (r: Result<nat>)
      requires Valid()
      modifies this
      ensures Valid()
      ensures r.Ok? ==> TakeNum(old(Rest()), width) == Ok(Parsed(r.value, Rest()))
      ensures r.Err? ==> TakeNum(old(Rest()), width) == Err(r.error)
    {
      var b := Take(width);
      return match b case Ok(bytes) => Ok(FromLE(bytes)) case Err(e) => Err(e);
    }

    method TakeText() returns (r: Result<seq<Byte>>)
      requires Valid()
      modifies this
      ensures Valid()
      ensures r.Ok? ==> TakeStr(old(Rest())) == Ok(Parsed(r.value, Rest()))
      ensures r.Err? ==> TakeStr(old(Rest())) == Err(r.error)
    {
      var n :- TakeNumber(2);
      var bytes :- Take(n);
      return if Utf8(bytes) then Ok(bytes) else Err(Invalid);
    }

    method TakeTexts(n: nat) returns (r: Result<seq<seq<Byte>>>)
      requires Valid()
      modifies this
      ensures Valid()
      ensures r.Ok? ==> TakeStrs(old(Rest()), n) == Ok(Parsed(r.value, Rest()))
      ensures r.Err? ==> TakeStrs(old(Rest()), n) == Err(r.error)
    {
      var names: seq<seq<Byte>> := [];
      ghost var left, whole := Rest(), TakeStrs(Rest(), n);
      NothingInFront(whole);
      for i := 0 to n
        invariant Valid() && left == Rest()
        invariant InFront(names, TakeStrs(left, n - i)) == whole
      {
        NextInFront(names, left, n - i);
        var name :- TakeText();
        names, left := names + [name], Rest();
      }
      AllInFront(names, left);
      return Ok(names);
    }

    method TakeQidList(n: nat) returns (r: Result<seq<Qid>>)
      requires Valid()
      modifies this
      ensures Valid()
      ensures r.Ok? ==> TakeQids(old(Rest()), n) == Ok(Parsed(r.value, Rest()))
      ensures r.Err? ==> TakeQids(old(Rest()), n).Err?
    {
      var qids: seq<Qid> := [];
      ghost var start := Rest();
      if TakeQids(start, n).Ok? { assert qids + TakeQids(start, n).value.value == TakeQids(start, n).value.value; }
      for i := 0 to n
        invariant Valid() && |qids| == i
        invariant var tail := TakeQids(Rest(), n - i);
                  TakeQids(start,
                      n) == match tail case Ok(p) => Ok(Parsed(qids + p.value, p.rest)) case Err(e) => Err(e)
      {
        var q :- TakeOneQid();
        ghost var tail := TakeQids(Rest(), n - i - 1);
        if tail.Ok? { Assoc(qids, [q], tail.value.value); }
        qids := qids + [q];
      }
      assert qids + [] == qids;
      return Ok(qids);
    }

    method TakeOneQid() returns (r: Result<Qid>)
      requires Valid()
      modifies this
      ensures Valid()
      ensures r.Ok? ==> TakeQid(old(Rest())) == Ok(Parsed(r.value, Rest()))
      ensures r.Err? ==> TakeQid(old(Rest())) == Err(r.error)
    {
      Widths();
      ghost var b := Rest();
      var typ :- Take(1);
      var version :- TakeNumber(4);
      var path :- TakeNumber(8);
      assert b[1..][..4] == b[1..5] && b[1..][4..][..8] == b[5..13] && b[1..][4..][8..] == b[13..];
      return Ok(Qid(typ[0], version, path));
    }

    method TakeOne(k: Kind) returns (r: Result<Field>)
      requires Valid()
      modifies this
      ensures Valid()
      ensures r.Ok? ==> TakeField(k, old(Rest())) == Ok(Parsed(r.value, Rest()))
      ensures r.Err? ==> TakeField(k, old(Rest())).Err?
    {
      match k
      case KNum(w) =>
        var n :- TakeNumber(w);
        return Ok(Num(w, n));
      case KStr =>
        var s :- TakeText();
        return Ok(Str(s));
      case KData =>
        var n :- TakeNumber(4);
        var d :- Take(n);
        return Ok(Data(d));
      case KStrs =>
        var n :- TakeNumber(2);
        var names :- TakeTexts(n);
        return Ok(Strs(names));
      case KQids =>
        var n :- TakeNumber(2);
        var qids :- TakeQidList(n);
        return Ok(Qids(qids));
    }

    /** Reads the fields of a body and insists that nothing follows them. */
    method TakeBody(kinds: seq<Kind>) returns (r: Result<seq<Field>>)
      requires Valid()
      modifies this
      ensures Valid()
      ensures r.Ok? ==> DecodeBody(kinds, old(Rest())) == r
      ensures r.Err? ==> DecodeBody(kinds, old(Rest())).Err?
    {
      var fs: seq<Field> := [];
      ghost var start := Rest();
      assert kinds[0..] == kinds;
      if TakeFields(kinds, start).Ok? {
        assert fs + TakeFields(kinds, start).value.value == TakeFields(kinds, start).value.value;
      }
      for i := 0 to |kinds|
        invariant Valid() && |fs| == i
        invariant var tail := TakeFields(kinds[i..], Rest());
                  TakeFields(kinds,
                      start) == match tail case Ok(p) => Ok(Parsed(fs + p.value, p.rest)) case Err(e) => Err(e)
      {
        assert kinds[i..][1..] == kinds[i + 1..];
        var f :- TakeOne(kinds[i]);
        ghost var tail := TakeFields(kinds[i + 1..], Rest());
        if tail.Ok? { Assoc(fs, [f], tail.value.value); }
        fs := fs + [f];
      }
      assert fs + [] == fs;
      return if offset == |data| then Ok(fs) else Err(Invalid);
    }
  }

  method EncodeRequestFrame(tag: u16, m: Request) returns (r: Result<seq<Byte>>)
    ensures r == EncodeRequest(tag, m)
  {
    var body :- PutFields(RequestFields(m));
    if 7 + |body| >= 0x1_0000_0000 {
      return Err(Invalid);
    }
    return Ok(LE(4, 7 + |body|) + ([RequestType(m)] + LE(2, tag) + body));
  }

  method EncodeResponseFrame(tag: u16, m: Response) returns (r: Result<seq<Byte>>)
    ensures r == EncodeResponse(tag, m)
  {
    var body :- PutFields(ResponseFields(m));
    if 7 + |body| >= 0x1_0000_0000 {
      return Err(Invalid);
    }
    return Ok(LE(4, 7 + |body|) + ([ResponseType(m)] + LE(2, tag) + body));
  }

  method DecodeRequestFrame(frame: seq<Byte>) returns (r: Result<(u16, Request)>)
    ensures r.Ok? <==> DecodeRequest(frame).Ok?
    ensures r.Ok? ==> r == DecodeRequest(frame)
  {
    var raw :- DecodeFrame(frame);
    var kinds := RequestKinds(raw.typ);
    if kinds.None? {
      return Err(Other);
    }
    var decoder := new Decoder(raw.body);
    assert decoder.Rest() == raw.body;
    var fs :- decoder.TakeBody(kinds.value);
    DecodeBodySound(kinds.value, raw.body);
    return Ok((raw.tag, BuildRequest(raw.typ, fs)));
  }

  method DecodeResponseFrame(frame: seq<Byte>) returns (r: Result<(u16, Response)>)
    ensures r.Ok? <==> DecodeResponse(frame).Ok?
    ensures r.Ok? ==> r == DecodeResponse(frame)
  {
    var raw :- DecodeFrame(frame);
    var kinds := ResponseKinds(raw.typ);
    if kinds.None? {
      return Err(Other);
    }
    var decoder := new Decoder(raw.body);
    assert decoder.Rest() == raw.body;
    var fs :- decoder.TakeBody(kinds.value);
    DecodeBodySound(kinds.value, raw.body);
    return Ok((raw.tag, BuildResponse(raw.typ, fs)));
  }

  // ----- frames on a stream -----

  predicate InBound(frame: seq<Byte>) {
    7 <= |frame| <= MAX_STREAM_FRAME_SIZE && FromLE(frame[..4]) == |frame|
  }

  datatype ReadOutcome = EndOfStream | Frame(frame: seq<Byte>, rest: seq<Byte>) | Failed(error: ErrorKind)

  function ReadFrame(stream: seq<Byte>): ReadOutcome {
    if stream == [] then EndOfStream
    else if |stream| < 4 then Failed(UnexpectedEof)
    else
      var size := FromLE(stream[..4]);
      if size < 7 || size > MAX_STREAM_FRAME_SIZE then Failed(Invalid)
      else if size > |stream| then Failed(UnexpectedEof)
      else Frame(stream[..size], stream[size..])
  }

  function Concat(frames: seq<seq<Byte>>): seq<Byte> {
    if frames == [] then [] else frames[0] + Concat(frames[1..])
  }

  /** All frames of a stream that ends cleanly between frames. */
  function ReadAll(stream: seq<Byte>): Result<seq<seq<Byte>>>
    decreases |stream|
  {
    match ReadFrame(stream)
    case EndOfStream => Ok([])
    case Failed(e) => Err(e)
    case Frame(frame, rest) => var more :- ReadAll(rest); Ok([frame] + more)
  }

  lemma FirstFrame(frame: seq<Byte>, rest: seq<Byte>)
    requires InBound(frame)
    ensures ReadFrame(frame + rest) == Frame(frame, rest)
  {
    assert (frame + rest)[..4] == frame[..4];
    Front(frame, rest);
  }

  /** Reading what was written returns the frames in order, then the end of the stream. */
  lemma {:induction false} StreamRoundTrip(frames: seq<seq<Byte>>)
    requires forall i :: 0 <= i < |frames| ==> InBound(frames[i])
    ensures ReadAll(Concat(frames)) == Ok(frames)
  {
    if frames != [] {
      FirstFrame(frames[0], Concat(frames[1..]));
      StreamRoundTrip(frames[1..]);
      assert [frames[0]] + frames[1..] == frames;
    }
  }

  /** A stream that reads cleanly is exactly its frames. */
  lemma {:induction false} StreamReencodes(stream: seq<Byte>)
    requires ReadAll(stream).Ok?
    ensures Concat(ReadAll(stream).value) == stream
    ensures forall i :: 0 <= i < |ReadAll(stream).value| ==> InBound(ReadAll(stream).value[i])
    decreases |stream|
  {
    if stream != [] {
      var size := FromLE(stream[..4]);
      StreamReencodes(stream[size..]);
      assert stream[..size][..4] == stream[..4];
      var more := ReadAll(stream[size..]).value;
      assert ([stream[..size]] + more)[1..] == more;
    }
  }

  /** What the encoder makes can be put on a stream exactly when it is not too long. */
  lemma EncodedFramesAreInBound(typ: u8, tag: u16, fs: seq<Field>)
    requires EncodeFrame(typ, tag, fs).Ok?
    ensures InBound(EncodeFrame(typ, tag, fs).value) <==> |EncodeFrame(typ, tag, fs).value| <= 65536
  {
    DecodeFrameInverts(typ, tag, fs);
    var frame := EncodeFrame(typ, tag, fs).value;
    assert frame[..4] == frame[0..4];
  }

  /** A stream that breaks off inside a frame has ended too early; a size that no frame can have is an
      error at once, even when more bytes follow. */
  lemma BrokenStreams(size: nat, more: seq<Byte>)
    requires size < 0x1_0000_0000
    ensures size < 7 || size > 65536 ==> ReadFrame(LE(4, size) + more) == Failed(Invalid)
    ensures 7 <= size <= 65536 && 4 + |more| < size ==> ReadFrame(LE(4, size) + more) == Failed(UnexpectedEof)
    ensures 0 < |more| < 4 ==> ReadFrame(more) == Failed(UnexpectedEof)
    ensures ReadFrame([]) == EndOfStream
  {
    Widths();
    FromLEOfLE(4, size);
    assert (LE(4, size) + more)[..4] == LE(4, size);
  }

  /** A reader over bytes that have arrived. */
  class StreamReader {
    const data: seq<Byte>
    var at: nat

    constructor (data: seq<Byte>)
      ensures this.data == data && at == 0
    {
      this.data, at := data, 0;
    }

    /** One frame, or None at the end of the stream. */
    method Next() returns (r: Result<Option<seq<Byte>>>)
      requires at <= |data|
      modifies this
      ensures at <= |data|
      ensures match ReadFrame(data[old(at)..])
              case EndOfStream => r == Ok(None) && at == old(at)
              case Failed(e) => r == Err(e)
              case Frame(frame, rest) => r == Ok(Some(frame)) && data[at..] == rest && at > old(at)
    {
      if at == |data| {
        return Ok(None);
      }
      if |data| - at < 4 {
        return Err(UnexpectedEof);
      }
      assert data[at..][..4] == data[at..at + 4];
      var size := FromLE(data[at..at + 4]);
      if size < 7 || size > MAX_STREAM_FRAME_SIZE {
        return Err(Invalid);
      }
      if |data| - at < size {
        return Err(UnexpectedEof);
      }
      assert data[at..][..size] == data[at..at + size] && data[at..][size..] == data[at + size..];
      r := Ok(Some(data[at..at + size]));
      at := at + size;
    }
  }
}
