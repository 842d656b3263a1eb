/** The exchanges of the 9P client that move data: an attribute value written in chunks, one read
    in chunks, and a directory read page by page. */
module ClientTransfers {
  import opened Wrappers
  import opened Bytes
  import opened Seqs
  import opened Codec
  import opened Messages
  import opened Modes
  import opened Frames
  import opened XattrBuffer
  import opened FidTable
  import opened Readdir
  import opened NineServer
  import opened ClientPaths
  import opened ClientAnswers

  // ----- writing an attribute -----

  /** The first `offset` bytes of the value have been written, and nothing else. */
  ghost predicate Sent(w: XattrWriteState, name: Text, value: seq<Byte>, offset: nat) {
    && w.name == name && !w.committed && w.expectedSize == |value| && XattrBuffer.Valid(w)
    && offset <= |value| && w.data[..offset] == value[..offset]
    && forall i :: Covered(w.written, i) <==> 0 <= i < offset
  }

  lemma NothingSent(name: Text, value: seq<Byte>)
    ensures Sent(NewState(name, 0, |value|), name, value, 0)
  {
  }

  lemma SentMore(w: XattrWriteState, name: Text, value: seq<Byte>, offset: nat, end: nat, now: XattrWriteState)
    requires Sent(w, name, value, offset) && offset <= end <= |value|
    requires Wrote(w, offset, value[offset..end], now)
    ensures Sent(now, name, value, end)
  {
    assert now.data[..end] == w.data[..offset] + value[offset..end];
    assert value[..end] == value[..offset] + value[offset..end];
  }

  /** A value sent to its end is complete, and is exactly the value. */
  lemma SentAll(w: XattrWriteState, name: Text, value: seq<Byte>)
    requires Sent(w, name, value, |value|)
    ensures IsComplete(w) && w.data == value
  {
    CompleteIffAllWritten(w);
    TakeAll(value);
    TakeAll(w.data);
  }

  lemma CreateTextual(fid: u32, name: Text, size: u64)
    requires Utf8(name)
    ensures AllTextual(RequestFields(TXattrCreate(fid, name, size, 0)))
  {
  }

  lemma CreateEncodable(fid: u32, name: Text, size: u64)
    ensures Encodable(TXattrCreate(fid, name, size, 0)) <==> |name| < MAX_NAME
  {
    Widths();
    var fs := RequestFields(TXattrCreate(fid, name, size, 0));
    if |name| < MAX_NAME {
      ShortFieldsAreSmall(fs);
    } else {
      assert !Fits(fs[1]);
    }
  }

  lemma CreateOutcome<S>(ops: Fs<S>, s: S, t: Table, fid: u32, name: Text, size: u64, outcome: Result<Response>,
      answer: Result<Response>, s': S, u: Table)
    requires fid in t && Answered(ops, s, t, TXattrCreate(fid, name, size, 0), outcome, answer, s', u)
    ensures s' == s && (answer.Ok? <==> name != [] && |name| < MAX_NAME)
    ensures answer.Ok? ==>
      answer.value.RXattrCreate? && u == t[fid := FidState(t[fid].path, XattrWrite(NewState(name, 0, size)), WRONLY)]
    ensures answer.Err? ==> u == t
  {
    CreateEncodable(fid, name, size);
    if |name| < MAX_NAME { CreateServed(ops, s, t, fid, name, size, outcome, s', u); }
    EmptyReplyFits(RXattrCreate);
  }

  lemma CreateServed<S>(ops: Fs<S>, s: S, t: Table, fid: u32, name: Text, size: u64, r: Result<Response>, s': S,
      u: Table)
    requires fid in t && Served(ops, s, t, TXattrCreate(fid, name, size, 0), r, s', u)
    ensures s' == s && r == (if name != [] then Ok(RXattrCreate) else Err(Invalid))
    ensures u == if name != [] then t[fid := FidState(t[fid].path, XattrWrite(NewState(name, 0, size)), WRONLY)] else t
  {
  }

  lemma WriteOutcome<S>(ops: Fs<S>, s: S, t: Table, fid: u32, offset: u64, chunk: seq<Byte>, outcome: Result<Response>,
      answer: Result<Response>, s': S, u: Table)
    requires fid in t && t[fid].handle.XattrWrite? && 23 + |chunk| < 0x1_0000_0000
    requires offset + |chunk| <= t[fid].handle.write.expectedSize
    requires Answered(ops, s, t, TWrite(fid, offset, chunk), outcome, answer, s', u)
    ensures s' == s && answer == Ok(RWrite(|chunk|))
    ensures fid in u && u == t[fid := t[fid].(handle := u[fid].handle)] && u[fid].handle.XattrWrite?
    ensures Wrote(t[fid].handle.write, offset, chunk, u[fid].handle.write)
  {
    WriteFrameSize(0, fid, offset, chunk);
    CountReplyFits(|chunk|);
  }

  lemma CountReplyFits(count: u32)
    ensures Sends(RWrite(count))
  {
    Widths();
    NumbersAreSmall([Num(4, count)]);
  }

  /** A chunk must be written whole. */
  function WholeChunk(answer: Result<Response>, n: nat): Result<()> {
    match answer
    case Ok(m) => if !m.RWrite? then Err(Invalid) else if m.count == n then Ok(()) else Err(UnexpectedEof)
    case Err(e) => Err(e)
  }

  /** The backing was given exactly this value, once, and its answer is the caller's. */
  ghost predicate XattrSet<S>(ops: Fs<S>, s: S, path: Text, name: Text, value: seq<Byte>, r: Result<()>, s': S) {
    s' == ops.setXattr(s, path, name, value).0 && r == Carried(ops.setXattr(s, path, name, value).1)
  }

  /** A backing that answers with the value it was given, and keeps every path where it was. */
  ghost predicate KeepsXattr<S>(ops: Fs<S>, s: S, path: Text, name: Text, value: seq<Byte>) {
    var done := ops.setXattr(s, path, name, value);
    done.1.Ok? ==>
      && ops.getXattr(done.0, path, name) == Ok(value)
      && forall p :: ops.lstat(done.0, p).Ok? <==> ops.lstat(s, p).Ok?
  }

  // ----- reading an attribute -----

  /** There is a value, and it can be asked for and counted. */
  ghost predicate Readable<S>(ops: Fs<S>, s: S, path: Text, name: Text) {
    Reaches(ops, s, path) && |name| < MAX_NAME && Sendable(XattrData(ops, s, ClientPath(path).value, name))
  }

  /** A read before the end must bring something. */
  function NextChunk(answer: Result<Response>): Result<seq<Byte>> {
    match answer
    case Ok(m) => if !m.RRead? then Err(Invalid) else if m.data == [] then Err(UnexpectedEof) else Ok(m.data)
    case Err(e) => Err(e)
  }

  lemma XattrWalkOutcome<S>(ops: Fs<S>, s: S, t: Table, fid: u32, newfid: u32, name: Text, outcome: Result<Response>,
      answer: Result<Response>, s': S, u: Table)
    requires fid in t && newfid !in t && Answered(ops, s, t, TXattrWalk(fid, newfid, name), outcome, answer, s', u)
    ensures s' == s && (answer.Ok? <==> |name| < MAX_NAME && Sendable(XattrData(ops, s, t[fid].path, name)))
    ensures answer.Ok? ==> var data := XattrData(ops, s, t[fid].path, name).value;
                           answer.value == RXattrWalk(|data|)
                           && u == t[newfid := FidState(t[fid].path, XattrRead(data), RDONLY)]
    ensures answer.Err? ==> u == t
  {
    XattrWalkEncodable(fid, newfid, name);
    if Sendable(XattrData(ops, s, t[fid].path, name)) { SizeReplyFits(|XattrData(ops, s, t[fid].path, name).value|); }
  }

  lemma SizeReplyFits(size: u64)
    ensures Sends(RXattrWalk(size))
  {
    Widths();
    NumbersAreSmall([Num(8, size)]);
  }

  lemma XattrWalkTextual(fid: u32, newfid: u32, name: Text)
    requires Utf8(name)
    ensures AllTextual(RequestFields(TXattrWalk(fid, newfid, name)))
  {
  }

  lemma XattrWalkEncodable(fid: u32, newfid: u32, name: Text)
    ensures Encodable(TXattrWalk(fid, newfid, name)) <==> |name| < MAX_NAME
  {
    Widths();
    var fs := RequestFields(TXattrWalk(fid, newfid, name));
    if |name| < MAX_NAME {
      ShortFieldsAreSmall(fs);
    } else {
      assert !Fits(fs[2]);
    }
  }

  lemma ReadReply<S>(ops: Fs<S>, s: S, t: Table, fid: u32, offset: u64, count: u32, outcome: Result<Response>,
      answer: Result<Response>, s': S, u: Table)
    requires fid in t && t[fid].handle.XattrRead? && 11 + count < 0x1_0000_0000
    requires Answered(ops, s, t, TRead(fid, offset, count), outcome, answer, s', u)
    ensures s' == s && u == t && answer == Ok(RRead(Slice(t[fid].handle.data, offset, count)))
  {
    FidRequestFits(TRead(fid, offset, count));
    ReadFrameSize(0, Slice(t[fid].handle.data, offset, count));
  }

  // ----- reading a directory -----

  lemma LopenOutcome<S>(ops: Fs<S>, s: S, t: Table, fid: u32, flags: u32, outcome: Result<Response>,
      answer: Result<Response>, s': S, u: Table)
    requires fid in t && Answered(ops, s, t, TLopen(fid, flags), outcome, answer, s', u)
    ensures var file := Opened(ops, s, t[fid].path, flags);
            && s' == file.0 && (answer.Ok? <==> file.1.Ok? && ops.lstat(s', t[fid].path).Ok?)
            && (answer.Ok? ==>
                  answer.value.RLopen? && u == t[fid := FidState(t[fid].path, FileHandle(file.1.value), flags)])
            && (answer.Err? ==> u == t)
  {
    FidRequestFits(TLopen(fid, flags));
    if outcome.Ok? { OpenReplyFits(outcome.value.qid, outcome.value.iounit); }
  }

  lemma OpenReplyFits(qid: Qid, iounit: u32)
    ensures Sends(RLopen(qid, iounit))
  {
    Widths();
    NumbersAreSmall(ResponseFields(RLopen(qid, iounit)));
  }

  /** The path is there and can be opened, and is still there then. */
  ghost predicate Openable<S>(ops: Fs<S>, s: S, path: Text, flags: u32) {
    && PathThere(ops, s, path) && Opened(ops, s, path, flags).1.Ok?
       && ops.lstat(Opened(ops, s, path, flags).0, path).Ok?
  }

  lemma PageReplyFits(data: seq<Byte>)
    requires 11 + |data| < 0x1_0000_0000
    ensures Sends(RReaddir(data))
  {
    DataLength(data);
  }

  /** Names are texts, and a listing is no longer than memory. */
  ghost predicate WellListed<S>(ops: Fs<S>, s: S, path: Text) {
    ops.readDir(s, path).Ok? ==>
      && |ops.readDir(s, path).value| < 0x1_0000_0000_0000_0000
      && forall i :: 0 <= i < |ops.readDir(s, path).value| ==> Utf8(ops.readDir(s, path).value[i].name)
  }

  function EntryCount<S>(ops: Fs<S>, s: S, path: Text): nat {
    if ops.readDir(s, path).Ok? then |ops.readDir(s, path).value| else 0
  }

  function DataOf(answer: Result<Response>): Result<seq<Byte>> {
    match answer
    case Ok(m) => if m.RReaddir? then Ok(m.data) else Err(Invalid)
    case Err(e) => Err(e)
  }

  lemma ReaddirOutcome<S>(ops: Fs<S>, s: S, t: Table, fid: u32, offset: u64, count: u32, outcome: Result<Response>,
      answer: Result<Response>, s': S, u: Table)
    requires fid in t && 11 + count < 0x1_0000_0000
    requires Answered(ops, s, t, TReaddir(fid, offset, count), outcome, answer, s', u)
    ensures s' == s && u == t && DataOf(answer) == Heard(PageData(ops, s, t[fid].path, offset, count))
  {
    FidRequestFits(TReaddir(fid, offset, count));
    PageIsShort(ops, s, t[fid].path, offset, count);
    if outcome.Ok? { PageReplyFits(outcome.value.data); }
  }

  lemma PageIsShort<S>(ops: Fs<S>, s: S, path: Text, offset: u64, count: u32)
    ensures var data := PageData(ops, s, path, offset, count); data.Ok? ==> |data.value| <= count
  {
    if Entries(ops, s, path).Ok? { PackedPage(Entries(ops, s, path).value, offset, count); }
  }

  /** What asking for a directory page by page gives. */
  function DirListing<S>(ops: Fs<S>, s: S, path: Text, count: nat): Result<seq<Dirent>> {
    var rs :- Entries(ops, s, path);
    Listed(rs, count)
  }

  /** Everything before the cursor has been collected. */
  ghost predicate Collected<S>(ops: Fs<S>, s: S, path: Text, count: u32, offset: nat, entries: seq<Dirent>) {
    match Entries(ops, s, path)
    case Ok(rs) => offset <= Stop(rs, 0, count) && entries == Delivered(rs, count)[..offset]
    case Err(_) => offset == 0 && entries == []
  }

  lemma CollectNothing<S>(ops: Fs<S>, s: S, path: Text, count: u32)
    ensures Collected(ops, s, path, count, 0, [])
  {
  }

  /** What the client decodes of a page; an empty one ends the loop. */
  function DecodePage(data: Result<seq<Byte>>): Result<seq<Dirent>> {
    match data case Ok(bytes) => DecodeDirents(bytes) case Err(e) => Err(e)
  }

  /** What one decoded page means for the collection: an error is the error of the listing, an empty
      page is its end, any other page moves on. */
  ghost predicate CollectedMore<S>(ops: Fs<S>, s: S, path: Text, count: u32, offset: nat, entries: seq<Dirent>,
      page: Result<seq<Dirent>>) {
    var listing := DirListing(ops, s, path, count);
    match page
    case Err(e) => listing.Err? && page == Heard(listing)
    case Ok(es) =>
      if es == [] then listing == Ok(entries)
      else
        var next := es[|es| - 1].offset;
        offset < next <= EntryCount(ops, s, path) && Collected(ops, s, path, count, next, entries + es)
  }

  /** One round of the loop on a directory that can be read. */
  lemma RoundOn(rs: seq<Result<Dirent>>, offset: nat, count: nat, entries: seq<Dirent>)
    requires Numbered(Delivered(rs, count)) && AllGoodDirents(Delivered(rs, count))
    requires offset <= Stop(rs, 0, count) && entries == Delivered(rs, count)[..offset]
    ensures match PackFrom(rs, 0, offset, count, [])
            case Err(e) => Listed(rs, count) == Err(e)
            case Ok(data) =>
              && DecodeDirents(data).Ok?
              && var es := DecodeDirents(data).value;
                 if es == [] then Listed(rs, count) == Ok(entries)
                 else offset < es[|es| - 1].offset <= Stop(rs, 0, count)
                      && entries + es == Delivered(rs, count)[..es[|es| - 1].offset]
  {
    PackedPage(rs, offset, count);
    var end := NextPage(rs, offset, count);
    if offset < end {
      SliceEnd(Delivered(rs, count), offset, end);
    } else {
      assert Delivered(rs, count)[..offset] == Delivered(rs, count);
    }
  }

  /** One round of the loop, whatever the page was. */
  lemma CollectMore<S>(ops: Fs<S>, s: S, path: Text, count: u32, offset: u64, entries: seq<Dirent>)
    requires WellListed(ops, s, path) && Collected(ops, s, path, count, offset, entries)
    ensures CollectedMore(ops, s, path, count, offset, entries,
        DecodePage(Heard(PageData(ops, s, path, offset, count))))
  {
    if Entries(ops, s, path).Ok? {
      DeliveredIsGood(ops, s, path, count);
      RoundOn(Entries(ops, s, path).value, offset, count, entries);
    }
  }

  lemma DeliveredIsGood<S>(ops: Fs<S>, s: S, path: Text, count: nat)
    requires WellListed(ops, s, path) && Entries(ops, s, path).Ok?
    ensures var ds := Delivered(Entries(ops, s, path).value, count); Numbered(ds) && AllGoodDirents(ds)
  {
    var entries, rs := ops.readDir(s, path).value, Entries(ops, s, path).value;
    var ds := Delivered(rs, count);
    forall i | 0 <= i < |ds| ensures ds[i].offset == i + 1 && GoodDirent(ds[i]) {
      assert Deliverable(rs[i], count) && rs[i] == DirentAt(ops, s, path, entries, i);
      DirentHas(ops, s, path, entries, i, ds[i]);
    }
  }

  // ----- what a listing shows -----

  /** The kind that a type code stands for. */
  function KindOfDirent(typ: u8): FileKind {
    if typ == DT_DIR then Directory else if typ == DT_LNK then Symlink else Regular
  }

  function Shown(ds: seq<Dirent>): (es: seq<DirEntry>)
    ensures |es| == |ds|
  {
    seq(|ds|, i requires 0 <= i < |ds| => DirEntry(ds[i].name, KindOfDirent(ds[i].typ)))
  }

  /** A kind as a listing can tell it: pipes and sockets look like regular files. */
  function ListedKind(k: FileKind): FileKind {
    if k.Directory? || k.Symlink? then k else Regular
  }

  /** What the client gets of a listing: the first entries, each once, in the server's order, with
      its name and its kind; and all of them exactly when each can be examined and fits a page. */
  lemma {:induction false} CompleteListing<S>(ops: Fs<S>, s: S, path: Text, count: nat)
    requires ops.readDir(s, path).Ok? && DirListing(ops, s, path, count).Ok?
    ensures var entries, rs := ops.readDir(s, path).value, Entries(ops, s, path).value;
            var shown := Shown(DirListing(ops, s, path, count).value);
            && |shown| <= |entries|
            && (forall i :: 0 <= i < |shown| ==> shown[i] == DirEntry(entries[i].name,
                  match entries[i].kind case Directory => Directory case Symlink => Symlink case _ => Regular))
            && (|shown| == |entries| <==> forall i :: 0 <= i < |rs| ==> Deliverable(rs[i], count))
  {
    var entries, rs := ops.readDir(s, path).value, Entries(ops, s, path).value;
    var ds := Delivered(rs, count);
    EverythingListed(rs, count);
    forall i | 0 <= i < |ds| ensures Shown(ds)[i] == DirEntry(entries[i].name, ListedKind(entries[i].kind)) {
      assert Deliverable(rs[i], count) && rs[i] == DirentAt(ops, s, path, entries, i);
    }
  }
}
