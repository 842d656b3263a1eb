/** The wire format, byte by byte: where in its frame each message has each of its parts.
    (9P: intro(5), and the 9P2000.L messages.) */
module Layout {
  import opened Wrappers
  import opened Bytes
  import opened Seqs
  import opened Codec
  import opened Messages
  import opened Frames
  import opened Readdir

  // ----- parts -----

  /** Numbers have their low byte first. */
  lemma {:induction false} LowByteFirst(n: nat)
    ensures LE(1, n) == [n % 256]
    ensures LE(2, n) == [n % 256, n / 256 % 256]
    ensures LE(4, n) == [n % 256, n / 256 % 256, n / 65536 % 256, n / 16777216 % 256]
    ensures LE(8, n) == LE(4, n) + LE(4, n / 0x1_0000_0000)
  {
    var n1, n2, n3, n4 := n / 256, n / 256 / 256, n / 256 / 256 / 256, n / 256 / 256 / 256 / 256;
    assert n2 == n / 65536 && n3 == n / 16777216 && n4 == n / 0x1_0000_0000;
    Lowest(0, n);
    Lowest(0, n1);
    Lowest(0, n3);
    Lowest(1, n);
    Lowest(1, n2);
    Lowest(2, n1);
    Lowest(3, n);
    Lowest(4, n3);
    Lowest(5, n2);
    Lowest(6, n1);
    Lowest(7, n);
  }

  lemma {:induction false} Lowest(width: nat, n: nat)
    ensures LE(width + 1, n) == [n % 256] + LE(width, n / 256)
  {
  }

  /** Strings and lists have their length or count in front of them, a qid its type. */
  lemma {:induction false} PartsLayout(s: Text, more: seq<Text>, q: Qid, qids: seq<Qid>)
    ensures EncodeStr(s) == LE(2, |s|) + s
    ensures EncodeStrs([]) == [] && EncodeStrs([s] + more) == LE(2, |s|) + s + EncodeStrs(more)
    ensures EncodeQid(q) == [q.typ] + LE(4, q.version) + LE(8, q.path)
    ensures EncodeQids([]) == []
    ensures EncodeQids([q] + qids) == [q.typ] + LE(4, q.version) + LE(8, q.path) + EncodeQids(qids)
  {
    assert ([s] + more)[1..] == more && ([q] + qids)[1..] == qids;
  }

  /** An entry of a directory page: its qid, the cursor behind it, its type code and its name. */
  lemma {:induction false} DirentLayout(d: Dirent)
    ensures EncodeDirent(d) == EncodeQid(d.qid) + LE(8, d.offset) + [d.typ] + EncodeStr(d.name)
  {
    Assoc(EncodeQid(d.qid), LE(8, d.offset), [d.typ] + EncodeStr(d.name));
    Assoc(EncodeQid(d.qid) + LE(8, d.offset), [d.typ], EncodeStr(d.name));
  }

  // ----- fields in a row -----

  lemma {:induction false} One(a: Field)
    ensures EncodeAll([a]) == EncodeField(a)
  {
    assert EncodeAll([a]) == EncodeField(a) + EncodeAll([]);
  }

  lemma {:induction false} Two(a: Field, b: Field)
    ensures EncodeAll([a, b]) == EncodeField(a) + EncodeField(b)
  {
    One(b);
    assert [a, b][1..] == [b];
  }

  lemma {:induction false} Three(a: Field, b: Field, c: Field)
    ensures EncodeAll([a, b, c]) == EncodeField(a) + EncodeField(b) + EncodeField(c)
  {
    Two(b, c);
    assert [a, b, c][1..] == [b, c];
    Assoc(EncodeField(a), EncodeField(b), EncodeField(c));
  }

  lemma {:induction false} Four(a: Field, b: Field, c: Field, d: Field)
    ensures EncodeAll([a, b, c, d]) == EncodeField(a) + EncodeField(b) + EncodeField(c) + EncodeField(d)
  {
    Three(b, c, d);
    assert [a, b, c, d][1..] == [b, c, d];
    Assoc(EncodeField(a), EncodeField(b) + EncodeField(c), EncodeField(d));
    Assoc(EncodeField(a), EncodeField(b), EncodeField(c));
  }

  lemma {:induction false} Five(a: Field, b: Field, c: Field, d: Field, e: Field)
    ensures EncodeAll([a, b, c, d, e])
         == EncodeField(a) + EncodeField(b) + EncodeField(c) + EncodeField(d) + EncodeField(e)
  {
    Four(b, c, d, e);
    assert [a, b, c, d, e][1..] == [b, c, d, e];
    Assoc(EncodeField(a), EncodeField(b) + EncodeField(c) + EncodeField(d), EncodeField(e));
    Assoc(EncodeField(a), EncodeField(b) + EncodeField(c), EncodeField(d));
    Assoc(EncodeField(a), EncodeField(b), EncodeField(c));
  }

  lemma {:induction false} FieldInFront(f: Field, fs: seq<Field>)
    ensures EncodeAll([f] + fs) == EncodeField(f) + EncodeAll(fs)
  {
    assert ([f] + fs)[1..] == fs;
  }

  lemma {:induction false} InTwo(fs: seq<Field>, gs: seq<Field>)
    ensures EncodeAll(fs + gs) == EncodeAll(fs) + EncodeAll(gs)
  {
    if fs == [] {
      assert fs + gs == gs;
    } else {
      var f, rest := fs[0], fs[1..];
      assert fs == [f] + rest;
      InTwo(rest, gs);
      FieldInFront(f, rest);
      FieldInFront(f, rest + gs);
      Assoc([f], rest, gs);
      Assoc(EncodeField(f), EncodeAll(rest), EncodeAll(gs));
    }
  }

  // ----- requests -----

  lemma HeaderSlices(frame: seq<Byte>, size: seq<Byte>, typ: u8, tag: seq<Byte>, body: seq<Byte>)
    requires |size| == 4 && |tag| == 2 && frame == size + ([typ] + tag + body)
    ensures |frame| == 7 + |body| && frame[..4] == size && frame[4] == typ && frame[5..7] == tag && frame[7..] == body
  {
  }

  lemma FrameHeader(frame: seq<Byte>, typ: u8, tag: u16, fs: seq<Field>)
    requires EncodeFrame(typ, tag, fs) == Ok(frame)
    ensures |frame| >= 7 && frame[..4] == LE(4, |frame|) && frame[5..7] == LE(2, tag)
    ensures frame[4] == typ && frame[7..] == EncodeAll(fs)
  {
    HeaderSlices(frame, LE(4, 7 + |EncodeAll(fs)|), typ, LE(2, tag), EncodeAll(fs));
  }

  /** A frame starts with its own length, the type of its message, and the tag, in this order; then come
      the parts of the message, as the layouts below say. */
  lemma {:induction false} RequestHeader(frame: seq<Byte>, tag: u16, m: Request)
    requires EncodeRequest(tag, m) == Ok(frame) || DecodeRequest(frame) == Ok((tag, m))
    ensures |frame| >= 7 && frame[..4] == LE(4, |frame|) && frame[5..7] == LE(2, tag)
    ensures frame[4] == RequestType(m) && frame[7..] == EncodeAll(RequestFields(m))
  {
    if DecodeRequest(frame) == Ok((tag, m)) { RequestReencodes(frame); }
    FrameHeader(frame, RequestType(m), tag, RequestFields(m));
  }

  lemma {:induction false} ResponseHeader(frame: seq<Byte>, tag: u16, m: Response)
    requires EncodeResponse(tag, m) == Ok(frame) || DecodeResponse(frame) == Ok((tag, m))
    ensures |frame| >= 7 && frame[..4] == LE(4, |frame|) && frame[5..7] == LE(2, tag)
    ensures frame[4] == ResponseType(m) && frame[7..] == EncodeAll(ResponseFields(m))
  {
    if DecodeResponse(frame) == Ok((tag, m)) { ResponseReencodes(frame); }
    FrameHeader(frame, ResponseType(m), tag, ResponseFields(m));
  }

  /** Type code and parts of requests that introduce, walk, open, release and flush. */
  lemma {:induction false} FidRequestsLayout(m: Request)
    ensures var typ, body := RequestType(m), EncodeAll(RequestFields(m));
      match m
      case TVersion(msize, version) => typ == 100 && body == LE(4, msize) + EncodeStr(version)
      case TAttach(fid, afid, uname, aname, nUname) =>
        typ == 104 && body == LE(4, fid) + LE(4, afid) + EncodeStr(uname) + EncodeStr(aname) + LE(4, nUname)
      case TWalk(fid, newfid, names) =>
        typ == 110 && body == LE(4, fid) + LE(4, newfid) + LE(2, |names|) + EncodeStrs(names)
      case TLopen(fid, flags) => typ == 12 && body == LE(4, fid) + LE(4, flags)
      case TLcreate(fid, name, flags, mode, gid) =>
        typ == 14 && body == LE(4, fid) + EncodeStr(name) + LE(4, flags) + LE(4, mode) + LE(4, gid)
      case TClunk(fid) => typ == 120 && body == LE(4, fid)
      case TRemove(fid) => typ == 122 && body == LE(4, fid)
      case TFlush(oldtag) => typ == 108 && body == LE(2, oldtag)
      case _ => true
  {
    match m
    case TVersion(msize, version) => Two(Num(4, msize), Str(version));
    case TAttach(fid, afid, uname, aname, nUname) =>
      Five(Num(4, fid), Num(4, afid), Str(uname), Str(aname), Num(4, nUname));
    case TWalk(fid, newfid, names) => Three(Num(4, fid), Num(4, newfid), Strs(names));
    case TLopen(fid, flags) => Two(Num(4, fid), Num(4, flags));
    case TLcreate(fid, name, flags, mode, gid) =>
      Five(Num(4, fid), Str(name), Num(4, flags), Num(4, mode), Num(4, gid));
    case TClunk(fid) => One(Num(4, fid));
    case TRemove(fid) => One(Num(4, fid));
    case TFlush(oldtag) => One(Num(2, oldtag));
    case _ =>
  }

  /** Type code and parts of requests that move data and look at attributes. */
  lemma {:induction false} DataRequestsLayout(m: Request)
    ensures var typ, body := RequestType(m), EncodeAll(RequestFields(m));
      match m
      case TRead(fid, offset, count) => typ == 116 && body == LE(4, fid) + LE(8, offset) + LE(4, count)
      case TWrite(fid, offset, data) => typ == 118 && body == LE(4, fid) + LE(8, offset) + LE(4, |data|) + data
      case TReaddir(fid, offset, count) => typ == 40 && body == LE(4, fid) + LE(8, offset) + LE(4, count)
      case TGetAttr(fid, requestMask) => typ == 24 && body == LE(4, fid) + LE(8, requestMask)
      case TXattrWalk(fid, newfid, name) => typ == 30 && body == LE(4, fid) + LE(4, newfid) + EncodeStr(name)
      case TXattrCreate(fid, name, size, flags) =>
        typ == 32 && body == LE(4, fid) + EncodeStr(name) + LE(8, size) + LE(4, flags)
      case TReadlink(fid) => typ == 22 && body == LE(4, fid)
      case TFsync(fid) => typ == 50 && body == LE(4, fid)
      case _ => true
  {
    match m
    case TRead(fid, offset, count) => Three(Num(4, fid), Num(8, offset), Num(4, count));
    case TWrite(fid, offset, data) => Three(Num(4, fid), Num(8, offset), Data(data));
    case TReaddir(fid, offset, count) => Three(Num(4, fid), Num(8, offset), Num(4, count));
    case TGetAttr(fid, requestMask) => Two(Num(4, fid), Num(8, requestMask));
    case TXattrWalk(fid, newfid, name) => Three(Num(4, fid), Num(4, newfid), Str(name));
    case TXattrCreate(fid, name, size, flags) => Four(Num(4, fid), Str(name), Num(8, size), Num(4, flags));
    case TReadlink(fid) => One(Num(4, fid));
    case TFsync(fid) => One(Num(4, fid));
    case _ =>
  }

  /** Type code and parts of requests that change the tree. */
  lemma {:induction false} TreeRequestsLayout(m: Request)
    ensures var typ, body := RequestType(m), EncodeAll(RequestFields(m));
      match m
      case TMkdir(fid, name, mode, gid) =>
        typ == 72 && body == LE(4, fid) + EncodeStr(name) + LE(4, mode) + LE(4, gid)
      case TLink(fid, newdirfid, name) => typ == 70 && body == LE(4, fid) + LE(4, newdirfid) + EncodeStr(name)
      case TRenameAt(olddirfid, oldname, newdirfid, newname) =>
        typ == 74 && body == LE(4, olddirfid) + EncodeStr(oldname) + LE(4, newdirfid) + EncodeStr(newname)
      case TUnlinkAt(dirfid, name, flags) => typ == 76 && body == LE(4, dirfid) + EncodeStr(name) + LE(4, flags)
      case TSymlink(fid, name, target, gid) =>
        typ == 16 && body == LE(4, fid) + EncodeStr(name) + EncodeStr(target) + LE(4, gid)
      case _ => true
  {
    match m
    case TMkdir(fid, name, mode, gid) => Four(Num(4, fid), Str(name), Num(4, mode), Num(4, gid));
    case TLink(fid, newdirfid, name) => Three(Num(4, fid), Num(4, newdirfid), Str(name));
    case TRenameAt(olddirfid, oldname, newdirfid, newname) =>
      Four(Num(4, olddirfid), Str(oldname), Num(4, newdirfid), Str(newname));
    case TUnlinkAt(dirfid, name, flags) => Three(Num(4, dirfid), Str(name), Num(4, flags));
    case TSymlink(fid, name, target, gid) => Four(Num(4, fid), Str(name), Str(target), Num(4, gid));
    case _ =>
  }

  /** A request to set attributes. */
  lemma {:induction false} SetAttrLayout(fid: u32, a: SetAttr)
    ensures RequestType(TSetAttr(fid, a)) == 26
    ensures EncodeAll(RequestFields(TSetAttr(fid, a)))
         == LE(4, fid) + LE(4, a.valid) + LE(4, a.mode) + LE(4, a.uid) + LE(4, a.gid)
            + (LE(8, a.size) + LE(8, a.atimeSeconds) + LE(8, a.atimeNanoseconds) + LE(8, a.mtimeSeconds)
               + LE(8, a.mtimeNanoseconds))
  {
    var low := [Num(4, fid), Num(4, a.valid), Num(4, a.mode), Num(4, a.uid), Num(4, a.gid)];
    var high := [Num(8, a.size), Num(8, a.atimeSeconds), Num(8, a.atimeNanoseconds), Num(8, a.mtimeSeconds),
      Num(8, a.mtimeNanoseconds)];
    assert RequestFields(TSetAttr(fid, a)) == low + high;
    InTwo(low, high);
    Five(low[0], low[1], low[2], low[3], low[4]);
    Five(high[0], high[1], high[2], high[3], high[4]);
  }

  // ----- responses -----

  /** Type code and parts of answers to requests about fids, and errors. */
  lemma {:induction false} FidResponsesLayout(m: Response)
    ensures var typ, body := ResponseType(m), EncodeAll(ResponseFields(m));
      match m
      case Lerror(ecode) => typ == 7 && body == LE(4, ecode)
      case RVersion(msize, version) => typ == 101 && body == LE(4, msize) + EncodeStr(version)
      case RWalk(qids) => typ == 111 && body == LE(2, |qids|) + EncodeQids(qids)
      case RXattrWalk(size) => typ == 31 && body == LE(8, size)
      case RXattrCreate => typ == 33 && body == []
      case RClunk => typ == 121 && body == []
      case RRemove => typ == 123 && body == []
      case RFlush => typ == 109 && body == []
      case _ => true
  {
    match m
    case Lerror(ecode) => One(Num(4, ecode));
    case RVersion(msize, version) => Two(Num(4, msize), Str(version));
    case RWalk(qids) => One(Qids(qids));
    case RXattrWalk(size) => One(Num(8, size));
    case _ =>
  }

  /** Type code and parts of answers that carry data or nothing. */
  lemma {:induction false} DataResponsesLayout(m: Response)
    ensures var typ, body := ResponseType(m), EncodeAll(ResponseFields(m));
      match m
      case RRead(data) => typ == 117 && body == LE(4, |data|) + data
      case RWrite(count) => typ == 119 && body == LE(4, count)
      case RReaddir(data) => typ == 41 && body == LE(4, |data|) + data
      case RReadlink(target) => typ == 23 && body == EncodeStr(target)
      case RFsync => typ == 51 && body == []
      case RSetAttr => typ == 27 && body == []
      case RLink => typ == 71 && body == []
      case RRenameAt => typ == 75 && body == []
      case RUnlinkAt => typ == 77 && body == []
      case _ => true
  {
    match m
    case RRead(data) => One(Data(data));
    case RWrite(count) => One(Num(4, count));
    case RReaddir(data) => One(Data(data));
    case RReadlink(target) => One(Str(target));
    case _ =>
  }

  /** The qid of an answer stands first. */
  lemma {:induction false} QidResponsesLayout(m: Response)
    ensures var typ, body := ResponseType(m), EncodeAll(ResponseFields(m));
      match m
      case RAttach(qid) => typ == 105 && body == EncodeQid(qid)
      case RLopen(qid, iounit) => typ == 13 && body == EncodeQid(qid) + LE(4, iounit)
      case RLcreate(qid, iounit) => typ == 15 && body == EncodeQid(qid) + LE(4, iounit)
      case RMkdir(qid) => typ == 73 && body == EncodeQid(qid)
      case RSymlink(qid) => typ == 17 && body == EncodeQid(qid)
      case _ => true
  {
    if m.RAttach? || m.RMkdir? || m.RSymlink? {
      QidFieldsLayout(m.qid);
    } else if m.RLopen? || m.RLcreate? {
      QidFieldsLayout(m.qid);
      InTwo(QidFields(m.qid), [Num(4, m.iounit)]);
      One(Num(4, m.iounit));
    }
  }

  lemma {:induction false} QidFieldsLayout(q: Qid)
    ensures EncodeAll(QidFields(q)) == EncodeQid(q)
  {
    Three(Num(1, q.typ), Num(4, q.version), Num(8, q.path));
    LowByteFirst(q.typ);
  }

  /** The twenty attributes, in groups of at most five. */
  lemma {:induction false} AttrFieldsLayout(a: Attr)
    ensures ResponseType(RGetAttr(a)) == 25 && ResponseFields(RGetAttr(a)) == AttrFields(a)
    ensures EncodeAll(AttrFields(a)) == LE(8, a.valid) + EncodeQid(a.qid)
      + (LE(4, a.mode) + LE(4, a.uid) + LE(4, a.gid) + LE(8, a.nlink) + LE(8, a.rdev))
      + (LE(8, a.size) + LE(8, a.blksize) + LE(8, a.blocks) + LE(8, a.atimeSeconds) + LE(8, a.atimeNanoseconds))
      + (LE(8, a.mtimeSeconds) + LE(8, a.mtimeNanoseconds) + LE(8, a.ctimeSeconds) + LE(8, a.ctimeNanoseconds)
         + LE(8, a.btimeSeconds))
      + (LE(8, a.btimeNanoseconds) + LE(8, a.gen) + LE(8, a.dataVersion))
  {
    AttrInFive(a);
    InFive([Num(8, a.valid)] + QidFields(a.qid), Owners(a), Sizes(a), Times(a), Rest(a));
    FirstLayout(a);
    OwnersLayout(a);
    SizesLayout(a);
    TimesLayout(a);
    RestLayout(a);
  }

  lemma {:induction false} FirstLayout(a: Attr)
    ensures EncodeAll([Num(8, a.valid)] + QidFields(a.qid)) == LE(8, a.valid) + EncodeQid(a.qid)
  {
    InTwo([Num(8, a.valid)], QidFields(a.qid));
    One(Num(8, a.valid));
    QidFieldsLayout(a.qid);
  }

  lemma {:induction false} OwnersLayout(a: Attr)
    ensures EncodeAll(Owners(a)) == LE(4, a.mode) + LE(4, a.uid) + LE(4, a.gid) + LE(8, a.nlink) + LE(8, a.rdev)
  {
    Five(Num(4, a.mode), Num(4, a.uid), Num(4, a.gid), Num(8, a.nlink), Num(8, a.rdev));
  }

  lemma {:induction false} SizesLayout(a: Attr)
    ensures EncodeAll(Sizes(a))
         == LE(8, a.size) + LE(8, a.blksize) + LE(8, a.blocks) + LE(8, a.atimeSeconds) + LE(8, a.atimeNanoseconds)
  {
    Five(Num(8, a.size), Num(8, a.blksize), Num(8, a.blocks), Num(8, a.atimeSeconds), Num(8, a.atimeNanoseconds));
  }

  lemma {:induction false} TimesLayout(a: Attr)
    ensures EncodeAll(Times(a))
         == LE(8, a.mtimeSeconds) + LE(8, a.mtimeNanoseconds) + LE(8, a.ctimeSeconds) + LE(8, a.ctimeNanoseconds)
            + LE(8, a.btimeSeconds)
  {
    Five(Num(8, a.mtimeSeconds), Num(8, a.mtimeNanoseconds), Num(8, a.ctimeSeconds), Num(8, a.ctimeNanoseconds),
        Num(8, a.btimeSeconds));
  }

  lemma {:induction false} RestLayout(a: Attr)
    ensures EncodeAll(Rest(a)) == LE(8, a.btimeNanoseconds) + LE(8, a.gen) + LE(8, a.dataVersion)
  {
    Three(Num(8, a.btimeNanoseconds), Num(8, a.gen), Num(8, a.dataVersion));
  }

  lemma {:induction false} InFive(a: seq<Field>, b: seq<Field>, c: seq<Field>, d: seq<Field>, e: seq<Field>)
    ensures EncodeAll(a + b + c + d + e) == EncodeAll(a) + EncodeAll(b) + EncodeAll(c) + EncodeAll(d) + EncodeAll(e)
  {
    InTwo(a + b + c + d, e);
    InTwo(a + b + c, d);
    InTwo(a + b, c);
    InTwo(a, b);
  }

  function Owners(a: Attr): seq<Field> {
    [Num(4, a.mode), Num(4, a.uid), Num(4, a.gid), Num(8, a.nlink), Num(8, a.rdev)]
  }

  function Sizes(a: Attr): seq<Field> {
    [Num(8, a.size), Num(8, a.blksize), Num(8, a.blocks), Num(8, a.atimeSeconds), Num(8, a.atimeNanoseconds)]
  }

  function Times(a: Attr): seq<Field> {
    [Num(8, a.mtimeSeconds), Num(8, a.mtimeNanoseconds), Num(8, a.ctimeSeconds), Num(8, a.ctimeNanoseconds),
     Num(8, a.btimeSeconds)]
  }

  function Rest(a: Attr): seq<Field> {
    [Num(8, a.btimeNanoseconds), Num(8, a.gen), Num(8, a.dataVersion)]
  }

  lemma {:induction false} AttrInFive(a: Attr)
    ensures AttrFields(a) == [Num(8, a.valid)] + QidFields(a.qid) + Owners(a) + Sizes(a) + Times(a) + Rest(a)
  {
  }

  // ----- what is no message -----

  /** A message can be encoded exactly when its numbers, lengths and counts fit their fields and the frame
      is shorter than 4 GiB. */
  lemma {:induction false} EncodesWhen(typ: u8, tag: u16, fs: seq<Field>)
    ensures EncodeFrame(typ, tag, fs).Ok? <==>
      && 7 + |EncodeAll(fs)| < 0x1_0000_0000
      && forall i :: 0 <= i < |fs| ==>
        match fs[i]
        case Num(width, n) => n < Pow256(width)
        case Str(s) => |s| < 0x1_0000
        case Data(data) => |data| < 0x1_0000_0000
        case Strs(names) => |names| < 0x1_0000 && forall k :: 0 <= k < |names| ==> |names[k]| < 0x1_0000
        case Qids(qids) => |qids| < 0x1_0000
  {
    assert forall i :: 0 <= i < |fs| ==> (Fits(fs[i]) <==>
      match fs[i]
      case Num(width, n) => n < Pow256(width)
      case Str(s) => |s| < 0x1_0000
      case Data(data) => |data| < 0x1_0000_0000
      case Strs(names) => |names| < 0x1_0000 && forall k :: 0 <= k < |names| ==> |names[k]| < 0x1_0000
      case Qids(qids) => |qids| < 0x1_0000);
  }


  /** A frame that is shorter than a header or lies about its length, and one of a type that is not
      served, are refused. */
  lemma {:induction false} RefusedFrames(frame: seq<Byte>)
    ensures |frame| < 7 || frame[..4] != LE(4, |frame|) ==> DecodeRequest(frame).Err? && DecodeResponse(frame).Err?
    ensures |frame| >= 7 ==>
      frame[4] in {12, 14, 16, 22, 24, 26, 30, 32, 40, 50, 70, 72, 74, 76, 100, 104, 108, 110, 116, 118, 120, 122}
      || DecodeRequest(frame).Err?
  {
    if |frame| >= 7 && frame[..4] != LE(4, |frame|) {
      LEOfFromLE(frame[0..4]);
      assert frame[0..4] == frame[..4];
    }
  }

  // ----- two frames in full -----

  /** Tag 1: walk from fid 1 to the new fid 2, by the name "a". */
  lemma {:induction false} WalkFrame()
    ensures var frame: seq<Byte> := [20, 0, 0, 0] + ([110] + [1, 0]
              + ([1, 0, 0, 0] + [2, 0, 0, 0] + ([1, 0] + ([1, 0] + [97]))));
            EncodeRequest(1, TWalk(1, 2, [[97]])) == Ok(frame) && DecodeRequest(frame) == Ok((1, TWalk(1, 2, [[97]])))
  {
    WalkBody();
    SmallNumbers(1);
    SmallNumbers(20);
    RequestRoundTrip(1, TWalk(1, 2, [[97]]));
  }

  lemma {:induction false} SmallNumbers(n: Byte)
    ensures LE(2, n) == [n, 0] && LE(4, n) == [n, 0, 0, 0] && LE(8, n) == [n, 0, 0, 0] + [0, 0, 0, 0]
  {
    LowByteFirst(n);
    LowByteFirst(0);
  }

  lemma {:induction false} WalkBody()
    ensures var fs := RequestFields(TWalk(1, 2, [[97]]));
            && EncodeAll(fs) == [1, 0, 0, 0] + [2, 0, 0, 0] + ([1, 0] + ([1, 0] + [97]))
            && |EncodeAll(fs)| == 13 && AllFit(fs) && AllTextual(fs)
  {
    Widths();
    Three(Num(4, 1), Num(4, 2), Strs([[97]]));
    SmallNumbers(1);
    SmallNumbers(2);
    OneName([97]);
  }

  lemma {:induction false} OneName(s: Text)
    ensures EncodeStrs([s]) == LE(2, |s|) + s
  {
    assert EncodeStrs([s]) == EncodeStr(s) + EncodeStrs([]);
  }

  /** Tag 258: what a walk that found one file, with qid type 128, version 3 and path 4, answers. */
  lemma {:induction false} WalkedFrame()
    ensures EncodeResponse(258, RWalk([Qid(128, 3, 4)]))
         == Ok([22, 0, 0, 0] + ([111] + [2, 1]
               + ([1, 0] + ([128] + [3, 0, 0, 0] + ([4, 0, 0, 0] + [0, 0, 0, 0])))))
  {
    WalkedBody();
    SmallNumbers(22);
    LowByteFirst(258);
  }

  lemma {:induction false} WalkedBody()
    ensures var fs := ResponseFields(RWalk([Qid(128, 3, 4)]));
            && EncodeAll(fs) == [1, 0] + ([128] + [3, 0, 0, 0] + ([4, 0, 0, 0] + [0, 0, 0, 0]))
            && |EncodeAll(fs)| == 15 && AllFit(fs)
  {
    var q := Qid(128, 3, 4);
    One(Qids([q]));
    OneQid(q);
    SmallNumbers(1);
    SmallNumbers(3);
    SmallNumbers(4);
  }

  lemma {:induction false} OneQid(q: Qid)
    ensures EncodeQids([q]) == [q.typ] + LE(4, q.version) + LE(8, q.path)
  {
    assert EncodeQids([q]) == EncodeQid(q) + EncodeQids([]);
  }
}
