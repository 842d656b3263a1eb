/** The 9P2000.L messages the bridge speaks, each as its type code and the list of its fields,
    and the two directions of their binary form. */
module Messages {
  import opened Wrappers
  import opened Bytes
  import opened Codec

  datatype SetAttr = SetAttr(valid: u32, mode: u32, uid: u32, gid: u32, size: u64, atimeSeconds: u64,
      atimeNanoseconds: u64, mtimeSeconds: u64, mtimeNanoseconds: u64)

  datatype Attr = Attr(valid: u64, qid: Qid, mode: u32, uid: u32, gid: u32, nlink: u64, rdev: u64, size: u64,
                       blksize: u64, blocks: u64, atimeSeconds: u64, atimeNanoseconds: u64, mtimeSeconds: u64,
                       mtimeNanoseconds: u64, ctimeSeconds: u64, ctimeNanoseconds: u64, btimeSeconds: u64,
                       btimeNanoseconds: u64, gen: u64, dataVersion: u64)

  datatype Request =
    | TVersion(msize: u32, version: Text)
    | TAttach(fid: u32, afid: u32, uname: Text, aname: Text, nUname: u32)
    | TWalk(fid: u32, newfid: u32, names: seq<Text>)
    | TLopen(fid: u32, flags: u32)
    | TLcreate(fid: u32, name: Text, flags: u32, mode: u32, gid: u32)
    | TGetAttr(fid: u32, requestMask: u64)
    | TSetAttr(fid: u32, attr: SetAttr)
    | TXattrWalk(fid: u32, newfid: u32, name: Text)
    | TXattrCreate(fid: u32, name: Text, size: u64, flags: u32)
    | TRead(fid: u32, offset: u64, count: u32)
    | TWrite(fid: u32, offset: u64, data: seq<Byte>)
    | TClunk(fid: u32)
    | TRemove(fid: u32)
    | TMkdir(fid: u32, name: Text, mode: u32, gid: u32)
    | TLink(fid: u32, newdirfid: u32, name: Text)
    | TReaddir(fid: u32, offset: u64, count: u32)
    | TRenameAt(olddirfid: u32, oldname: Text, newdirfid: u32, newname: Text)
    | TUnlinkAt(dirfid: u32, name: Text, flags: u32)
    | TSymlink(fid: u32, name: Text, target: Text, gid: u32)
    | TReadlink(fid: u32)
    | TFsync(fid: u32)
    | TFlush(oldtag: u16)

  datatype Response =
    | Lerror(ecode: u32)
    | RVersion(msize: u32, version: Text)
    | RAttach(qid: Qid)
    | RWalk(qids: seq<Qid>)
    | RLopen(qid: Qid, iounit: u32)
    | RLcreate(qid: Qid, iounit: u32)
    | RGetAttr(attr: Attr)
    | RSetAttr
    | RXattrWalk(size: u64)
    | RXattrCreate
    | RRead(data: seq<Byte>)
    | RWrite(count: u32)
    | RClunk
    | RRemove
    | RMkdir(qid: Qid)
    | RLink
    | RReaddir(data: seq<Byte>)
    | RRenameAt
    | RUnlinkAt
    | RSymlink(qid: Qid)
    | RReadlink(target: Text)
    | RFsync
    | RFlush

  function QidFields(q: Qid): seq<Field> {
    [Num(1, q.typ), Num(4, q.version), Num(8, q.path)]
  }

  function SetAttrFields(a: SetAttr): seq<Field> {
    [Num(4, a.valid), Num(4, a.mode), Num(4, a.uid), Num(4, a.gid), Num(8, a.size), Num(8, a.atimeSeconds),
        Num(8, a.atimeNanoseconds), Num(8, a.mtimeSeconds), Num(8, a.mtimeNanoseconds)]
  }

  function AttrFields(a: Attr): seq<Field> {
    [Num(8, a.valid), Num(1, a.qid.typ), Num(4, a.qid.version), Num(8, a.qid.path),
     Num(4, a.mode), Num(4, a.uid), Num(4, a.gid), Num(8, a.nlink), Num(8, a.rdev), Num(8, a.size),
     Num(8, a.blksize), Num(8, a.blocks), Num(8, a.atimeSeconds), Num(8, a.atimeNanoseconds),
     Num(8, a.mtimeSeconds), Num(8, a.mtimeNanoseconds), Num(8, a.ctimeSeconds), Num(8, a.ctimeNanoseconds),
     Num(8, a.btimeSeconds), Num(8, a.btimeNanoseconds), Num(8, a.gen), Num(8, a.dataVersion)]
  }

  const QID_KINDS := [KNum(1), KNum(4), KNum(8)]
  const SETATTR_KINDS := [KNum(4), KNum(4), KNum(4), KNum(4), KNum(8), KNum(8), KNum(8), KNum(8), KNum(8)]
  const ATTR_KINDS := [KNum(8), KNum(1), KNum(4), KNum(8), KNum(4), KNum(4), KNum(4), KNum(8), KNum(8), KNum(8),
      KNum(8), KNum(8), KNum(8), KNum(8), KNum(8), KNum(8), KNum(8), KNum(8), KNum(8), KNum(8), KNum(8), KNum(8)]

  function QidOf(fs: seq<Field>): Qid
    requires KindsMatch(QID_KINDS, fs) && AllGood(fs)
  {
    Widths();
    Qid(fs[0].n, fs[1].n, fs[2].n)
  }

  function SetAttrOf(fs: seq<Field>): SetAttr
    requires KindsMatch(SETATTR_KINDS, fs) && AllGood(fs)
  {
    Widths();
    SetAttr(fs[0].n, fs[1].n, fs[2].n, fs[3].n, fs[4].n, fs[5].n, fs[6].n, fs[7].n, fs[8].n)
  }

  function AttrOf(fs: seq<Field>): Attr
    requires KindsMatch(ATTR_KINDS, fs) && AllGood(fs)
  {
    Widths();
    Attr(fs[0].n, Qid(fs[1].n, fs[2].n, fs[3].n), fs[4].n, fs[5].n, fs[6].n, fs[7].n, fs[8].n, fs[9].n, fs[10].n,
        fs[11].n, fs[12].n, fs[13].n, fs[14].n, fs[15].n, fs[16].n, fs[17].n, fs[18].n, fs[19].n, fs[20].n, fs[21].n)
  }

  function RequestType(m: Request): u8 {
    match m
    case TVersion(_, _) => 100
    case TAttach(_, _, _, _, _) => 104
    case TWalk(_, _, _) => 110
    case TLopen(_, _) => 12
    case TLcreate(_, _, _, _, _) => 14
    case TGetAttr(_, _) => 24
    case TSetAttr(_, _) => 26
    case TXattrWalk(_, _, _) => 30
    case TXattrCreate(_, _, _, _) => 32
    case TRead(_, _, _) => 116
    case TWrite(_, _, _) => 118
    case TClunk(_) => 120
    case TRemove(_) => 122
    case TMkdir(_, _, _, _) => 72
    case TLink(_, _, _) => 70
    case TReaddir(_, _, _) => 40
    case TRenameAt(_, _, _, _) => 74
    case TUnlinkAt(_, _, _) => 76
    case TSymlink(_, _, _, _) => 16
    case TReadlink(_) => 22
    case TFsync(_) => 50
    case TFlush(_) => 108
  }

  function RequestFields(m: Request): seq<Field> {
    match m
    case TVersion(msize, version) => [Num(4, msize), Str(version)]
    case TAttach(fid, afid, uname, aname, nUname) => [Num(4, fid), Num(4, afid), Str(uname), Str(aname), Num(4, nUname)]
    case TWalk(fid, newfid, names) => [Num(4, fid), Num(4, newfid), Strs(names)]
    case TLopen(fid, flags) => [Num(4, fid), Num(4, flags)]
    case TLcreate(fid, name, flags, mode, gid) => [Num(4, fid), Str(name), Num(4, flags), Num(4, mode), Num(4, gid)]
    case TGetAttr(fid, requestMask) => [Num(4, fid), Num(8, requestMask)]
    case TSetAttr(fid, attr) => [Num(4, fid)] + SetAttrFields(attr)
    case TXattrWalk(fid, newfid, name) => [Num(4, fid), Num(4, newfid), Str(name)]
    case TXattrCreate(fid, name, size, flags) => [Num(4, fid), Str(name), Num(8, size), Num(4, flags)]
    case TRead(fid, offset, count) => [Num(4, fid), Num(8, offset), Num(4, count)]
    case TWrite(fid, offset, data) => [Num(4, fid), Num(8, offset), Data(data)]
    case TClunk(fid) => [Num(4, fid)]
    case TRemove(fid) => [Num(4, fid)]
    case TMkdir(fid, name, mode, gid) => [Num(4, fid), Str(name), Num(4, mode), Num(4, gid)]
    case TLink(fid, newdirfid, name) => [Num(4, fid), Num(4, newdirfid), Str(name)]
    case TReaddir(fid, offset, count) => [Num(4, fid), Num(8, offset), Num(4, count)]
    case TRenameAt(olddirfid, oldname, newdirfid, newname) => [Num(4, olddirfid), Str(oldname), Num(4, newdirfid),
        Str(newname)]
    case TUnlinkAt(dirfid, name, flags) => [Num(4, dirfid), Str(name), Num(4, flags)]
    case TSymlink(fid, name, target, gid) => [Num(4, fid), Str(name), Str(target), Num(4, gid)]
    case TReadlink(fid) => [Num(4, fid)]
    case TFsync(fid) => [Num(4, fid)]
    case TFlush(oldtag) => [Num(2, oldtag)]
  }

  /** The fields of a message of type `typ`, in order; None for a type outside the subset. */
  function RequestKinds(typ: u8): Option<seq<Kind>> {
    match typ
    case 100 => Some([KNum(4), KStr])
    case 104 => Some([KNum(4), KNum(4), KStr, KStr, KNum(4)])
    case 110 => Some([KNum(4), KNum(4), KStrs])
    case 12 => Some([KNum(4), KNum(4)])
    case 14 => Some([KNum(4), KStr, KNum(4), KNum(4), KNum(4)])
    case 24 => Some([KNum(4), KNum(8)])
    case 26 => Some([KNum(4)] + SETATTR_KINDS)
    case 30 => Some([KNum(4), KNum(4), KStr])
    case 32 => Some([KNum(4), KStr, KNum(8), KNum(4)])
    case 116 => Some([KNum(4), KNum(8), KNum(4)])
    case 118 => Some([KNum(4), KNum(8), KData])
    case 120 => Some([KNum(4)])
    case 122 => Some([KNum(4)])
    case 72 => Some([KNum(4), KStr, KNum(4), KNum(4)])
    case 70 => Some([KNum(4), KNum(4), KStr])
    case 40 => Some([KNum(4), KNum(8), KNum(4)])
    case 74 => Some([KNum(4), KStr, KNum(4), KStr])
    case 76 => Some([KNum(4), KStr, KNum(4)])
    case 16 => Some([KNum(4), KStr, KStr, KNum(4)])
    case 22 => Some([KNum(4)])
    case 50 => Some([KNum(4)])
    case 108 => Some([KNum(2)])
    case _ => None
  }

  predicate RequestShape(typ: u8, fs: seq<Field>) {
    RequestKinds(typ).Some? && KindsMatch(RequestKinds(typ).value, fs) && AllGood(fs)
  }

  function BuildRequest(typ: u8, fs: seq<Field>): Request
    requires RequestShape(typ, fs)
  {
    Widths();
    match typ
    case 100 => TVersion(fs[0].n, fs[1].bytes)
    case 104 => TAttach(fs[0].n, fs[1].n, fs[2].bytes, fs[3].bytes, fs[4].n)
    case 110 => TWalk(fs[0].n, fs[1].n, fs[2].names)
    case 12 => TLopen(fs[0].n, fs[1].n)
    case 14 => TLcreate(fs[0].n, fs[1].bytes, fs[2].n, fs[3].n, fs[4].n)
    case 24 => TGetAttr(fs[0].n, fs[1].n)
    case 26 => TSetAttr(fs[0].n, SetAttrOf(fs[1..10]))
    case 30 => TXattrWalk(fs[0].n, fs[1].n, fs[2].bytes)
    case 32 => TXattrCreate(fs[0].n, fs[1].bytes, fs[2].n, fs[3].n)
    case 116 => TRead(fs[0].n, fs[1].n, fs[2].n)
    case 118 => TWrite(fs[0].n, fs[1].n, fs[2].data)
    case 120 => TClunk(fs[0].n)
    case 122 => TRemove(fs[0].n)
    case 72 => TMkdir(fs[0].n, fs[1].bytes, fs[2].n, fs[3].n)
    case 70 => TLink(fs[0].n, fs[1].n, fs[2].bytes)
    case 40 => TReaddir(fs[0].n, fs[1].n, fs[2].n)
    case 74 => TRenameAt(fs[0].n, fs[1].bytes, fs[2].n, fs[3].bytes)
    case 76 => TUnlinkAt(fs[0].n, fs[1].bytes, fs[2].n)
    case 16 => TSymlink(fs[0].n, fs[1].bytes, fs[2].bytes, fs[3].n)
    case 22 => TReadlink(fs[0].n)
    case 50 => TFsync(fs[0].n)
    case 108 => TFlush(fs[0].n)
  }

  function ResponseType(m: Response): u8 {
    match m
    case Lerror(_) => 7
    case RVersion(_, _) => 101
    case RAttach(_) => 105
    case RWalk(_) => 111
    case RLopen(_, _) => 13
    case RLcreate(_, _) => 15
    case RGetAttr(_) => 25
    case RSetAttr => 27
    case RXattrWalk(_) => 31
    case RXattrCreate => 33
    case RRead(_) => 117
    case RWrite(_) => 119
    case RClunk => 121
    case RRemove => 123
    case RMkdir(_) => 73
    case RLink => 71
    case RReaddir(_) => 41
    case RRenameAt => 75
    case RUnlinkAt => 77
    case RSymlink(_) => 17
    case RReadlink(_) => 23
    case RFsync => 51
    case RFlush => 109
  }

  function ResponseFields(m: Response): seq<Field> {
    match m
    case Lerror(ecode) => [Num(4, ecode)]
    case RVersion(msize, version) => [Num(4, msize), Str(version)]
    case RAttach(qid) => QidFields(qid)
    case RWalk(qids) => [Qids(qids)]
    case RLopen(qid, iounit) => QidFields(qid) + [Num(4, iounit)]
    case RLcreate(qid, iounit) => QidFields(qid) + [Num(4, iounit)]
    case RGetAttr(attr) => AttrFields(attr)
    case RSetAttr => []
    case RXattrWalk(size) => [Num(8, size)]
    case RXattrCreate => []
    case RRead(data) => [Data(data)]
    case RWrite(count) => [Num(4, count)]
    case RClunk => []
    case RRemove => []
    case RMkdir(qid) => QidFields(qid)
    case RLink => []
    case RReaddir(data) => [Data(data)]
    case RRenameAt => []
    case RUnlinkAt => []
    case RSymlink(qid) => QidFields(qid)
    case RReadlink(target) => [Str(target)]
    case RFsync => []
    case RFlush => []
  }

  /** The fields of a message of type `typ`, in order; None for a type outside the subset. */
  function ResponseKinds(typ: u8): Option<seq<Kind>> {
    match typ
    case 7 => Some([KNum(4)])
    case 101 => Some([KNum(4), KStr])
    case 105 => Some(QID_KINDS)
    case 111 => Some([KQids])
    case 13 => Some(QID_KINDS + [KNum(4)])
    case 15 => Some(QID_KINDS + [KNum(4)])
    case 25 => Some(ATTR_KINDS)
    case 27 => Some([])
    case 31 => Some([KNum(8)])
    case 33 => Some([])
    case 117 => Some([KData])
    case 119 => Some([KNum(4)])
    case 121 => Some([])
    case 123 => Some([])
    case 73 => Some(QID_KINDS)
    case 71 => Some([])
    case 41 => Some([KData])
    case 75 => Some([])
    case 77 => Some([])
    case 17 => Some(QID_KINDS)
    case 23 => Some([KStr])
    case 51 => Some([])
    case 109 => Some([])
    case _ => None
  }

  predicate ResponseShape(typ: u8, fs: seq<Field>) {
    ResponseKinds(typ).Some? && KindsMatch(ResponseKinds(typ).value, fs) && AllGood(fs)
  }

  function BuildResponse(typ: u8, fs: seq<Field>): Response
    requires ResponseShape(typ, fs)
  {
    Widths();
    match typ
    case 7 => Lerror(fs[0].n)
    case 101 => RVersion(fs[0].n, fs[1].bytes)
    case 105 => RAttach(QidOf(fs[0..3]))
    case 111 => RWalk(fs[0].qids)
    case 13 => RLopen(QidOf(fs[0..3]), fs[3].n)
    case 15 => RLcreate(QidOf(fs[0..3]), fs[3].n)
    case 25 => RGetAttr(AttrOf(fs[0..22]))
    case 27 => RSetAttr
    case 31 => RXattrWalk(fs[0].n)
    case 33 => RXattrCreate
    case 117 => RRead(fs[0].data)
    case 119 => RWrite(fs[0].n)
    case 121 => RClunk
    case 123 => RRemove
    case 73 => RMkdir(QidOf(fs[0..3]))
    case 71 => RLink
    case 41 => RReaddir(fs[0].data)
    case 75 => RRenameAt
    case 77 => RUnlinkAt
    case 17 => RSymlink(QidOf(fs[0..3]))
    case 23 => RReadlink(fs[0].bytes)
    case 51 => RFsync
    case 109 => RFlush
  }

  // ----- a message and its fields determine each other -----

  lemma QidBack(fs: seq<Field>)
    requires KindsMatch(QID_KINDS, fs) && AllGood(fs)
    ensures QidFields(QidOf(fs)) == fs
  {
  }

  lemma SetAttrBack(fs: seq<Field>)
    requires KindsMatch(SETATTR_KINDS, fs) && AllGood(fs)
    ensures SetAttrFields(SetAttrOf(fs)) == fs
  {
  }

  lemma AttrBack(fs: seq<Field>)
    requires KindsMatch(ATTR_KINDS, fs) && AllGood(fs)
    ensures AttrFields(AttrOf(fs)) == fs
  {
  }

  /** Do the fields of a request of this type include a string? */
  predicate HasText(typ: u8) {
    || typ == 100 || typ == 104 || typ == 14 || typ == 30 || typ == 32
    || typ == 72 || typ == 70 || typ == 74 || typ == 76 || typ == 16
  }

  /** Do the fields of a response of this type start with a qid? */
  predicate HasQid(typ: u8) {
    typ == 105 || typ == 13 || typ == 15 || typ == 73 || typ == 17
  }

  /** A request's fields have the shape its type announces. */
  lemma {:induction false} RequestHasItsKinds(m: Request)
    ensures RequestKinds(RequestType(m)).Some? && KindsMatch(RequestKinds(RequestType(m)).value, RequestFields(m))
  {
    if HasText(RequestType(m)) { TextRequestHasItsKinds(m); } else { PlainRequestHasItsKinds(m); }
  }

  lemma {:induction false} TextRequestHasItsKinds(m: Request)
    requires HasText(RequestType(m))
    ensures RequestKinds(RequestType(m)).Some? && KindsMatch(RequestKinds(RequestType(m)).value, RequestFields(m))
  {
  }

  lemma {:induction false} PlainRequestHasItsKinds(m: Request)
    requires !HasText(RequestType(m))
    ensures RequestKinds(RequestType(m)).Some? && KindsMatch(RequestKinds(RequestType(m)).value, RequestFields(m))
  {
    if m.TSetAttr? {
      assert RequestFields(m) == [Num(4, m.fid)] + SetAttrFields(m.attr);
    }
  }

  lemma {:induction false} TextRequestBuilt(m: Request)
    requires RequestShape(RequestType(m), RequestFields(m)) && HasText(RequestType(m))
    ensures BuildRequest(RequestType(m), RequestFields(m)) == m
  {
  }

  lemma {:induction false} PlainRequestBuilt(m: Request)
    requires RequestShape(RequestType(m), RequestFields(m)) && !HasText(RequestType(m))
    ensures BuildRequest(RequestType(m), RequestFields(m)) == m
  {
    if m.TSetAttr? {
      assert RequestFields(m)[1..10] == SetAttrFields(m.attr);
    }
  }

  /** A request is determined by its type and its fields. */
  lemma {:induction false} RequestFromItsFields(m: Request)
    requires AllGood(RequestFields(m))
    ensures RequestShape(RequestType(m), RequestFields(m))
    ensures BuildRequest(RequestType(m), RequestFields(m)) == m
  {
    RequestHasItsKinds(m);
    if HasText(RequestType(m)) { TextRequestBuilt(m); } else { PlainRequestBuilt(m); }
  }

  lemma {:induction false} TextRequestBack(typ: u8, fs: seq<Field>)
    requires RequestShape(typ, fs) && HasText(typ)
    ensures RequestType(BuildRequest(typ, fs)) == typ && RequestFields(BuildRequest(typ, fs)) == fs
  {
    if typ < 70 { LowTextRequestBack(typ, fs); } else { HighTextRequestBack(typ, fs); }
  }

  lemma {:induction false} LowTextRequestBack(typ: u8, fs: seq<Field>)
    requires RequestShape(typ, fs) && HasText(typ) && typ < 70
    ensures RequestType(BuildRequest(typ, fs)) == typ && RequestFields(BuildRequest(typ, fs)) == fs
  {
  }

  lemma {:induction false} HighTextRequestBack(typ: u8, fs: seq<Field>)
    requires RequestShape(typ, fs) && HasText(typ) && typ >= 70
    ensures RequestType(BuildRequest(typ, fs)) == typ && RequestFields(BuildRequest(typ, fs)) == fs
  {
  }

  lemma {:induction false} PlainRequestBack(typ: u8, fs: seq<Field>)
    requires RequestShape(typ, fs) && !HasText(typ) && typ != 26
    ensures RequestType(BuildRequest(typ, fs)) == typ && RequestFields(BuildRequest(typ, fs)) == fs
  {
  }

  lemma {:induction false} SetAttrRequestBack(fs: seq<Field>)
    requires RequestShape(26, fs)
    ensures RequestType(BuildRequest(26, fs)) == 26 && RequestFields(BuildRequest(26, fs)) == fs
  {
    SetAttrBack(fs[1..10]);
    assert fs == [fs[0]] + fs[1..10];
  }

  /** Well-formed fields are the fields of the request built from them. */
  lemma {:induction false} RequestFieldsBack(typ: u8, fs: seq<Field>)
    requires RequestShape(typ, fs)
    ensures RequestType(BuildRequest(typ, fs)) == typ && RequestFields(BuildRequest(typ, fs)) == fs
  {
    if HasText(typ) {
      TextRequestBack(typ, fs);
    } else if typ == 26 {
      SetAttrRequestBack(fs);
    } else {
      PlainRequestBack(typ, fs);
    }
  }

  /** A response's fields have the shape its type announces. */
  lemma {:induction false} ResponseHasItsKinds(m: Response)
    ensures ResponseKinds(ResponseType(m)).Some? && KindsMatch(ResponseKinds(ResponseType(m)).value, ResponseFields(m))
  {
  }

  lemma {:induction false} QidResponseBuilt(m: Response)
    requires ResponseShape(ResponseType(m), ResponseFields(m)) && HasQid(ResponseType(m))
    ensures BuildResponse(ResponseType(m), ResponseFields(m)) == m
  {
  }

  lemma {:induction false} PlainResponseBuilt(m: Response)
    requires ResponseShape(ResponseType(m), ResponseFields(m)) && !HasQid(ResponseType(m)) && !m.RGetAttr?
    ensures BuildResponse(ResponseType(m), ResponseFields(m)) == m
  {
  }

  lemma {:induction false} AttrResponseBuilt(m: Response)
    requires ResponseShape(ResponseType(m), ResponseFields(m)) && m.RGetAttr?
    ensures BuildResponse(ResponseType(m), ResponseFields(m)) == m
  {
    assert ResponseFields(m)[0..22] == AttrFields(m.attr);
  }

  /** A response is determined by its type and its fields. */
  lemma {:induction false} ResponseFromItsFields(m: Response)
    requires AllGood(ResponseFields(m))
    ensures ResponseShape(ResponseType(m), ResponseFields(m))
    ensures BuildResponse(ResponseType(m), ResponseFields(m)) == m
  {
    ResponseHasItsKinds(m);
    if HasQid(ResponseType(m)) {
      QidResponseBuilt(m);
    } else if m.RGetAttr? {
      AttrResponseBuilt(m);
    } else {
      PlainResponseBuilt(m);
    }
  }

  lemma {:induction false} QidResponseBack(typ: u8, fs: seq<Field>)
    requires ResponseShape(typ, fs) && HasQid(typ)
    ensures ResponseType(BuildResponse(typ, fs)) == typ && ResponseFields(BuildResponse(typ, fs)) == fs
  {
    QidBack(fs[0..3]);
    assert fs == if |fs| == 3 then fs[0..3] else fs[0..3] + [fs[3]];
  }

  lemma {:induction false} PlainResponseBack(typ: u8, fs: seq<Field>)
    requires ResponseShape(typ, fs) && !HasQid(typ) && typ != 25
    ensures ResponseType(BuildResponse(typ, fs)) == typ && ResponseFields(BuildResponse(typ, fs)) == fs
  {
  }

  lemma {:induction false} AttrResponseBack(fs: seq<Field>)
    requires ResponseShape(25, fs)
    ensures ResponseType(BuildResponse(25, fs)) == 25 && ResponseFields(BuildResponse(25, fs)) == fs
  {
    AttrBack(fs[0..22]);
    assert fs[0..22] == fs;
  }

  /** Well-formed fields are the fields of the response built from them. */
  lemma {:induction false} ResponseFieldsBack(typ: u8, fs: seq<Field>)
    requires ResponseShape(typ, fs)
    ensures ResponseType(BuildResponse(typ, fs)) == typ && ResponseFields(BuildResponse(typ, fs)) == fs
  {
    if HasQid(typ) {
      QidResponseBack(typ, fs);
    } else if typ == 25 {
      AttrResponseBack(fs);
    } else {
      PlainResponseBack(typ, fs);
    }
  }
}
