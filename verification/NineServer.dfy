/** The 9P server over an arbitrary backing file system. The file system is a record of
    operations on a state of any type, so what is proved here holds for every backing. */
module NineServer {
  import opened Wrappers
  import opened Bytes
  import opened Codec
  import opened Messages
  import opened Modes
  import opened Frames
  import opened Paths
  import opened XattrBuffer
  import opened XattrNames
  import opened FidTable
  import opened Readdir

  const DEFAULT_MSIZE: u32 := 65536
  const VERSION_9P2000: Text := [57, 80, 50, 48, 48, 48]
  const VERSION_L: Text := VERSION_9P2000 + [46, 76]
  const VERSION_UNKNOWN: Text := [117, 110, 107, 110, 111, 119, 110]

  datatype Meta = Meta(mode: Mode, size: u64, uid: u32, gid: u32, seconds: u64, nanoseconds: u32)
  datatype DirEntry = DirEntry(name: Text, kind: FileKind)

  /** Changes to the tree that report nothing but success or failure. */
  datatype Change =
    | Truncate(path: Text, size: u64)
    | Chmod(path: Text, perm: u32)
    | Chown(path: Text, uid: u32, gid: u32)
    | Chtimes(path: Text, seconds: u64, nanoseconds: u64)
    | MakeDir(path: Text, perm: u32)
    | RemovePath(path: Text)
    | RenamePath(old_: Text, new_: Text)
    | LinkPath(old_: Text, new_: Text)
    | SymlinkPath(target: Text, path: Text)

  /** A backing file system with states of type `S`. */
  datatype Fs<!S> = Fs(
    lstat: (S, Text) -> Result<Meta>,
    readDir: (S, Text) -> Result<seq<DirEntry>>,
    readlink: (S, Text) -> Result<Text>,
    getXattr: (S, Text, Text) -> Result<seq<Byte>>,
    listXattrs: (S, Text) -> Result<seq<Text>>,
    setXattr: (S, Text, Text, seq<Byte>) -> (S, Result<()>),
    openFile: (S, Text, u32, u32) -> (S, Result<Handle>),
    fileStat: (S, Handle) -> Result<Meta>,
    readAt: (S, Handle, u64, u32) -> (S, Result<seq<Byte>>),
    writeAt: (S, Handle, u64, seq<Byte>) -> (S, Result<u32>),
    syncFile: (S, Handle) -> (S, Result<()>),
    closeFile: (S, Handle) -> (S, Result<()>),
    change: (S, Change) -> (S, Result<()>),
    qidPath: Text -> u64)

  // ----- qids, attributes, flags -----

  const QTDIR: u8 := 0x80
  const QTSYMLINK: u8 := 0x02
  const DT_DIR: u8 := 4
  const DT_REG: u8 := 8
  const DT_LNK: u8 := 10

  function QidOfMeta<S>(ops: Fs<S>, path: Text, meta: Meta): Qid {
    Qid(match meta.mode.kind case Directory => QTDIR case Symlink => QTSYMLINK case _ => 0, 0, ops.qidPath(path))
  }

  function QidFor<S>(ops: Fs<S>, s: S, path: Text): Result<Qid> {
    var meta :- ops.lstat(s, path);
    Ok(QidOfMeta(ops, path, meta))
  }

  function DirentType(k: FileKind): u8 {
    match k case Directory => DT_DIR case Symlink => DT_LNK case _ => DT_REG
  }

  predicate Bit(n: u32, weight: nat)
    requires weight > 0
  {
    (n / weight) % 2 == 1
  }

  function OpenFlagsOf(flags: u32): u32 {
    (if flags % 4 == 1 then 1 else if flags % 4 == 2 then 2 else 0)
    + (if Bit(flags, 64) then 64 else 0) + (if Bit(flags, 128) then 128 else 0)
    + (if Bit(flags, 512) then 512 else 0) + (if Bit(flags, 1024) then 1024 else 0)
  }

  function WithCreate(flags: u32): u32 {
    if Bit(flags, 64) then OpenFlagsOf(flags) else OpenFlagsOf(flags) + 64
  }

  // ----- extended attributes -----

  /** What a Txattrwalk makes readable: one value, or for the empty name the list of names. */
  function XattrData<S>(ops: Fs<S>, s: S, path: Text, name: Text): Result<seq<Byte>> {
    if name == [] then var names :- ops.listXattrs(s, path); Ok(EncodeXattrNames(names))
    else ops.getXattr(s, path, name)
  }

  /** `commit_xattr_if_ready`: a complete value that has not been committed is written once. */
  function Commit<S>(ops: Fs<S>, s: S, st: FidState): (S, Result<()>) {
    if !st.handle.XattrWrite? || st.handle.write.committed then (s, Ok(()))
    else if !IsComplete(st.handle.write) then (s, Err(Invalid))
    else ops.setXattr(s, st.path, st.handle.write.name, st.handle.write.data)
  }

  function Slice(data: seq<Byte>, offset: nat, count: nat): seq<Byte> {
    if offset >= |data| then []
    else data[offset..if offset + count < |data| then offset + count else |data|]
  }

  function ErrnoFor(e: ErrorKind): u32 {
    match e
    case NotFound => 2
    case AlreadyExists => 17
    case Invalid => 22
    case PermissionDenied => 13
    case NotSupported => 38
    case NotEmpty => 39
    case Closed => 9
    case NotDir => 20
    case IsDir => 21
    case UnexpectedEof => 5
    case Other => 5
  }

  function ErrorOfErrno(n: u32): ErrorKind {
    match n
    case 1 => PermissionDenied
    case 2 => NotFound
    case 9 => Invalid
    case 13 => PermissionDenied
    case 17 => AlreadyExists
    case 20 => NotDir
    case 21 => IsDir
    case 22 => Invalid
    case 38 => NotSupported
    case 39 => NotEmpty
    case _ => Other
  }

  // ----- the file-system side of each request -----

  /** The change that a request asks the backing for, once its fids are live and its names valid. */
  function EffectOf(t: Table, req: Request): Option<Change> {
    match req
    case TMkdir(fid, name, mode, _) =>
      if fid in t && ValidPart(name) then Some(MakeDir(JoinPath(t[fid].path, name), mode % 512)) else None
    case TLink(fid, newdirfid, name) =>
      if fid in t && newdirfid in t
      && ValidPart(name) then Some(LinkPath(t[fid].path, JoinPath(t[newdirfid].path, name))) else None
    case TRenameAt(olddirfid, oldname, newdirfid, newname) =>
      if olddirfid in t && ValidPart(oldname) && newdirfid in t && ValidPart(newname)
      then Some(RenamePath(JoinPath(t[olddirfid].path, oldname), JoinPath(t[newdirfid].path, newname))) else None
    case TSymlink(fid, name, target, _) =>
      if fid in t && ValidPart(name) then Some(SymlinkPath(target, JoinPath(t[fid].path, name))) else None
    case _ => None
  }

  predicate AsksOneChange(m: Request) {
    m.TMkdir? || m.TLink? || m.TRenameAt? || m.TSymlink?
  }

  /** The answer once a change has been made. A created entry is examined for its qid. */
  function EffectReply<S>(ops: Fs<S>, s: S, c: Change): Result<Response> {
    match c
    case MakeDir(path, _) => var qid :- QidFor(ops, s, path); Ok(RMkdir(qid))
    case SymlinkPath(_, path) => var qid :- QidFor(ops, s, path); Ok(RSymlink(qid))
    case LinkPath(_, _) => Ok(RLink)
    case RenamePath(_, _) => Ok(RRenameAt)
    case RemovePath(_) => Ok(RRemove)
    case _ => Ok(RSetAttr)
  }

  /** A change that is asked for is made once, and answered accordingly. */
  ghost predicate Effected<S>(ops: Fs<S>, s: S, effect: Option<Change>, r: Result<Response>, s': S) {
    match effect
    case None => s' == s && r == Err(Invalid)
    case Some(c) =>
      && s' == ops.change(s, c).0
      && r == match ops.change(s, c).1 case Ok(_) => EffectReply(ops, s', c) case Err(e) => Err(e)
  }

  /** The entry is of the kind asked for, and empty if a directory. */
  predicate Unlinkable<S>(ops: Fs<S>, s: S, path: Text, asDirectory: bool) {
    && ops.lstat(s, path).Ok? && (ops.lstat(s, path).value.mode.kind.Directory? <==> asDirectory)
    && (asDirectory ==> ops.readDir(s, path) == Ok([]))
  }

  /** The path whose removal a Tunlinkat asks for, if it may be removed. */
  function UnlinkTarget<S>(ops: Fs<S>, s: S, t: Table, dirfid: u32, name: Text, flags: u32): Option<Text> {
    if dirfid in t && ValidPart(name) && Unlinkable(ops, s, JoinPath(t[dirfid].path, name), Bit(flags, 512))
    then Some(JoinPath(t[dirfid].path, name)) else None
  }

  /** What is removed, or nothing when `target` is none. */
  ghost predicate Removed<S>(ops: Fs<S>, s: S, target: Option<Text>, ok: Response, r: Result<Response>, s': S) {
    match target
    case None => s' == s && r.Err?
    case Some(path) =>
      s' == ops.change(s, RemovePath(path)).0 && r == Answer(ops.change(s, RemovePath(path)).1, ok)
  }

  /** Tremove closes an open file first, whatever comes of it; the root stays. */
  function BeforeRemove<S>(ops: Fs<S>, s: S, st: FidState): S {
    if st.path != ROOT && st.handle.FileHandle? then ops.closeFile(s, st.handle.file).0 else s
  }

  ghost predicate RemoveStep<S>(ops: Fs<S>, s: S, t: Table, fid: u32, r: Result<Response>, s': S) {
    if fid !in t || t[fid].path == ROOT then s' == s && r == Err(Invalid)
    else Removed(ops, BeforeRemove(ops, s, t[fid]), Some(t[fid].path), RRemove, r, s')
  }

  function Min(a: nat, b: nat): nat {
    if a < b then a else b
  }

  /** The state of the backing after a request, for the requests whose effect on it matters to
      the table: all that open, read, write, sync, commit or close. */
  ghost predicate FsStep<S>(ops: Fs<S>, s: S, t: Table, req: Request, r: Result<Response>, s': S) {
    match req
    case TLopen(fid, flags) => s' == if fid in t then Opened(ops, s, t[fid].path, flags).0 else s
    case TLcreate(fid, name, flags, mode, _) =>
      s' == if fid in t
      && ValidPart(name) then ops.openFile(s, JoinPath(t[fid].path, name), WithCreate(flags), mode % 512).0 else s
    case TRead(fid, offset, count) =>
      s' == if fid in t && t[fid].handle.FileHandle? then ops.readAt(s, t[fid].handle.file, offset, count).0 else s
    case TWrite(fid, offset, data) =>
      s' == if fid in t && t[fid].handle.FileHandle? then ops.writeAt(s, t[fid].handle.file, offset, data).0 else s
    case TFsync(fid) =>
      s' == if fid !in t then s
            else if t[fid].handle.FileHandle? then ops.syncFile(s, t[fid].handle.file).0
            else Commit(ops, s, t[fid]).0
    case TClunk(fid) =>
      s' == if fid !in t then s
            else if t[fid].handle.FileHandle? then ops.closeFile(s, t[fid].handle.file).0
            else Commit(ops, s, t[fid]).0
    case TRemove(fid) => RemoveStep(ops, s, t, fid, r, s')
    case TSetAttr(fid, attr) =>
      if fid !in t then s' == s && r == Err(Invalid)
      else
        exists now :: SetAttrRun(ops, s, t[fid].path, attr, now).0 == s'
                      && Answer(SetAttrRun(ops, s, t[fid].path, attr, now).1, RSetAttr) == r
    case TMkdir(_, _, _, _) => Effected(ops, s, EffectOf(t, req), r, s')
    case TLink(_, _, _) => Effected(ops, s, EffectOf(t, req), r, s')
    case TRenameAt(_, _, _, _) => Effected(ops, s, EffectOf(t, req), r, s')
    case TSymlink(_, _, _, _) => Effected(ops, s, EffectOf(t, req), r, s')
    case TUnlinkAt(dirfid, name, flags) =>
      Removed(ops, s, UnlinkTarget(ops, s, t, dirfid, name, flags), RUnlinkAt, r, s')
    case _ => s' == s
  }

  /** What opening an existing path does. */
  function Opened<S>(ops: Fs<S>, s: S, path: Text, flags: u32): (S, Result<Handle>) {
    ops.openFile(s, path, OpenFlagsOf(flags), 0x1B6)
  }

  function Answer(outcome: Result<()>, ok: Response): Result<Response> {
    match outcome case Ok(_) => Ok(ok) case Err(e) => Err(e)
  }

  predicate Sendable(data: Result<seq<Byte>>) {
    data.Ok? && |data.value| < 0x1_0000_0000_0000_0000
  }

  /** The first `|qids|` names may be walked, and walking them one by one gives these qids. */
  ghost predicate ResolvesTo<S>(ops: Fs<S>, s: S, base: Text, names: seq<Text>, qids: seq<Qid>) {
    && |qids| <= |names|
    && forall j :: 0 <= j < |qids| ==>
      WalkName(names[j]) && QidFor(ops, s, WalkAll(base, names[..j + 1])) == Ok(qids[j])
  }

  /** `path` is where the first `|qids|` names lead, and they resolve. */
  ghost predicate Resolved<S>(ops: Fs<S>, s: S, base: Text, names: seq<Text>, qids: seq<Qid>, path: Text) {
    ResolvesTo(ops, s, base, names, qids) && path == WalkAll(base, names[..|qids|])
  }

  lemma ResolvedNothing<S>(ops: Fs<S>, s: S, base: Text, names: seq<Text>)
    ensures Resolved(ops, s, base, names, [], base)
  {
    assert names[..0] == [];
  }

  lemma ResolvesOneMore<S>(ops: Fs<S>, s: S, base: Text, names: seq<Text>, qids: seq<Qid>, qid: Qid)
    requires ResolvesTo(ops, s, base, names, qids) && |qids| < |names| && WalkName(names[|qids|])
    requires QidFor(ops, s, WalkAll(base, names[..|qids| + 1])) == Ok(qid)
    ensures ResolvesTo(ops, s, base, names, qids + [qid])
  {
    var more := qids + [qid];
    forall j | 0 <= j < |more| ensures WalkName(names[j])
    && QidFor(ops, s, WalkAll(base, names[..j + 1])) == Ok(more[j]) {
      if j < |qids| { assert more[j] == qids[j]; }
    }
  }

  lemma ResolvedStep<S>(ops: Fs<S>, s: S, base: Text, names: seq<Text>, qids: seq<Qid>, path: Text)
    requires Resolved(ops, s, base, names, qids, path) && |qids| < |names| && WalkName(names[|qids|])
    ensures var next := WalkJoin(path, names[|qids|]);
            && next == WalkAll(base, names[..|qids| + 1])
            && (QidFor(ops, s, next).Ok? ==> Resolved(ops, s, base, names, qids + [QidFor(ops, s, next).value], next))
  {
    WalkOneMore(base, names, |qids|);
    var next := WalkJoin(path, names[|qids|]);
    if QidFor(ops, s, next).Ok? { ResolvesOneMore(ops, s, base, names, qids, QidFor(ops, s, next).value); }
  }

  lemma WalkOneMore(base: Text, names: seq<Text>, i: nat)
    requires i < |names|
    ensures WalkAll(base, names[..i + 1]) == WalkJoin(WalkAll(base, names[..i]), names[i])
  {
    assert names[..i + 1][..i] == names[..i];
  }

  /** A walk succeeds when the fids allow it and its first name, if any, resolves; it stops
      before the first name that does not, and fails for a name no walk may contain. */
  ghost predicate Walked<S>(ops: Fs<S>, s: S, t: Table, fid: u32, newfid: u32, names: seq<Text>, r: Result<Response>) {
    && (r.Ok? ==> MayBind(t, fid, newfid) && r.value.RWalk? && ResolvesTo(ops, s, t[fid].path, names, r.value.qids)
                  && (|r.value.qids| < |names| ==>
                        WalkName(names[|r.value.qids|])
                        && QidFor(ops, s, WalkAll(t[fid].path, names[..|r.value.qids| + 1])).Err?))
    && (r.Err? && MayBind(t, fid, newfid) ==>
          names != [] && (QidFor(ops, s,
              WalkAll(t[fid].path, names[..1])).Err? || exists j :: 0 <= j < |names| && !WalkName(names[j])))
  }

  /** A directory as the server examines it, entry by entry. */
  function Entries<S>(ops: Fs<S>, s: S, path: Text): Result<seq<Result<Dirent>>> {
    var entries :- ops.readDir(s, path);
    Ok(DirentsOf(ops, s, path, entries))
  }

  /** The page that a cursor and a size ask for. */
  function PageData<S>(ops: Fs<S>, s: S, path: Text, offset: nat, count: nat): Result<seq<Byte>> {
    var rs :- Entries(ops, s, path);
    PackFrom(rs, 0, offset, count, [])
  }

  ghost predicate PageReply(data: Result<seq<Byte>>, r: Result<Response>) {
    match data case Ok(bytes) => r == Ok(RReaddir(bytes)) case Err(e) => r == Err(e)
  }

  /** A file that was opened is examined for its qid. */
  function OpenedQid<S>(ops: Fs<S>, result: (S, Result<Handle>), path: Text): Result<Qid> {
    if result.1.Err? then Err(result.1.error) else QidFor(ops, result.0, path)
  }

  function ReadAnswer<S>(ops: Fs<S>, s: S, st: FidState, offset: u64, count: u32): Result<Response> {
    match st.handle
    case FileHandle(file) =>
      (match ops.readAt(s, file, offset, count).1
       case Ok(bytes) => Ok(RRead(if |bytes| > count then bytes[..count] else bytes))
       case Err(e) => Err(e))
    case XattrRead(data) => Ok(RRead(Slice(data, offset, count)))
    case XattrWrite(_) => Err(PermissionDenied)
    case NoHandle => Err(Invalid)
  }

  function WriteAnswer<S>(ops: Fs<S>, s: S, st: FidState, offset: u64, data: seq<Byte>): Result<Response> {
    match st.handle
    case FileHandle(file) =>
      (match ops.writeAt(s, file, offset, data).1 case Ok(n) => Ok(RWrite(n)) case Err(e) => Err(e))
    case XattrWrite(write) =>
      if |data| < 0x1_0000_0000 && offset + |data| <= write.expectedSize then Ok(RWrite(|data|)) else Err(Invalid)
    case XattrRead(_) => Err(PermissionDenied)
    case NoHandle => Err(Invalid)
  }

  /** A file that cannot be synced counts as synced; a pending attribute value is committed. */
  function FsyncAnswer<S>(ops: Fs<S>, s: S, st: FidState): Result<Response> {
    match st.handle
    case FileHandle(file) =>
      var synced := ops.syncFile(s, file).1;
      if synced == Err(NotSupported) then Ok(RFsync) else Answer(synced, RFsync)
    case XattrWrite(_) => Answer(Commit(ops, s, st).1, RFsync)
    case _ => Ok(RFsync)
  }

  /** What the answer is, for the requests whose answer `FsStep` leaves open. */
  ghost predicate ReplyStep<S>(ops: Fs<S>, s: S, t: Table, req: Request, r: Result<Response>, u: Table) {
    match req
    case TVersion(size, version) => r == Ok(RVersion(Min(size, DEFAULT_MSIZE),
        if VERSION_9P2000 <= version then VERSION_L else VERSION_UNKNOWN))
    case TAttach(_, _, _, _, _) =>
      r == (match QidFor(ops, s, ROOT) case Ok(qid) => Ok(RAttach(qid)) case Err(e) => Err(e))
    case TXattrWalk(fid, newfid, name) =>
      && (r.Ok? <==> MayBind(t, fid, newfid) && Sendable(XattrData(ops, s, t[fid].path, name)))
      && (r.Err? ==> r.error == if MayBind(t, fid, newfid) && XattrData(ops, s, t[fid].path, name).Err?
                                then XattrData(ops, s, t[fid].path, name).error else Invalid)
      && (r.Ok? ==> newfid in u && u[newfid].handle == XattrRead(XattrData(ops, s, t[fid].path, name).value))
    case TXattrCreate(fid, name, _, _) => r == if fid in t && name != [] then Ok(RXattrCreate) else Err(Invalid)
    case TRead(fid, offset, count) => r == if fid !in t then Err(Invalid) else ReadAnswer(ops, s, t[fid], offset, count)
    case TWrite(fid, offset, data) =>
      r == if fid !in t then Err(Invalid) else WriteAnswer(ops, s, t[fid], offset, data)
    case TClunk(fid) =>
      && (fid !in t ==> r == Err(Invalid))
      && (fid in t && !t[fid].handle.FileHandle? ==> r == Answer(Commit(ops, s, t[fid]).1, RClunk))
      && (fid in t && t[fid].handle.FileHandle? ==> r == Answer(ops.closeFile(s, t[fid].handle.file).1, RClunk))
      && (r.Ok? ==> r.value.RClunk?)
    case TReadlink(fid) =>
      r == if fid !in t then Err(Invalid)
           else if ops.readlink(s, t[fid].path).Ok? then Ok(RReadlink(ops.readlink(s, t[fid].path).value))
           else Err(ops.readlink(s, t[fid].path).error)
    case TLopen(fid, flags) =>
      if fid !in t then r == Err(Invalid)
      else
        var result := Opened(ops, s, t[fid].path, flags);
        && r == (match OpenedQid(ops, result, t[fid].path) case Ok(qid) => Ok(RLopen(qid, 0)) case Err(e) => Err(e))
        && (r.Ok? ==> fid in u && u[fid].handle == FileHandle(result.1.value))
    case TLcreate(fid, name, flags, mode, _) =>
      if fid !in t || !ValidPart(name) then r == Err(Invalid)
      else
        var path := JoinPath(t[fid].path, name);
        var result := ops.openFile(s, path, WithCreate(flags), mode % 512);
        && r == (match OpenedQid(ops, result, path) case Ok(qid) => Ok(RLcreate(qid, 0)) case Err(e) => Err(e))
        && (r.Ok? ==> fid in u && u[fid].handle == FileHandle(result.1.value))
    case TFsync(fid) => r == if fid !in t then Err(Invalid) else FsyncAnswer(ops, s, t[fid])
    case TFlush(_) => r == Ok(RFlush)
    case TWalk(fid, newfid, names) => Walked(ops, s, t, fid, newfid, names, r)
    case TGetAttr(fid, mask) =>
      r == if fid !in t then Err(Invalid) else GetAttrReply(ops, s, t[fid], mask)
    case TReaddir(fid, offset, count) =>
      if fid in t then PageReply(PageData(ops, s, t[fid].path, offset, count), r) else r == Err(Invalid)
    case _ => true
  }

  // ----- attributes and listings -----

  /** `request_mask & ATTR_BASIC`: bits 0 to 7, 9 and 10. */
  function BasicMask(mask: u64): u64 {
    mask % 256 + (if (mask / 512) % 2 == 1 then 512 else 0) + (if (mask / 1024) % 2 == 1 then 1024 else 0)
  }

  function LinkCount<S>(ops: Fs<S>, s: S, path: Text, meta: Meta): u64 {
    if !meta.mode.kind.Directory? then 1
    else match ops.readDir(s, path)
      case Ok(entries) => (2 + |entries|) % 0x1_0000_0000_0000_0000
      case Err(_) => 2
  }

  function AttrFor<S>(ops: Fs<S>, s: S, path: Text, meta: Meta, mask: u64): Attr {
    Attr(BasicMask(mask), QidOfMeta(ops, path, meta), UnixMode(meta.mode), meta.uid, meta.gid,
         LinkCount(ops, s, path, meta), 0, meta.size, 65536, (meta.size + 65535) / 65536,
         meta.seconds, meta.nanoseconds, meta.seconds, meta.nanoseconds, meta.seconds, meta.nanoseconds, 0, 0, 0, 0)
  }

  /** What Tgetattr looks at: the open file, the path, or the pending attribute value. */
  function MetaOf<S>(ops: Fs<S>, s: S, st: FidState): Result<Meta> {
    match st.handle
    case FileHandle(file) => ops.fileStat(s, file)
    case NoHandle => ops.lstat(s, st.path)
    case XattrRead(data) => Ok(Meta(Mode(Regular, 0x124), |data| % 0x1_0000_0000_0000_0000, 0, 0, 0, 0))
    case XattrWrite(write) => Ok(Meta(Mode(Regular, 0x80), write.expectedSize % 0x1_0000_0000_0000_0000, 0, 0, 0, 0))
  }

  function GetAttrReply<S>(ops: Fs<S>, s: S, st: FidState, mask: u64): Result<Response> {
    var meta :- MetaOf(ops, s, st);
    Ok(RGetAttr(AttrFor(ops, s, st.path, meta, mask)))
  }

  function ChangeIf<S>(ops: Fs<S>, s: S, wanted: bool, c: Change): (S, Result<()>) {
    if wanted then ops.change(s, c) else (s, Ok(()))
  }

  /** Tsetattr applies size, mode, owner and time in this order and stops at the first failure. */
  function SetAttrRun<S>(ops: Fs<S>, s: S, path: Text, a: SetAttr, now: (u64, u64)): (S, Result<()>) {
    var sized := ChangeIf(ops, s, Bit(a.valid, 8), Truncate(path, a.size));
    if sized.1.Err? then sized
    else
      var moded := ChangeIf(ops, sized.0, Bit(a.valid, 1), Chmod(path, a.mode % 512));
      if moded.1.Err? then moded
      else
        var owned := OwnRun(ops, moded.0, path, a);
        if owned.1.Err? then owned
        else ChangeIf(ops, owned.0, Bit(a.valid, 32),
                      if Bit(a.valid, 256) then Chtimes(path, a.mtimeSeconds, a.mtimeNanoseconds % 0x1_0000_0000)
                      else Chtimes(path, now.0, now.1))
  }

  function OwnRun<S>(ops: Fs<S>, s: S, path: Text, a: SetAttr): (S, Result<()>) {
    if !Bit(a.valid, 2) && !Bit(a.valid, 4) then (s, Ok(()))
    else match ops.lstat(s, path)
      case Err(e) => (s, Err(e))
      case Ok(meta) => ops.change(s,
          Chown(path, if Bit(a.valid, 2) then a.uid else meta.uid, if Bit(a.valid, 4) then a.gid else meta.gid))
  }

  function DirentAt<S>(ops: Fs<S>, s: S, path: Text, entries: seq<DirEntry>, i: nat): Result<Dirent>
    requires i < |entries|
  {
    var qid :- QidFor(ops, s, JoinPath(path, entries[i].name));
    if |entries[i].name| >= 0x1_0000 then Err(Invalid)
    else Ok(Dirent(qid, (i + 1) % 0x1_0000_0000_0000_0000, DirentType(entries[i].kind), entries[i].name))
  }

  lemma DirentHas<S>(ops: Fs<S>, s: S, path: Text, entries: seq<DirEntry>, i: nat, d: Dirent)
    requires i < |entries| < 0x1_0000_0000_0000_0000 && DirentAt(ops, s, path, entries, i) == Ok(d)
    ensures d.offset == i + 1 && d.name == entries[i].name && FitsStr(d.name)
  {
  }

  /** Every entry of the listing, each with what examining it gives. */
  function DirentsOf<S>(ops: Fs<S>, s: S, path: Text, entries: seq<DirEntry>): (rs: seq<Result<Dirent>>)
    ensures |rs| == |entries|
  {
    seq(|entries|, i requires 0 <= i < |entries| => DirentAt(ops, s, path, entries, i))
  }

  /** A request served: its effect on the table, on the backing, and its answer. */
  ghost predicate Served<S>(ops: Fs<S>, s: S, t: Table, req: Request, r: Result<Response>, s': S, u: Table) {
    && TableStep(t, req, r, u) && FsStep(ops, s, t, req, r, s') && ReplyStep(ops, s, t, req, r, u)
    && (r.Ok? ==> ResponseType(r.value) == RequestType(req) + 1)
  }

  // What each family of requests has to show to be served.

  lemma EffectServed<S>(ops: Fs<S>, s: S, t: Table, req: Request, r: Result<Response>, s': S)
    requires AsksOneChange(req) && Effected(ops, s, EffectOf(t, req), r, s')
    ensures Served(ops, s, t, req, r, s', t)
  {
    EffectAnswerFits(ops, s, t, req, r, s');
    EffectIsStep(ops, s, t, req, r, s');
    EffectKeepsTable(t, req, r);
    EffectHasNoReply(ops, s, t, req, r);
  }

  /** The response type that answers a request for this change. */
  function AnswerType(c: Change): nat {
    match c
    case MakeDir(_, _) => 73
    case SymlinkPath(_, _) => 17
    case LinkPath(_, _) => 71
    case RenamePath(_, _) => 75
    case RemovePath(_) => 123
    case _ => 27
  }

  lemma RequestAsksFor(t: Table, req: Request)
    requires AsksOneChange(req) && EffectOf(t, req).Some?
    ensures AnswerType(EffectOf(t, req).value) == RequestType(req) + 1
  {
  }

  lemma ReplyHasType<S>(ops: Fs<S>, s: S, c: Change)
    ensures EffectReply(ops, s, c).Ok? ==> ResponseType(EffectReply(ops, s, c).value) == AnswerType(c)
  {
  }

  lemma EffectAnswerFits<S>(ops: Fs<S>, s: S, t: Table, req: Request, r: Result<Response>, s': S)
    requires AsksOneChange(req) && Effected(ops, s, EffectOf(t, req), r, s')
    ensures r.Ok? ==> ResponseType(r.value) == RequestType(req) + 1
  {
    var effect := EffectOf(t, req);
    if effect.Some? {
      RequestAsksFor(t, req);
      ReplyHasType(ops, s', effect.value);
    }
  }

  lemma EffectIsStep<S>(ops: Fs<S>, s: S, t: Table, req: Request, r: Result<Response>, s': S)
    requires AsksOneChange(req) && Effected(ops, s, EffectOf(t, req), r, s')
    ensures FsStep(ops, s, t, req, r, s')
  {
  }

  lemma EffectKeepsTable(t: Table, req: Request, r: Result<Response>)
    requires AsksOneChange(req)
    ensures TableStep(t, req, r, t)
  {
  }

  lemma EffectHasNoReply<S>(ops: Fs<S>, s: S, t: Table, req: Request, r: Result<Response>)
    requires AsksOneChange(req)
    ensures ReplyStep(ops, s, t, req, r, t)
  {
  }

  lemma UnlinkServed<S>(ops: Fs<S>, s: S, t: Table, dirfid: u32, name: Text, flags: u32, r: Result<Response>, s': S)
    requires Removed(ops, s, UnlinkTarget(ops, s, t, dirfid, name, flags), RUnlinkAt, r, s')
    ensures Served(ops, s, t, TUnlinkAt(dirfid, name, flags), r, s', t)
  {
  }

  lemma RemoveServed<S>(ops: Fs<S>, s: S, t: Table, fid: u32, r: Result<Response>, s': S)
    requires RemoveStep(ops, s, t, fid, r, s')
    ensures Served(ops, s, t, TRemove(fid), r, s', t - {fid})
  {
  }

  lemma FsyncServed<S>(ops: Fs<S>, s: S, t: Table, fid: u32, r: Result<Response>, s': S, u: Table)
    requires fid in t && t[fid].handle.XattrWrite? && WriteSound(t[fid].handle)
    requires s' == Commit(ops, s, t[fid]).0 && r == Answer(Commit(ops, s, t[fid]).1, RFsync)
    requires u == if r.Ok? then t[fid := t[fid].(handle := XattrWrite(t[fid].handle.write.(committed := true)))] else t
    ensures Served(ops, s, t, TFsync(fid), r, s', u)
  {
  }

  lemma WalkServed<S>(ops: Fs<S>, s: S, t: Table, fid: u32, newfid: u32, names: seq<Text>, r: Result<Response>,
      u: Table)
    requires MayBind(t, fid, newfid) && Walked(ops, s, t, fid, newfid, names, r)
    requires r.Ok? && names != [] ==> r.value.qids != []
    requires u == if r.Ok? then t[newfid := Unopened(WalkAll(t[fid].path, names[..|r.value.qids|]))] else t
    ensures Served(ops, s, t, TWalk(fid, newfid, names), r, s, u)
  {
  }

  function AsReply(r: Result<Response>): Response {
    match r case Ok(m) => m case Err(e) => Lerror(ErrnoFor(e))
  }

  lemma DataIsBounded(frame: seq<Byte>)
    requires DecodeRequest(frame).Ok?
    ensures var m := DecodeRequest(frame).value.1; m.TWrite? ==> |m.data| < 0x1_0000_0000
  {
    RequestReencodes(frame);
    var m := DecodeRequest(frame).value.1;
    if m.TWrite? { assert Fits(RequestFields(m)[2]); }
  }

  // ----- packing a page -----

  /** Packs entries after the cursor `offset` while they fit into `count` bytes. */
  method PackPage<S>(ops: Fs<S>, s: S, path: Text, entries: seq<DirEntry>, offset: u64, count: u32)
      returns (r: Result<seq<Byte>>)
    ensures r == PackFrom(DirentsOf(ops, s, path, entries), 0, offset, count, [])
  {
    var data: seq<Byte> := [];
    ghost var rs := DirentsOf(ops, s, path, entries);
    for i := 0 to |entries|
      invariant PackFrom(rs, i, offset, count, data) == PackFrom(rs, 0, offset, count, [])
    {
      if i + 1 <= offset {
        continue;
      }
      assert rs[i] == DirentAt(ops, s, path, entries, i);
      var dirent :- DirentAt(ops, s, path, entries, i);
      var encoded := EncodeDirent(dirent);
      if |data| + |encoded| > count {
        return Ok(data);
      }
      data := data + encoded;
    }
    return Ok(data);
  }

  /** The names that resolve, one after the other, from `base`. */
  method Resolve<S>(ops: Fs<S>, s: S, base: Text, names: seq<Text>)
      returns (path: Text, qids: seq<Qid>, failure: Option<ErrorKind>)
    ensures Resolved(ops, s, base, names, qids, path)
    ensures failure.None? && |qids| < |names| ==>
      qids != [] && WalkName(names[|qids|]) && QidFor(ops, s, WalkAll(base, names[..|qids| + 1])).Err?
    ensures failure.Some? ==>
      |qids| < |names|
      && (WalkName(names[|qids|]) ==> qids == [] && QidFor(ops, s, WalkAll(base, names[..1])) == Err(failure.value))
  {
    path, qids := base, [];
    ResolvedNothing(ops, s, base, names);
    while |qids| < |names|
      invariant Resolved(ops, s, base, names, qids, path)
      decreases |names| - |qids|
    {
      var name := names[|qids|];
      if SLASH in name || name == [] {
        return path, qids, Some(Invalid);
      }
      ResolvedStep(ops, s, base, names, qids, path);
      var next := WalkJoin(path, name);
      var qid := QidFor(ops, s, next);
      if qid.Err? {
        return path, qids, if qids == [] then Some(qid.error) else None;
      }
      path, qids := next, qids + [qid.value];
    }
    return path, qids, None;
  }

  // ----- the server -----

  predicate BindsFids(m: Request) {
    m.TAttach? || m.TWalk? || m.TLopen? || m.TLcreate? || m.TXattrWalk? || m.TXattrCreate? || m.TClunk? || m.TRemove?
  }

  predicate MovesData(m: Request) {
    m.TRead? || m.TWrite? || m.TReaddir? || m.TFsync? || m.TReadlink? || m.TGetAttr?
  }

  class NinePServer<S> {
    const ops: Fs<S>
    var fs: S
    var msize: u32
    var fids: Table

    constructor (ops: Fs<S>, fs: S)
      ensures this.ops == ops && this.fs == fs && msize == DEFAULT_MSIZE && fids == map[]
    {
      this.ops, this.fs, msize, fids := ops, fs, DEFAULT_MSIZE, map[];
    }

    /** Walks from `fid`; `newfid` is bound to the part of the path that resolved. */
    method Walk(fid: u32, newfid: u32, names: seq<Text>) returns (r: Result<Response>)
      modifies this`fids
      ensures Served(ops, old(fs), old(fids), TWalk(fid, newfid, names), r, fs, fids)
    {
      if newfid != fid && newfid in fids {
        return Err(Invalid);
      }
      if fid !in fids {
        return Err(Invalid);
      }
      r := WalkTo(fid, newfid, names);
      WalkServed(ops, fs, old(fids), fid, newfid, names, r, fids);
    }

    method WalkTo(fid: u32, newfid: u32, names: seq<Text>) returns (r: Result<Response>)
      requires MayBind(fids, fid, newfid)
      modifies this`fids
      ensures Walked(ops, fs, old(fids), fid, newfid, names, r)
      ensures r.Ok? && names != [] ==> r.value.qids != []
      ensures fids == if r.Ok? then old(fids)[newfid := Unopened(WalkAll(old(fids)[fid].path,
                                    names[..|r.value.qids|]))] else old(fids)
    {
      var path, qids, failure := Resolve(ops, fs, fids[fid].path, names);
      if failure.Some? {
        return Err(failure.value);
      }
      fids := fids[newfid := Unopened(path)];
      return Ok(RWalk(qids));
    }

    method Attach(fid: u32, req: Request) returns (r: Result<Response>)
      requires req.TAttach? && req.fid == fid
      modifies this`fids
      ensures r.Ok? <==> QidFor(ops, fs, ROOT).Ok?
      ensures Served(ops, old(fs), old(fids), req, r, fs, fids)
    {
      var qid :- QidFor(ops, fs, ROOT);
      fids := fids[fid := Unopened(ROOT)];
      return Ok(RAttach(qid));
    }

    method Lopen(fid: u32, flags: u32) returns (r: Result<Response>)
      modifies this`fids, this`fs
      ensures r.Ok? ==> r.value.RLopen? && fid in old(fids) && QidFor(ops, fs, old(fids)[fid].path) == Ok(r.value.qid)
      ensures Served(ops, old(fs), old(fids), TLopen(fid, flags), r, fs, fids)
    {
      if fid !in fids {
        return Err(Invalid);
      }
      var path := fids[fid].path;
      var (after, file) := ops.openFile(fs, path, OpenFlagsOf(flags), 0x1B6);
      fs := after;
      if file.Err? {
        return Err(file.error);
      }
      var qid :- QidFor(ops, fs, path);
      fids := fids[fid := fids[fid].(handle := FileHandle(file.value), flags := flags)];
      return Ok(RLopen(qid, 0));
    }

    method Lcreate(fid: u32, name: Text, flags: u32, mode: u32, gid: u32) returns (r: Result<Response>)
      modifies this`fids, this`fs
      ensures Served(ops, old(fs), old(fids), TLcreate(fid, name, flags, mode, gid), r, fs, fids)
    {
      if fid !in fids {
        return Err(Invalid);
      }
      var path :- CheckedJoin(fids[fid].path, name);
      var (after, file) := ops.openFile(fs, path, WithCreate(flags), mode % 512);
      fs := after;
      if file.Err? {
        return Err(file.error);
      }
      var qid :- QidFor(ops, fs, path);
      fids := fids[fid := fids[fid].(path := path, handle := FileHandle(file.value), flags := flags)];
      return Ok(RLcreate(qid, 0));
    }

    method XattrWalk(fid: u32, newfid: u32, name: Text) returns (r: Result<Response>)
      modifies this`fids
      ensures Served(ops, old(fs), old(fids), TXattrWalk(fid, newfid, name), r, fs, fids)
    {
      if newfid != fid && newfid in fids {
        return Err(Invalid);
      }
      if fid !in fids {
        return Err(Invalid);
      }
      var path := fids[fid].path;
      var data :- XattrData(ops, fs, path, name);
      if |data| >= 0x1_0000_0000_0000_0000 {
        return Err(Invalid);
      }
      fids := fids[newfid := FidState(path, XattrRead(data), RDONLY)];
      return Ok(RXattrWalk(|data|));
    }

    method XattrCreate(fid: u32, name: Text, size: u64, flags: u32) returns (r: Result<Response>)
      modifies this`fids
      ensures Served(ops, old(fs), old(fids), TXattrCreate(fid, name, size, flags), r, fs, fids)
    {
      if name == [] || fid !in fids {
        return Err(Invalid);
      }
      fids := fids[fid := fids[fid].(handle := XattrWrite(NewState(name, flags, size)), flags := WRONLY)];
      return Ok(RXattrCreate);
    }

    method Read(fid: u32, offset: u64, count: u32) returns (r: Result<Response>)
      modifies this`fs
      ensures r.Ok? ==> r.value.RRead? && |r.value.data| <= count
      ensures Served(ops, old(fs), old(fids), TRead(fid, offset, count), r, fs, fids)
    {
      if fid !in fids {
        return Err(Invalid);
      }
      match fids[fid].handle
      case FileHandle(file) =>
        var (after, data) := ops.readAt(fs, file, offset, count);
        fs := after;
        return match data
          case Ok(bytes) => Ok(RRead(if |bytes| > count then bytes[..count] else bytes))
          case Err(e) => Err(e);
      case XattrRead(data) =>
        if offset >= |data| {
          return Ok(RRead([]));
        }
        return Ok(RRead(data[offset..Min(offset + count, |data|)]));
      case XattrWrite(_) => return Err(PermissionDenied);
      case NoHandle => return Err(Invalid);
    }

    method Write(fid: u32, offset: u64, data: seq<Byte>) returns (r: Result<Response>)
      requires |data| < 0x1_0000_0000 && (fid in fids ==> WriteSound(fids[fid].handle))
      modifies this`fids, this`fs
      ensures Served(ops, old(fs), old(fids), TWrite(fid, offset, data), r, fs, fids)
    {
      if fid !in fids {
        return Err(Invalid);
      }
      match fids[fid].handle
      case FileHandle(file) =>
        var (after, count) := ops.writeAt(fs, file, offset, data);
        fs := after;
        return match count case Ok(n) => Ok(RWrite(n)) case Err(e) => Err(e);
      case XattrWrite(write) => r := WriteXattr(fid, write, offset, data);
      case XattrRead(_) => return Err(PermissionDenied);
      case NoHandle => return Err(Invalid);
    }

    method WriteXattr(fid: u32, write: XattrWriteState, offset: u64, data: seq<Byte>) returns (r: Result<Response>)
      requires |data| < 0x1_0000_0000 && fid in fids && fids[fid].handle == XattrWrite(write)
      requires WriteSound(fids[fid].handle)
      modifies this`fids
      ensures Served(ops, fs, old(fids), TWrite(fid, offset, data), r, fs, fids)
    {
      var now, count := WriteAt(write, offset, data);
      if count.Err? {
        return Err(count.error);
      }
      fids := fids[fid := fids[fid].(handle := XattrWrite(now))];
      return Ok(RWrite(count.value));
    }

    method CommitXattr(st: FidState) returns (r: Result<()>)
      modifies this`fs
      ensures (fs, r) == Commit(ops, old(fs), st)
    {
      if st.handle.XattrWrite? {
        var write := st.handle.write;
        if write.committed {
          return Ok(());
        }
        if !IsComplete(write) {
          return Err(Invalid);
        }
        var (after, outcome) := ops.setXattr(fs, st.path, write.name, write.data);
        fs := after;
        return outcome;
      }
      return Ok(());
    }

    /** Releases the fid first; what can fail comes after. */
    method Clunk(fid: u32) returns (r: Result<Response>)
      modifies this`fids, this`fs
      ensures Served(ops, old(fs), old(fids), TClunk(fid), r, fs, fids)
    {
      if fid !in fids {
        return Err(Invalid);
      }
      var st := fids[fid];
      fids := fids - {fid};
      var committed := CommitXattr(st);
      if committed.Err? {
        return Err(committed.error);
      }
      if st.handle.FileHandle? {
        var (after, closed) := ops.closeFile(fs, st.handle.file);
        fs := after;
        return Answer(closed, RClunk);
      }
      return Ok(RClunk);
    }

    /** Releases the fid first, like Clunk. */
    method Remove(fid: u32) returns (r: Result<Response>)
      modifies this`fids, this`fs
      ensures RemoveStep(ops, old(fs), old(fids), fid, r, fs) && fids == old(fids) - {fid}
    {
      if fid !in fids {
        return Err(Invalid);
      }
      var st := fids[fid];
      fids := fids - {fid};
      if st.path == ROOT {
        return Err(Invalid);
      }
      if st.handle.FileHandle? {
        fs := ops.closeFile(fs, st.handle.file).0;
      }
      var (after, removed) := ops.change(fs, RemovePath(st.path));
      fs := after;
      return Answer(removed, RRemove);
    }

    method Fsync(fid: u32) returns (r: Result<Response>)
      requires fid in fids ==> WriteSound(fids[fid].handle)
      modifies this`fids, this`fs
      ensures Served(ops, old(fs), old(fids), TFsync(fid), r, fs, fids)
    {
      if fid !in fids {
        return Err(Invalid);
      }
      match fids[fid].handle
      case FileHandle(file) =>
        var synced := SyncFile(file);
        return Answer(synced, RFsync);
      case XattrWrite(write) =>
        r := FsyncXattr(fid, write);
        FsyncServed(ops, old(fs), old(fids), fid, r, fs, fids);
      case _ => return Ok(RFsync);
    }

    /** A file that cannot be synced counts as synced. */
    method SyncFile(file: Handle) returns (r: Result<()>)
      modifies this`fs
      ensures fs == ops.syncFile(old(fs), file).0
      ensures r == if ops.syncFile(old(fs), file).1 == Err(NotSupported) then Ok(()) else ops.syncFile(old(fs), file).1
    {
      var (after, synced) := ops.syncFile(fs, file);
      fs := after;
      return if synced == Err(NotSupported) then Ok(()) else synced;
    }

    method FsyncXattr(fid: u32, write: XattrWriteState) returns (r: Result<Response>)
      requires fid in fids && fids[fid].handle == XattrWrite(write)
      modifies this`fids, this`fs
      ensures fs == Commit(ops, old(fs), old(fids)[fid]).0
      ensures r == Answer(Commit(ops, old(fs), old(fids)[fid]).1, RFsync)
      ensures fids == if r.Ok?
                      then old(fids)[fid := old(fids)[fid].(handle := XattrWrite(write.(committed := true)))]
                      else old(fids)
    {
      var committed := CommitXattr(fids[fid]);
      if committed.Err? {
        return Err(committed.error);
      }
      fids := fids[fid := fids[fid].(handle := XattrWrite(write.(committed := true)))];
      return Ok(RFsync);
    }

    method GetAttr(fid: u32, mask: u64) returns (r: Result<Response>)
      ensures r == if fid !in fids then Err(Invalid) else GetAttrReply(ops, fs, fids[fid], mask)
      ensures Served(ops, old(fs), old(fids), TGetAttr(fid, mask), r, fs, fids)
    {
      if fid !in fids {
        return Err(Invalid);
      }
      var meta :- MetaOf(ops, fs, fids[fid]);
      return Ok(RGetAttr(AttrFor(ops, fs, fids[fid].path, meta, mask)));
    }

    method Change(c: Change) returns (r: Result<()>)
      modifies this`fs
      ensures (fs, r) == ops.change(old(fs), c)
    {
      var (after, outcome) := ops.change(fs, c);
      fs := after;
      return outcome;
    }

    method ApplySetAttr(fid: u32, a: SetAttr, now: (u64, u64)) returns (r: Result<Response>)
      modifies this`fs
      ensures Served(ops, old(fs), old(fids), TSetAttr(fid, a), r, fs, fids)
    {
      if fid !in fids {
        return Err(Invalid);
      }
      var outcome := RunSetAttr(fids[fid].path, a, now);
      return Answer(outcome, RSetAttr);
    }

    method RunSetAttr(path: Text, a: SetAttr, now: (u64, u64)) returns (r: Result<()>)
      modifies this`fs
      ensures (fs, r) == SetAttrRun(ops, old(fs), path, a, now)
    {
      if Bit(a.valid, 8) {
        r := Change(Truncate(path, a.size));
        if r.Err? { return r; }
      }
      if Bit(a.valid, 1) {
        r := Change(Chmod(path, a.mode % 512));
        if r.Err? { return r; }
      }
      if Bit(a.valid, 2) || Bit(a.valid, 4) {
        var meta :- ops.lstat(fs, path);
        r := Change(Chown(path, if Bit(a.valid, 2) then a.uid else meta.uid,
            if Bit(a.valid, 4) then a.gid else meta.gid));
        if r.Err? { return r; }
      }
      if Bit(a.valid, 32) {
        var (seconds, nanoseconds) := if Bit(a.valid, 256) then (a.mtimeSeconds, a.mtimeNanoseconds % 0x1_0000_0000)
          else now;
        r := Change(Chtimes(path, seconds, nanoseconds));
        return r;
      }
      return Ok(());
    }

    method Mkdir(fid: u32, name: Text, mode: u32, gid: u32) returns (r: Result<Response>)
      modifies this`fs
      ensures Effected(ops, old(fs), EffectOf(fids, TMkdir(fid, name, mode, gid)), r, fs)
    {
      if fid !in fids {
        return Err(Invalid);
      }
      var path :- CheckedJoin(fids[fid].path, name);
      var made := Change(MakeDir(path, mode % 512));
      if made.Err? { return Err(made.error); }
      var qid :- QidFor(ops, fs, path);
      return Ok(RMkdir(qid));
    }

    method Link(fid: u32, newdirfid: u32, name: Text) returns (r: Result<Response>)
      modifies this`fs
      ensures Effected(ops, old(fs), EffectOf(fids, TLink(fid, newdirfid, name)), r, fs)
    {
      if fid !in fids || newdirfid !in fids {
        return Err(Invalid);
      }
      var path :- CheckedJoin(fids[newdirfid].path, name);
      var linked := Change(LinkPath(fids[fid].path, path));
      return Answer(linked, RLink);
    }

    method Readdir(fid: u32, offset: u64, count: u32) returns (r: Result<Response>)
      ensures Served(ops, old(fs), old(fids), TReaddir(fid, offset, count), r, fs, fids)
    {
      if fid !in fids {
        return Err(Invalid);
      }
      r := ReaddirAt(fids[fid].path, offset, count);
    }

    method ReaddirAt(path: Text, offset: u64, count: u32) returns (r: Result<Response>)
      ensures PageReply(PageData(ops, fs, path, offset, count), r)
    {
      var entries :- ops.readDir(fs, path);
      var data := PackPage(ops, fs, path, entries, offset, count);
      return match data case Ok(bytes) => Ok(RReaddir(bytes)) case Err(e) => Err(e);
    }

    method RenameAt(olddirfid: u32, oldname: Text, newdirfid: u32, newname: Text) returns (r: Result<Response>)
      modifies this`fs
      ensures Effected(ops, old(fs), EffectOf(fids, TRenameAt(olddirfid, oldname, newdirfid, newname)), r, fs)
    {
      if olddirfid !in fids {
        return Err(Invalid);
      }
      var from :- CheckedJoin(fids[olddirfid].path, oldname);
      if newdirfid !in fids {
        return Err(Invalid);
      }
      var to :- CheckedJoin(fids[newdirfid].path, newname);
      var renamed := Change(RenamePath(from, to));
      return Answer(renamed, RRenameAt);
    }

    /** Removes an entry; the flag must say whether it is a directory, and a directory must be
        empty. */
    method UnlinkAt(dirfid: u32, name: Text, flags: u32) returns (r: Result<Response>)
      modifies this`fs
      ensures Removed(ops, old(fs), UnlinkTarget(ops, old(fs), fids, dirfid, name, flags), RUnlinkAt, r, fs)
    {
      if dirfid !in fids {
        return Err(Invalid);
      }
      var path :- CheckedJoin(fids[dirfid].path, name);
      var meta :- ops.lstat(fs, path);
      if meta.mode.kind.Directory? && !Bit(flags, 512) {
        return Err(ErrorKind.IsDir);
      }
      if !meta.mode.kind.Directory? && Bit(flags, 512) {
        return Err(NotDir);
      }
      if meta.mode.kind.Directory? {
        var entries :- ops.readDir(fs, path);
        if entries != [] {
          return Err(NotEmpty);
        }
      }
      var removed := Change(RemovePath(path));
      return Answer(removed, RUnlinkAt);
    }

    method Symlink(fid: u32, name: Text, target: Text, gid: u32) returns (r: Result<Response>)
      modifies this`fs
      ensures Effected(ops, old(fs), EffectOf(fids, TSymlink(fid, name, target, gid)), r, fs)
    {
      if fid !in fids {
        return Err(Invalid);
      }
      var path :- CheckedJoin(fids[fid].path, name);
      var linked := Change(SymlinkPath(target, path));
      if linked.Err? { return Err(linked.error); }
      var qid :- QidFor(ops, fs, path);
      return Ok(RSymlink(qid));
    }

    method Readlink(fid: u32) returns (r: Result<Response>)
      ensures r == if fid !in fids then Err(Invalid)
                   else match ops.readlink(fs, fids[fid].path)
                     case Ok(target) => Ok(RReadlink(target))
                     case Err(e) => Err(e)
      ensures Served(ops, old(fs), old(fids), TReadlink(fid), r, fs, fids)
    {
      if fid !in fids {
        return Err(Invalid);
      }
      var target :- ops.readlink(fs, fids[fid].path);
      return Ok(RReadlink(target));
    }

    method Version(size: u32, version: Text) returns (r: Response)
      modifies this`msize
      ensures msize == Min(size, DEFAULT_MSIZE)
      ensures r == RVersion(msize, if VERSION_9P2000 <= version then VERSION_L else VERSION_UNKNOWN)
    {
      msize := Min(size, DEFAULT_MSIZE);
      return RVersion(msize, if VERSION_9P2000 <= version then VERSION_L else VERSION_UNKNOWN);
    }

    /** Serves one decoded request. Whatever the backing does, the table changes only as
        `TableStep` allows. */
    method Handle(req: Request, now: (u64, u64)) returns (r: Result<Response>)
      requires Sound(fids) && (req.TWrite? ==> |req.data| < 0x1_0000_0000)
      modifies this
      ensures Sound(fids) && Served(ops, old(fs), old(fids), req, r, fs, fids)
    {
      if BindsFids(req) {
        r := HandleFids(req);
      } else if MovesData(req) {
        r := HandleData(req);
      } else {
        r := HandleTree(req, now);
      }
      StepKeepsSound(old(fids), req, r, fids);
    }

    /** Requests that bind and release fids. */
    method HandleFids(req: Request) returns (r: Result<Response>)
      requires BindsFids(req)
      modifies this
      ensures Served(ops, old(fs), old(fids), req, r, fs, fids)
    {
      match req
      case TAttach(fid, _, _, _, _) => r := Attach(fid, req);
      case TWalk(fid, newfid, names) => r := Walk(fid, newfid, names);
      case TLopen(fid, flags) => r := Lopen(fid, flags);
      case TLcreate(fid, name, flags, mode, gid) => r := Lcreate(fid, name, flags, mode, gid);
      case TXattrWalk(fid, newfid, name) => r := XattrWalk(fid, newfid, name);
      case TXattrCreate(fid, name, size, flags) => r := XattrCreate(fid, name, size, flags);
      case TClunk(fid) => r := Clunk(fid);
      case TRemove(fid) =>
        r := Remove(fid);
        RemoveServed(ops, old(fs), old(fids), fid, r, fs);
    }

    /** Requests that move data through a fid. */
    method HandleData(req: Request) returns (r: Result<Response>)
      requires MovesData(req) && Sound(fids) && (req.TWrite? ==> |req.data| < 0x1_0000_0000)
      modifies this
      ensures Served(ops, old(fs), old(fids), req, r, fs, fids)
    {
      match req
      case TRead(fid, offset, count) => r := Read(fid, offset, count);
      case TWrite(fid, offset, data) =>
        assert fid in fids ==> EntrySound(fids[fid]);
        r := Write(fid, offset, data);
      case TReaddir(fid, offset, count) => r := Readdir(fid, offset, count);
      case TFsync(fid) =>
        assert fid in fids ==> EntrySound(fids[fid]);
        r := Fsync(fid);
      case TReadlink(fid) => r := Readlink(fid);
      case TGetAttr(fid, mask) => r := GetAttr(fid, mask);
    }

    /** Requests that change the tree, and those that concern no file. */
    method HandleTree(req: Request, now: (u64, u64)) returns (r: Result<Response>)
      requires !BindsFids(req) && !MovesData(req)
      modifies this
      ensures Served(ops, old(fs), old(fids), req, r, fs, fids)
    {
      if AsksOneChange(req) {
        r := HandleEffect(req);
        EffectServed(ops, old(fs), fids, req, r, fs);
        return;
      }
      match req
      case TVersion(size, version) =>
        var answer := Version(size, version);
        r := Ok(answer);
      case TSetAttr(fid, attr) => r := ApplySetAttr(fid, attr, now);
      case TUnlinkAt(dirfid, name, flags) =>
        r := UnlinkAt(dirfid, name, flags);
        UnlinkServed(ops, old(fs), fids, dirfid, name, flags, r, fs);
      case TFlush(_) => r := Ok(RFlush);
    }

    /** Requests for one change that is answered with success or failure. */
    method HandleEffect(req: Request) returns (r: Result<Response>)
      requires AsksOneChange(req)
      modifies this`fs
      ensures Effected(ops, old(fs), EffectOf(fids, req), r, fs)
    {
      match req
      case TMkdir(fid, name, mode, gid) => r := Mkdir(fid, name, mode, gid);
      case TLink(fid, newdirfid, name) => r := Link(fid, newdirfid, name);
      case TRenameAt(olddirfid, oldname, newdirfid, newname) => r := RenameAt(olddirfid, oldname, newdirfid, newname);
      case TSymlink(fid, name, target, gid) => r := Symlink(fid, name, target, gid);
    }

    /** One frame in, one frame out; an error of the request becomes an Rlerror. The ghost
        result tells what was asked and what came of it. The clock may say anything. */
    method HandleFrame(frame: seq<Byte>) returns (reply: Result<seq<Byte>>, ghost done: Option<Exchange>)
      requires Sound(fids)
      modifies this
      ensures Sound(fids)
      ensures DecodeRequest(frame).Err? ==>
        reply.Err? && done.None? && fids == old(fids) && fs == old(fs) && msize == old(msize)
      ensures DecodeRequest(frame).Ok? ==>
        && done.Some? && Served(ops, old(fs), old(fids), DecodeRequest(frame).value.1, done.value.outcome, fs, fids)
        && done.value.request == DecodeRequest(frame).value.1
        && reply == EncodeResponse(DecodeRequest(frame).value.0, AsReply(done.value.outcome))
    {
      var decoded := DecodeRequestFrame(frame);
      if decoded.Err? {
        return Err(decoded.error), None;
      }
      var (tag, request) := decoded.value;
      DataIsBounded(frame);
      var now: (u64, u64) := *;
      var outcome := Handle(request, now);
      reply := EncodeResponseFrame(tag, AsReply(outcome));
      done := Some(Exchange(request, outcome));
    }
  }
}
