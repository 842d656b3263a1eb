/** What the server's requests come to, in terms of what the backing file system is asked. */
module ServerLaws {
  import opened Wrappers
  import opened Bytes
  import opened Codec
  import opened Messages
  import opened Modes
  import opened Paths
  import opened XattrBuffer
  import opened XattrNames
  import opened FidTable
  import opened Readdir
  import opened NineServer

  // ----- setting attributes -----

  /** A request for one attribute is one change. Owner and group are set together, each as it is when
      only the other is asked for; the time is the server's unless one comes with the request. */
  lemma {:induction false} OneAttribute<S>(ops: Fs<S>, s: S, path: Text, a: SetAttr, now: (u64, u64))
    ensures var run, owner := SetAttrRun(ops, s, path, a, now), ops.lstat(s, path);
            && (a.valid == 0 || a.valid == 256 ==> run == (s, Ok(())))
            && (a.valid == 8 ==> run == ops.change(s, Truncate(path, a.size)))
            && (a.valid == 1 ==> run == ops.change(s, Chmod(path, a.mode % 512)))
            && (a.valid == 6 && owner.Ok? ==> run == ops.change(s, Chown(path, a.uid, a.gid)))
            && (a.valid == 2 && owner.Ok? ==> run == ops.change(s, Chown(path, a.uid, owner.value.gid)))
            && (a.valid == 4 && owner.Ok? ==> run == ops.change(s, Chown(path, owner.value.uid, a.gid)))
            && (a.valid in {2, 4, 6} && owner.Err? ==> run == (s, Err(owner.error)))
            && (a.valid == 32 ==> run == ops.change(s, Chtimes(path, now.0, now.1)))
            && (a.valid == 288 ==>
                  run == ops.change(s, Chtimes(path, a.mtimeSeconds, a.mtimeNanoseconds % 0x1_0000_0000)))
  {
    OnlyOneOk(ops.change(s, Truncate(path, a.size)));
    OnlyOneOk(ops.change(s, Chmod(path, a.mode % 512)));
    if ops.lstat(s, path).Ok? {
      var meta := ops.lstat(s, path).value;
      OnlyOneOk(ops.change(s, Chown(path, a.uid, a.gid)));
      OnlyOneOk(ops.change(s, Chown(path, a.uid, meta.gid)));
      OnlyOneOk(ops.change(s, Chown(path, meta.uid, a.gid)));
    }
  }

  lemma OnlyOneOk<S>(done: (S, Result<()>))
    ensures done.1.Ok? ==> done == (done.0, Ok(()))
  {
    match done.1
    case Ok(unit) => assert unit == ();
    case Err(_) =>
  }

  /** The same attributes, and the same bits but for some of them. */
  predicate AlikeBut(a: SetAttr, b: SetAttr, bits: set<nat>) {
    && b == a.(valid := b.valid) && (forall w :: w in bits && w > 0 ==> !Bit(b.valid, w))
    && forall w :: w in {1, 2, 4, 8, 32, 256} - bits ==> (Bit(a.valid, w) <==> Bit(b.valid, w))
  }

  /** Several attributes go one after the other: size, then mode, then owner and group, then time. Each
      change works on what the one before left, and the first that fails ends the request. */
  lemma {:induction false} AttributesInOrder<S>(ops: Fs<S>, s: S, path: Text, a: SetAttr, b: SetAttr, c: SetAttr,
      d: SetAttr, now: (u64, u64))
    requires AlikeBut(a, b, {8}) && AlikeBut(b, c, {1}) && AlikeBut(c, d, {2, 4})
    ensures Bit(a.valid, 8) ==>
      var done := ops.change(s, Truncate(path, a.size));
      SetAttrRun(ops, s, path, a, now) == if done.1.Err? then done else SetAttrRun(ops, done.0, path, b, now)
    ensures Bit(b.valid, 1) ==>
      var done := ops.change(s, Chmod(path, b.mode % 512));
      SetAttrRun(ops, s, path, b, now) == if done.1.Err? then done else SetAttrRun(ops, done.0, path, c, now)
    ensures (Bit(c.valid, 2) || Bit(c.valid, 4)) && ops.lstat(s, path).Ok? ==>
      var meta := ops.lstat(s, path).value;
      var done := ops.change(s, Chown(path, if Bit(c.valid, 2) then c.uid else meta.uid,
          if Bit(c.valid, 4) then c.gid else meta.gid));
      SetAttrRun(ops, s, path, c, now) == if done.1.Err? then done else SetAttrRun(ops, done.0, path, d, now)
    ensures (Bit(c.valid, 2) || Bit(c.valid, 4)) && ops.lstat(s, path).Err? ==>
      SetAttrRun(ops, s, path, c, now) == (s, Err(ops.lstat(s, path).error))
    ensures Bit(d.valid, 32) ==>
      SetAttrRun(ops, s, path, d, now)
      == ops.change(s, if Bit(d.valid, 256) then Chtimes(path, d.mtimeSeconds, d.mtimeNanoseconds % 0x1_0000_0000)
                       else Chtimes(path, now.0, now.1))
    ensures !Bit(d.valid, 32) ==> SetAttrRun(ops, s, path, d, now) == (s, Ok(()))
  {
    assert forall w :: w in {1, 2, 4, 32, 256} ==> w in {1, 2, 4, 8, 32, 256} - {8};
  }
  // ----- the numbers on the wire -----

  /** The flags of an open that reach the backing: the access mode, and the bits for creating, for
      failing if it exists, for truncating and for appending. Lcreate always creates. */
  lemma {:induction false} FlagsPassedOn(flags: u32)
    ensures OpenFlagsOf(flags) == (if flags % 4 == 3 then 0 else flags % 4) + 64 * (flags / 64 % 2)
      + 128 * (flags / 128 % 2) + 512 * (flags / 512 % 2) + 1024 * (flags / 1024 % 2)
    ensures WithCreate(flags) == (if flags % 4 == 3 then 0 else flags % 4) + 64
      + 128 * (flags / 128 % 2) + 512 * (flags / 512 % 2) + 1024 * (flags / 1024 % 2)
  {
  }

  /** The number sent for each kind of error, and what the client takes it for. */
  lemma {:induction false} ErrorNumbers(e: ErrorKind)
    ensures ErrnoFor(NotFound) == 2 && ErrnoFor(UnexpectedEof) == ErrnoFor(Other) == 5 && ErrnoFor(Closed) == 9
    ensures ErrnoFor(PermissionDenied) == 13 && ErrnoFor(AlreadyExists) == 17 && ErrnoFor(NotDir) == 20
    ensures ErrnoFor(ErrorKind.IsDir) == 21 && ErrnoFor(Invalid) == 22 && ErrnoFor(NotSupported) == 38
    ensures ErrnoFor(NotEmpty) == 39 && ErrorOfErrno(1) == PermissionDenied
    ensures ErrorOfErrno(ErrnoFor(e)) == if e.Closed? then Invalid else if e.UnexpectedEof? then Other else e
  {
  }

  /** An error number that the client does not know is some other error. */
  lemma {:induction false} UnknownNumbers(n: u32)
    requires n !in {1, 2, 9, 13, 17, 20, 21, 22, 38, 39}
    ensures ErrorOfErrno(n) == Other
  {
  }

  /** Type bits of qids, type codes of directory entries, and the qid's other parts. */
  lemma {:induction false} EntryCodes<S>(ops: Fs<S>, path: Text, meta: Meta)
    ensures QidOfMeta(ops, path, meta)
         == Qid(if meta.mode.kind.Directory? then 0x80 else if meta.mode.kind.Symlink? then 0x02 else 0,
                0, ops.qidPath(path))
    ensures DirentType(Directory) == 4 && DirentType(Symlink) == 10
    ensures DirentType(Regular) == DirentType(Pipe) == DirentType(Socket) == 8
  {
  }

  /** An entry of a listing: examined under its directory, numbered from one. */
  lemma {:induction false} ListedEntry<S>(ops: Fs<S>, s: S, path: Text, entries: seq<DirEntry>, i: nat)
    requires i < |entries| < 0x1_0000_0000_0000_0000 && |entries[i].name| < 0x1_0000
    ensures var child := JoinPath(path, entries[i].name);
            DirentAt(ops, s, path, entries, i)
            == match ops.lstat(s, child)
               case Ok(meta) =>
                 Ok(Dirent(QidOfMeta(ops, child, meta), i + 1, DirentType(entries[i].kind), entries[i].name))
               case Err(e) => Err(e)
  {
  }

  // ----- what each request comes to -----

  /** Opening, reading, writing and syncing. */
  lemma {:induction false} FileRequests<S>(ops: Fs<S>, s: S, t: Table, req: Request, r: Result<Response>, s': S,
      u: Table)
    requires Served(ops, s, t, req, r, s', u)
    ensures match req
      case TLopen(fid, flags) =>
        fid in t ==>
          var path := t[fid].path;
          var (after, file) := ops.openFile(s, path, OpenFlagsOf(flags), 0x1B6);
          && s' == after
          && if file.Err? then r == Err(file.error) && u == t
             else if ops.lstat(after, path).Err? then r == Err(ops.lstat(after, path).error) && u == t
             else r == Ok(RLopen(QidOfMeta(ops, path, ops.lstat(after, path).value), 0))
                  && u == t[fid := FidState(path, FileHandle(file.value), flags)]
      case TLcreate(fid, name, flags, mode, _) =>
        fid in t && ValidPart(name) ==>
          var path := JoinPath(t[fid].path, name);
          var (after, file) := ops.openFile(s, path, WithCreate(flags), mode % 512);
          && s' == after
          && if file.Err? then r == Err(file.error) && u == t
             else if ops.lstat(after, path).Err? then r == Err(ops.lstat(after, path).error) && u == t
             else r == Ok(RLcreate(QidOfMeta(ops, path, ops.lstat(after, path).value), 0))
                  && u == t[fid := FidState(path, FileHandle(file.value), flags)]
      case _ => true
  {
  }
  /** Reading, writing and syncing through a fid. Bytes that a file gives beyond the count are cut off. */
  lemma {:induction false} DataRequests<S>(ops: Fs<S>, s: S, t: Table, req: Request, r: Result<Response>, s': S,
      u: Table)
    requires Served(ops, s, t, req, r, s', u)
    ensures match req
      case TRead(fid, offset, count) =>
        u == t && (fid in t ==>
          match t[fid].handle
          case FileHandle(file) =>
            var (after, data) := ops.readAt(s, file, offset, count);
            && s' == after
            && if data.Err? then r == Err(data.error)
               else r == Ok(RRead(if |data.value| <= count then data.value else data.value[..count]))
          case XattrRead(data) =>
            s' == s && r == Ok(RRead(data[Min(offset, |data|)..Min(offset + count, |data|)]))
          case XattrWrite(_) => s' == s && r == Err(PermissionDenied)
          case NoHandle => s' == s && r == Err(Invalid))
      case TWrite(fid, offset, data) =>
        fid in t ==>
          (match t[fid].handle
          case FileHandle(file) =>
            var (after, count) := ops.writeAt(s, file, offset, data);
            s' == after && u == t && if count.Err? then r == Err(count.error) else r == Ok(RWrite(count.value))
          case XattrWrite(write) =>
            s' == s && (r.Err? ==> u == t && r.error == Invalid)
            && (|data| < 0x1_0000_0000 ==> (r == Ok(RWrite(|data|)) <==> offset + |data| <= write.expectedSize))
          case XattrRead(_) => s' == s && u == t && r == Err(PermissionDenied)
          case NoHandle => s' == s && u == t && r == Err(Invalid))
      case TFsync(fid) =>
        fid in t ==>
          (match t[fid].handle
          case FileHandle(file) =>
            var (after, synced) := ops.syncFile(s, file);
            && s' == after && u == t
            && if synced.Err? && synced.error != NotSupported then r == Err(synced.error) else r == Ok(RFsync)
          case XattrWrite(_) => true
          case _ => s' == s && u == t && r == Ok(RFsync))
      case _ => true
  {
    if req.TRead? && req.fid in t && t[req.fid].handle.XattrRead? {
      var data := t[req.fid].handle.data;
      assert data[|data|..|data|] == [];
    }
  }

  lemma {:induction false} MinIsLeast(a: nat, b: nat)
    ensures Min(a, b) <= a && Min(a, b) <= b && (Min(a, b) == a || Min(a, b) == b)
  {
  }

  /** Committing a value: Tfsync and Tclunk of a fid with a pending value. A complete value is written
      once, under the name it was created with; an incomplete one is refused; and one that was written
      before is not written again. */
  lemma {:induction false} ValueRequests<S>(ops: Fs<S>, s: S, t: Table, fid: u32, r: Result<Response>, s': S, u: Table)
    requires fid in t && t[fid].handle.XattrWrite?
    ensures var w := t[fid].handle.write;
      Served(ops, s, t, TFsync(fid), r, s', u) ==>
        if w.committed then s' == s && r == Ok(RFsync) && u == t
        else if !IsComplete(w) then s' == s && r == Err(Invalid) && u == t
        else
          var (after, kept) := ops.setXattr(s, t[fid].path, w.name, w.data);
          && s' == after
          && if kept.Err? then r == Err(kept.error) && u == t
             else r == Ok(RFsync) && u == t[fid := t[fid].(handle := XattrWrite(w.(committed := true)))]
    ensures var w := t[fid].handle.write;
      Served(ops, s, t, TClunk(fid), r, s', u) ==>
        && u == t - {fid}
        && if w.committed then s' == s && r == Ok(RClunk)
           else if !IsComplete(w) then s' == s && r == Err(Invalid)
           else
             var (after, kept) := ops.setXattr(s, t[fid].path, w.name, w.data);
             s' == after && if kept.Err? then r == Err(kept.error) else r == Ok(RClunk)
  {
    if t[fid].handle.write.committed { assert t[fid].(handle := XattrWrite(t[fid].handle.write)) == t[fid]; }
  }

  /** Releasing a fid. An open file is closed; Tremove then removes the path, but never the root. */
  lemma {:induction false} ReleaseRequests<S>(ops: Fs<S>, s: S, t: Table, req: Request, r: Result<Response>, s': S,
      u: Table)
    requires Served(ops, s, t, req, r, s', u)
    ensures match req
      case TClunk(fid) =>
        && u == t - {fid}
        && (fid !in t ==> s' == s && r == Err(Invalid))
        && (fid in t && t[fid].handle.FileHandle? ==>
              var (after, closed) := ops.closeFile(s, t[fid].handle.file);
              s' == after && if closed.Err? then r == Err(closed.error) else r == Ok(RClunk))
        && (fid in t && (t[fid].handle.NoHandle? || t[fid].handle.XattrRead?) ==> s' == s && r == Ok(RClunk))
      case TRemove(fid) =>
        && u == t - {fid}
        && (fid !in t || t[fid].path == ROOT ==> s' == s && r == Err(Invalid))
        && (fid in t && t[fid].path != ROOT ==>
              var closed := if t[fid].handle.FileHandle? then ops.closeFile(s, t[fid].handle.file).0 else s;
              var (after, removed) := ops.change(closed, RemovePath(t[fid].path));
              s' == after && if removed.Err? then r == Err(removed.error) else r == Ok(RRemove))
      case _ => true
  {
  }

  /** Changing the tree: one change, asked of the backing with exactly these paths, or none. */
  lemma {:induction false} TreeRequests<S>(ops: Fs<S>, s: S, t: Table, req: Request, r: Result<Response>, s': S,
      u: Table)
    requires Served(ops, s, t, req, r, s', u)
    ensures match req
      case TMkdir(fid, name, mode, _) =>
        && u == t && (!(fid in t && ValidPart(name)) ==> s' == s && r == Err(Invalid))
        && (fid in t && ValidPart(name) ==>
              var path := JoinPath(t[fid].path, name);
              var (after, made) := ops.change(s, MakeDir(path, mode % 512));
              s' == after && (r.Ok? <==> made.Ok? && ops.lstat(after, path).Ok?)
              && (r.Ok? ==> r.value == RMkdir(QidOfMeta(ops, path, ops.lstat(after, path).value))))
      case TSymlink(fid, name, target, _) =>
        && u == t && (!(fid in t && ValidPart(name)) ==> s' == s && r == Err(Invalid))
        && (fid in t && ValidPart(name) ==>
              var path := JoinPath(t[fid].path, name);
              var (after, made) := ops.change(s, SymlinkPath(target, path));
              s' == after && (r.Ok? <==> made.Ok? && ops.lstat(after, path).Ok?)
              && (r.Ok? ==> r.value == RSymlink(QidOfMeta(ops, path, ops.lstat(after, path).value))))
      case TLink(fid, newdirfid, name) =>
        && u == t && (!(fid in t && newdirfid in t && ValidPart(name)) ==> s' == s && r == Err(Invalid))
        && (fid in t && newdirfid in t && ValidPart(name) ==>
              var (after, linked) := ops.change(s, LinkPath(t[fid].path, JoinPath(t[newdirfid].path, name)));
              s' == after && if linked.Err? then r == Err(linked.error) else r == Ok(RLink))
      case TRenameAt(from, oldname, to, newname) =>
        && u == t
        && (!(from in t && to in t && ValidPart(oldname) && ValidPart(newname)) ==> s' == s && r == Err(Invalid))
        && (from in t && to in t && ValidPart(oldname) && ValidPart(newname) ==>
              var (after, renamed) := ops.change(s,
                RenamePath(JoinPath(t[from].path, oldname), JoinPath(t[to].path, newname)));
              s' == after && if renamed.Err? then r == Err(renamed.error) else r == Ok(RRenameAt))
      case TUnlinkAt(dirfid, name, flags) =>
        && u == t && (!(dirfid in t && ValidPart(name)) ==> s' == s && r.Err?)
        && (dirfid in t && ValidPart(name) ==>
              var path := JoinPath(t[dirfid].path, name);
              var meta, wantsDirectory := ops.lstat(s, path), flags / 512 % 2 == 1;
              if meta.Ok? && (meta.value.mode.kind.Directory? <==> wantsDirectory)
                 && (wantsDirectory ==> ops.readDir(s, path) == Ok([]))
              then
                var (after, removed) := ops.change(s, RemovePath(path));
                s' == after && if removed.Err? then r == Err(removed.error) else r == Ok(RUnlinkAt)
              else s' == s && r.Err?)
      case _ => true
  {
  }

  /** Looking: nothing changes, and the answer is what the backing says. */
  lemma {:induction false} LookRequests<S>(ops: Fs<S>, s: S, t: Table, req: Request, r: Result<Response>, s': S,
      u: Table)
    requires Served(ops, s, t, req, r, s', u)
    ensures match req
      case TReadlink(fid) =>
        s' == s && u == t && (fid in t ==>
          var target := ops.readlink(s, t[fid].path);
          if target.Err? then r == Err(target.error) else r == Ok(RReadlink(target.value)))
      case TGetAttr(fid, mask) =>
        s' == s && u == t && (fid in t ==>
          match t[fid].handle
          case FileHandle(file) =>
            var meta := ops.fileStat(s, file);
            if meta.Err? then r == Err(meta.error)
            else r == Ok(RGetAttr(AttrFor(ops, s, t[fid].path, meta.value, mask)))
          case NoHandle =>
            var meta := ops.lstat(s, t[fid].path);
            if meta.Err? then r == Err(meta.error)
            else r == Ok(RGetAttr(AttrFor(ops, s, t[fid].path, meta.value, mask)))
          case XattrRead(data) =>
            r == Ok(RGetAttr(AttrFor(ops, s, t[fid].path, Meta(Mode(Regular, 292), |data| % 0x1_0000_0000_0000_0000,
                0, 0, 0, 0), mask)))
          case XattrWrite(w) =>
            r == Ok(RGetAttr(AttrFor(ops, s, t[fid].path,
                Meta(Mode(Regular, 128), w.expectedSize % 0x1_0000_0000_0000_0000, 0, 0, 0, 0), mask))))
      case TReaddir(fid, offset, count) =>
        s' == s && u == t && (fid in t && ops.readDir(s, t[fid].path).Err? ==>
          r == Err(ops.readDir(s, t[fid].path).error))
      case _ => true
  {
  }

  /** The attributes of an answer, one by one: owner and size are the entry's own, every time is the
      time of its last modification, and what the server cannot know is zero. */
  lemma {:induction false} AttributesAnswered<S>(ops: Fs<S>, s: S, path: Text, meta: Meta, mask: u64)
    ensures var a := AttrFor(ops, s, path, meta, mask);
      && a.qid == QidOfMeta(ops, path, meta) && a.mode == UnixMode(meta.mode) && a.uid == meta.uid && a.gid == meta.gid
      && a.size == meta.size && a.blksize == 65536 && a.blocks * 65536 >= a.size > (a.blocks - 1) * 65536
      && a.mtimeSeconds == a.atimeSeconds == a.ctimeSeconds == meta.seconds
      && a.mtimeNanoseconds == a.atimeNanoseconds == a.ctimeNanoseconds == meta.nanoseconds
      && a.rdev == a.btimeSeconds == a.btimeNanoseconds == a.gen == a.dataVersion == 0
      && (!meta.mode.kind.Directory? ==> a.nlink == 1)
    ensures
      (&& meta.mode.kind.Directory? && ops.readDir(s, path).Ok?
       && |ops.readDir(s, path).value| < 0x1_0000_0000) ==>
        AttrFor(ops, s, path, meta, mask).nlink == 2 + |ops.readDir(s, path).value|
    ensures mask < 0x800 ==>
      AttrFor(ops, s, path, meta, mask).valid == if mask / 256 % 2 == 1 then mask - 256 else mask
  {
  }

  /** Attaching, asking for attribute values, and agreeing on the version. */
  lemma {:induction false} FidRequests<S>(ops: Fs<S>, s: S, t: Table, req: Request, r: Result<Response>, s': S,
      u: Table)
    requires Served(ops, s, t, req, r, s', u)
    ensures match req
      case TVersion(size, version) =>
        && s' == s && u == t
        && r == Ok(RVersion(if size < 65536 then size else 65536,
             if [57, 80, 50, 48, 48, 48] <= version then [57, 80, 50, 48, 48, 48, 46, 76]
             else [117, 110, 107, 110, 111, 119, 110]))
      case TAttach(fid, _, _, _, _) =>
        && s' == s
        && if ops.lstat(s, [46]).Err? then r == Err(ops.lstat(s, [46]).error) && u == t
           else r == Ok(RAttach(QidOfMeta(ops, [46], ops.lstat(s, [46]).value))) && u == t[fid := Unopened([46])]
      case TFlush(_) => s' == s && u == t && r == Ok(RFlush)
      case TXattrWalk(fid, newfid, name) =>
        && s' == s && (!(fid in t && (newfid == fid || newfid !in t)) ==> r == Err(Invalid) && u == t)
        && (fid in t && (newfid == fid || newfid !in t) && name != [] ==>
              var value := ops.getXattr(s, t[fid].path, name);
              && (value.Err? ==> r == Err(value.error) && u == t)
              && (value.Ok? && |value.value| < 0x1_0000_0000_0000_0000 ==>
                    r == Ok(RXattrWalk(|value.value|)) && u == t[newfid := FidState(t[fid].path,
                        XattrRead(value.value), 0)]))
        && (fid in t && (newfid == fid || newfid !in t) && name == [] ==>
              var names := ops.listXattrs(s, t[fid].path);
              && (names.Err? ==> r == Err(names.error) && u == t)
              && (names.Ok? && |EncodeXattrNames(names.value)| < 0x1_0000_0000_0000_0000 ==>
                    r == Ok(RXattrWalk(|EncodeXattrNames(names.value)|))
                    && u == t[newfid := FidState(t[fid].path, XattrRead(EncodeXattrNames(names.value)), 0)]))
      case TXattrCreate(fid, name, size, flags) =>
        && s' == s && (fid !in t || name == [] ==> r == Err(Invalid) && u == t)
        && (fid in t && name != [] ==>
              r == Ok(RXattrCreate) && fid in u && u == t[fid := u[fid]] && u[fid].path == t[fid].path
              && u[fid].handle.XattrWrite?
              && var w := u[fid].handle.write;
                 w.name == name && w.expectedSize == |w.data| == size && w.written == [] && !w.committed)
      case _ => true
  {
    assert VERSION_L == [57, 80, 50, 48, 48, 48, 46, 76];
  }

  /** Walking: the new fid is bound to where the names that resolved lead, each qid is that of one step,
      and the walk went as far as it could. A walk that fails binds nothing. */
  lemma {:induction false} WalkRequests<S>(ops: Fs<S>, s: S, t: Table, fid: u32, newfid: u32, names: seq<Text>,
      r: Result<Response>, s': S, u: Table)
    requires Served(ops, s, t, TWalk(fid, newfid, names), r, s', u)
    ensures s' == s && (r.Err? ==> u == t)
    ensures r.Ok? ==>
      && fid in t && (newfid == fid || newfid !in t) && r.value.RWalk? && |r.value.qids| <= |names|
      && u == t[newfid := FidState(WalkAll(t[fid].path, names[..|r.value.qids|]), NoHandle, 0)]
      && (names != [] ==> r.value.qids != [])
      && (|r.value.qids| < |names| ==> ops.lstat(s, WalkAll(t[fid].path, names[..|r.value.qids| + 1])).Err?)
    ensures r.Err? && fid in t && (newfid == fid || newfid !in t) ==>
      names != [] && (ops.lstat(s, WalkAll(t[fid].path, names[..1])).Err?
                      || exists j :: 0 <= j < |names| && (names[j] == [] || 47 in names[j]))
  {
    if r.Err? {
      if j :| 0 <= j < |names| && !WalkName(names[j]) { assert names[j] == [] || 47 in names[j]; }
    }
  }

  /** The qid of each step is that of where the step leads. */
  lemma {:induction false} WalkQids<S>(ops: Fs<S>, s: S, t: Table, fid: u32, newfid: u32, names: seq<Text>,
      r: Result<Response>, s': S, u: Table, j: nat)
    requires Served(ops, s, t, TWalk(fid, newfid, names), r, s', u) && r.Ok? && r.value.RWalk? && j < |r.value.qids|
    ensures fid in t && j < |names|
    ensures var step := WalkAll(t[fid].path, names[..j + 1]);
            ops.lstat(s, step).Ok? && r.value.qids[j] == QidOfMeta(ops, step, ops.lstat(s, step).value)
  {
    StepResolves(ops, s, t[fid].path, names, r.value.qids, j);
  }

  lemma StepResolves<S>(ops: Fs<S>, s: S, base: Text, names: seq<Text>, qids: seq<Qid>, j: nat)
    requires ResolvesTo(ops, s, base, names, qids) && j < |qids|
    ensures QidFor(ops, s, WalkAll(base, names[..j + 1])) == Ok(qids[j])
  {
    assert WalkName(names[j]);
  }

  /** A request about a fid that is not bound is refused and changes nothing. */
  lemma {:induction false} UnknownFids<S>(ops: Fs<S>, s: S, t: Table, req: Request, r: Result<Response>, s': S,
      u: Table)
    requires Served(ops, s, t, req, r, s', u)
    requires req.TWalk? || req.TLopen? || req.TLcreate? || req.TGetAttr? || req.TSetAttr? || req.TRead? || req.TWrite?
             || req.TReaddir? || req.TReadlink? || req.TFsync? || req.TMkdir? || req.TSymlink? || req.TLink?
    requires req.fid !in t
    ensures s' == s && u == t && r.Err?
  {
  }
}
