/** What the 9P client learns from an exchange: which messages fit into frames, which paths a
    walk reaches, and what each kind of answer says about the server. */
module ClientAnswers {
  import opened Wrappers
  import opened Bytes
  import opened Seqs
  import opened Codec
  import opened Messages
  import opened Modes
  import opened Frames
  import opened Paths
  import opened FidTable
  import opened NineServer
  import opened ServerLaws
  import opened ClientPaths

  const NOTAG: u16 := 0xFFFF
  const NOFID: u32 := 0xFFFF_FFFF
  const ROOT_FID: u32 := 1
  const ATTR_BASIC: u64 := 0x6FF
  const MAX_NAME: nat := 0x1_0000

  // ----- what fits into a frame -----

  predicate Encodable(m: Request) {
    EncodeRequest(0, m).Ok?
  }

  predicate Sends(m: Response) {
    EncodeResponse(0, m).Ok? && AllTextual(ResponseFields(m))
  }

  /** The caller's view of an outcome: errors lose everything but their number. */
  function Carried(r: Result<()>): Result<()> {
    match r case Ok(_) => Ok(()) case Err(e) => Err(ErrorOfErrno(ErrnoFor(e)))
  }

  /** The same for an outcome with a value. */
  function Heard<T>(r: Result<T>): Result<T> {
    match r case Ok(v) => Ok(v) case Err(e) => Err(ErrorOfErrno(ErrnoFor(e)))
  }

  /** `r` is what a caller gets for an outcome on the server. */
  ghost predicate Hears(outcome: Result<Response>, r: Result<Response>) {
    match outcome
    case Err(e) => r == Err(ErrorOfErrno(ErrnoFor(e)))
    case Ok(m) => (Sends(m) ==> r == Ok(m)) && (EncodeResponse(0, m).Err? ==> r.Err?)
  }

  lemma ReplyTravels(tag: u16, outcome: Result<Response>)
    ensures var sent := EncodeResponse(tag, AsReply(outcome));
            && (outcome.Err? ==> sent.Ok? && DecodeResponse(sent.value) == Ok((tag, AsReply(outcome))))
            && (outcome.Ok? && Sends(outcome.value) ==>
                  sent.Ok? && DecodeResponse(sent.value) == Ok((tag, outcome.value)))
            && (outcome.Ok? && EncodeResponse(0, outcome.value).Err? ==> sent.Err?)
  {
    var m := AsReply(outcome);
    if outcome.Err? || Sends(m) {
      Widths();
      if outcome.Err? { NumbersAreSmall(ResponseFields(m)); }
      ResponseRoundTrip(tag, m);
    }
  }

  predicate Numbers(fs: seq<Field>) {
    forall i :: 0 <= i < |fs| ==> fs[i].Num? && fs[i].width <= 8 && fs[i].n < Pow256(fs[i].width)
  }

  /** Messages of a few numbers always fit. */
  lemma {:induction false} NumbersAreSmall(fs: seq<Field>)
    requires Numbers(fs)
    ensures |EncodeAll(fs)| <= 8 * |fs| && AllFit(fs) && AllTextual(fs)
  {
    if fs != [] { NumbersAreSmall(fs[1..]); }
  }

  lemma FidRequestFits(m: Request)
    requires m.TClunk? || m.TGetAttr? || m.TSetAttr? || m.TReadlink? || m.TRead? || m.TReaddir? || m.TLopen?
    ensures Encodable(m) && AllTextual(RequestFields(m))
  {
    FieldsAreNumbers(m);
    NumbersAreSmall(RequestFields(m));
  }

  lemma AttributesAreNumbers(a: SetAttr)
    ensures Numbers(SetAttrFields(a)) && |SetAttrFields(a)| == 9
  {
    Widths();
  }

  lemma FieldsAreNumbers(m: Request)
    requires m.TClunk? || m.TGetAttr? || m.TSetAttr? || m.TReadlink? || m.TRead? || m.TReaddir? || m.TLopen?
    ensures Numbers(RequestFields(m)) && |RequestFields(m)| <= 10
  {
    Widths();
    if m.TSetAttr? {
      AttributesAreNumbers(m.attr);
      assert RequestFields(m) == [Num(4, m.fid)] + SetAttrFields(m.attr);
    }
  }

  lemma EmptyReplyFits(m: Response)
    requires ResponseFields(m) == []
    ensures Sends(m)
  {
  }

  lemma DataLength(data: seq<Byte>)
    ensures |EncodeAll([Data(data)])| == 4 + |data|
  {
    assert EncodeAll([Data(data)]) == EncodeField(Data(data)) + EncodeAll([]);
  }

  lemma WriteFrameSize(tag: u16, fid: u32, offset: u64, data: seq<Byte>)
    requires 23 + |data| < 0x1_0000_0000
    ensures var r := EncodeRequest(tag, TWrite(fid, offset, data)); r.Ok? && |r.value| == 23 + |data|
  {
    Widths();
    var fs := RequestFields(TWrite(fid, offset, data));
    assert fs[1..] == [Num(8, offset), Data(data)] && fs[1..][1..] == [Data(data)];
    DataLength(data);
    assert |EncodeAll(fs[1..])| == 8 + |EncodeAll([Data(data)])|;
    assert |EncodeAll(fs)| == 4 + |EncodeAll(fs[1..])|;
  }

  lemma ReadFrameSize(tag: u16, data: seq<Byte>)
    requires 11 + |data| < 0x1_0000_0000
    ensures var r := EncodeResponse(tag, RRead(data)); r.Ok? && |r.value| == 11 + |data| && Sends(RRead(data))
  {
    Widths();
    DataLength(data);
  }

  lemma {:induction false} QidsLength(qids: seq<Qid>)
    ensures |EncodeQids(qids)| == 13 * |qids|
  {
    if qids != [] { QidsLength(qids[1..]); }
  }

  lemma WalkReplyFits(qids: seq<Qid>)
    requires |qids| < MAX_NAME
    ensures Sends(RWalk(qids))
  {
    QidsLength(qids);
    assert EncodeAll([Qids(qids)]) == EncodeField(Qids(qids)) + EncodeAll([]);
  }

  function NamesLength(names: seq<Text>): nat {
    if names == [] then 0 else 2 + |names[0]| + NamesLength(names[1..])
  }

  /** A walk of these names fits into a frame. */
  predicate WalkFits(names: seq<Text>) {
    |names| < MAX_NAME && (forall i :: 0 <= i < |names| ==> |names[i]| < MAX_NAME)
    && 17 + NamesLength(names) < 0x1_0000_0000
  }

  lemma {:induction false} EncodedNamesLength(names: seq<Text>)
    ensures |EncodeStrs(names)| == NamesLength(names)
  {
    if names != [] { EncodedNamesLength(names[1..]); }
  }

  lemma {:induction false} WalkEncodable(fid: u32, names: seq<Text>)
    ensures Encodable(TWalk(ROOT_FID, fid, names)) <==> WalkFits(names)
  {
    Widths();
    var fs := RequestFields(TWalk(ROOT_FID, fid, names));
    assert fs[1..] == [Num(4, fid), Strs(names)] && fs[1..][1..] == [Strs(names)];
    EncodedNamesLength(names);
    assert EncodeAll([Strs(names)]) == EncodeField(Strs(names)) + EncodeAll([]);
    assert |EncodeAll(fs[1..])| == 6 + NamesLength(names);
    assert |EncodeAll(fs)| == 10 + NamesLength(names);
    assert AllFit(fs) <==> Fits(Strs(names));
  }

  // ----- which paths a client can reach -----

  /** Every directory on the way, and the path itself, is there. */
  ghost predicate Resolvable<S>(ops: Fs<S>, s: S, path: Text) {
    forall j :: 0 < j <= |Components(path)| ==> ops.lstat(s, PathOf(Components(path)[..j])).Ok?
  }

  /** A walk to this path can be asked for and succeeds. */
  ghost predicate PathThere<S>(ops: Fs<S>, s: S, path: Text) {
    WalkFits(Components(path)) && Resolvable(ops, s, path)
  }

  /** The same for a name as callers give it. */
  ghost predicate Reaches<S>(ops: Fs<S>, s: S, name: Text) {
    ClientPath(name).Ok? && PathThere(ops, s, ClientPath(name).value)
  }

  lemma WalkPrefix(names: seq<Text>, j: nat)
    requires ValidParts(names) && j <= |names|
    ensures WalkAll(ROOT, names[..j]) == PathOf(names[..j])
  {
    ValidPartsWalk(names[..j]);
  }

  /** Names that resolve from the root one by one are there. */
  lemma ResolvesMeansThere<S>(ops: Fs<S>, s: S, names: seq<Text>, qids: seq<Qid>)
    requires ValidParts(names) && ResolvesTo(ops, s, ROOT, names, qids)
    ensures forall j :: 0 < j <= |qids| ==> ops.lstat(s, PathOf(names[..j])).Ok?
  {
    forall j | 0 < j <= |qids| ensures ops.lstat(s, PathOf(names[..j])).Ok? {
      var i := j - 1;
      assert QidFor(ops, s, WalkAll(ROOT, names[..i + 1])) == Ok(qids[i]);
      WalkPrefix(names, j);
    }
  }

  /** A name that does not resolve is not there. */
  lemma StopsMeansNotThere<S>(ops: Fs<S>, s: S, path: Text, j: nat)
    requires ValidPath(path) && 0 < j <= |Components(path)| && QidFor(ops, s, WalkAll(ROOT, Components(path)[..j])).Err?
    ensures !Resolvable(ops, s, path)
  {
    ComponentsArePaths(path);
    WalkPrefix(Components(path), j);
  }

  lemma WalkFromRoot<S>(ops: Fs<S>, s: S, t: Table, fid: u32, path: Text, outcome: Result<Response>)
    requires ValidPath(path) && ROOT_FID in t && t[ROOT_FID].path == ROOT && fid !in t
    requires Walked(ops, s, t, ROOT_FID, fid, Components(path), outcome)
    ensures outcome.Ok? ==> (Resolvable(ops, s, path) <==> |outcome.value.qids| == |Components(path)|)
    ensures outcome.Err? ==> !Resolvable(ops, s, path)
  {
    var names := Components(path);
    ComponentsArePaths(path);
    ValidPartsWalk(names);
    if outcome.Ok? {
      ResolvesMeansThere(ops, s, names, outcome.value.qids);
      if |outcome.value.qids| < |names| { StopsMeansNotThere(ops, s, path, |outcome.value.qids| + 1); }
    } else {
      StopsMeansNotThere(ops, s, path, 1);
    }
  }

  /** What a successful walk binds. */
  lemma WalkBinds(t: Table, fid: u32, path: Text, r: Result<Response>, u: Table)
    requires ValidPath(path) && ROOT_FID in t && t[ROOT_FID].path == ROOT && fid !in t
    requires TableStep(t, TWalk(ROOT_FID, fid, Components(path)), r, u) && r.Ok?
    ensures r.value.RWalk? && u - {fid} == t && fid in u && u[fid].handle.NoHandle?
    ensures |r.value.qids| == |Components(path)| ==> u == t[fid := Unopened(path)]
  {
    if |r.value.qids| == |Components(path)| {
      TakeAll(Components(path));
      ComponentsArePaths(path);
      ValidPartsWalk(Components(path));
    }
  }

  /** The outcome of a walk from the root to `path`, and what the client makes of it. */
  lemma WalkOutcome<S>(ops: Fs<S>, s: S, t: Table, fid: u32, path: Text, outcome: Result<Response>, s': S, u: Table)
    requires ValidPath(path) && ROOT_FID in t && t[ROOT_FID].path == ROOT && fid !in t && |Components(path)| < MAX_NAME
    requires Served(ops, s, t, TWalk(ROOT_FID, fid, Components(path)), outcome, s', u)
    ensures s' == s && (outcome.Err? ==> u == t && !Resolvable(ops, s, path))
    ensures outcome.Ok? ==>
      outcome.value.RWalk? && Sends(outcome.value) && u - {fid} == t && fid in u && u[fid].handle.NoHandle?
    ensures outcome.Ok? ==> (Resolvable(ops, s, path) <==> |outcome.value.qids| == |Components(path)|)
    ensures outcome.Ok? && |outcome.value.qids| == |Components(path)| ==> u == t[fid := Unopened(path)]
  {
    WalkFromRoot(ops, s, t, fid, path, outcome);
    if outcome.Ok? {
      WalkBinds(t, fid, path, outcome, u);
      WalkReplyFits(outcome.value.qids);
    }
  }

  /** What one request does, seen from the client. */
  ghost predicate Answered<S>(ops: Fs<S>, s: S, t: Table, req: Request, outcome: Result<Response>, r: Result<Response>,
      s': S, u: Table) {
    if Encodable(req) then Served(ops, s, t, req, outcome, s', u) && Hears(outcome, r)
    else r.Err? && s' == s && u == t
  }

  /** What the client learns from a walk: true if it went all the way. */
  ghost predicate WalkAnswer<S>(ops: Fs<S>, s: S, t: Table, fid: u32, path: Text, r: Result<bool>, s': S, u: Table) {
    && s' == s && (r == Ok(true) <==> PathThere(ops, s, path))
    && match r
       case Ok(all) => u - {fid} == t && fid in u && u[fid].handle.NoHandle? && (all ==> u == t[fid := Unopened(path)])
       case Err(_) => u == t
  }

  function WentAllTheWay(answer: Result<Response>, n: nat): Result<bool> {
    match answer
    case Ok(m) => if m.RWalk? then Ok(|m.qids| == n) else Err(Invalid)
    case Err(e) => Err(e)
  }

  lemma WalkIsAnswered<S>(ops: Fs<S>, s: S, t: Table, fid: u32, path: Text, outcome: Result<Response>,
      answer: Result<Response>, s': S, u: Table)
    requires ValidPath(path) && ROOT_FID in t && t[ROOT_FID].path == ROOT && fid !in t
    requires Answered(ops, s, t, TWalk(ROOT_FID, fid, Components(path)), outcome, answer, s', u)
    ensures WalkAnswer(ops, s, t, fid, path, WentAllTheWay(answer, |Components(path)|), s', u)
  {
    var req := TWalk(ROOT_FID, fid, Components(path));
    WalkEncodable(fid, Components(path));
    if Encodable(req) {
      WalkOutcome(ops, s, t, fid, path, outcome, s', u);
    }
  }

  /** What clunking a fid does. */
  ghost predicate Clunked<S>(ops: Fs<S>, s: S, t: Table, fid: u32, r: Result<()>, s': S, u: Table) {
    && u == t - {fid}
    && (fid !in t ==> r.Err? && s' == s)
    && (fid in t && t[fid].handle.FileHandle? ==>
          s' == ops.closeFile(s, t[fid].handle.file).0 && r == Carried(ops.closeFile(s, t[fid].handle.file).1))
    && (fid in t && !t[fid].handle.FileHandle? ==>
          s' == Commit(ops, s, t[fid]).0 && r == Carried(Commit(ops, s, t[fid]).1))
  }

  lemma ClunkOutcome<S>(ops: Fs<S>, s: S, t: Table, fid: u32, outcome: Result<Response>, s': S, u: Table,
      answer: Result<Response>)
    requires Answered(ops, s, t, TClunk(fid), outcome, answer, s', u)
    ensures answer.Ok? ==> answer.value.RClunk?
    ensures Clunked(ops, s, t, fid, if answer.Ok? then Ok(()) else Err(answer.error), s', u)
  {
    FidRequestFits(TClunk(fid));
    EmptyReplyFits(RClunk);
  }

  /** The length of the Twrite frame or of the Rread frame of an exchange, if it is one. */
  function DataFrames(tag: u16, req: Request, reply: Result<seq<Byte>>): nat {
    if req.TWrite? && EncodeRequest(tag, req).Ok? then |EncodeRequest(tag, req).value|
    else if req.TRead? && reply.Ok? then |reply.value|
    else 0
  }

  lemma DataFramesFit(tag: u16, req: Request, reply: Result<seq<Byte>>, outcome: Result<Response>, room: nat)
    requires reply == EncodeResponse(tag, AsReply(outcome)) && 24 <= room < 0x1_0000_0000
    requires req.TWrite? ==> 23 + |req.data| <= room
    requires req.TRead? ==>
      11 + req.count <= room && (outcome.Ok? ==> outcome.value.RRead? && |outcome.value.data| <= req.count)
    ensures DataFrames(tag, req, reply) <= room
  {
    if req.TWrite? {
      WriteFrameSize(tag, req.fid, req.offset, req.data);
    } else if req.TRead? && outcome.Ok? {
      ReadFrameSize(tag, outcome.value.data);
    } else if req.TRead? {
      NumbersAreSmall(ResponseFields(AsReply(outcome)));
    }
  }

  /** The same for a request that was served. */
  lemma ServedFramesFit<S>(ops: Fs<S>, s: S, t: Table, tag: u16, req: Request, reply: Result<seq<Byte>>,
      outcome: Result<Response>, s': S, u: Table, room: nat)
    requires Served(ops, s, t, req, outcome, s', u) && reply == EncodeResponse(tag, AsReply(outcome))
    requires 24 <= room < 0x1_0000_0000
    requires req.TWrite? ==> 23 + |req.data| <= room
    requires req.TRead? ==> 11 + req.count <= room
    ensures DataFrames(tag, req, reply) <= room
  {
    DataFramesFit(tag, req, reply, outcome, room);
  }

  // ----- changes by name -----

  /** Do the names in the request fit their fields? */
  predicate NamesFit(m: Request)
    requires AsksOneChange(m)
  {
    match m
    case TMkdir(_, name, _, _) => |name| < MAX_NAME
    case TLink(_, _, name) => |name| < MAX_NAME
    case TRenameAt(_, oldname, _, newname) => |oldname| < MAX_NAME && |newname| < MAX_NAME
    case TSymlink(_, name, target, _) => |name| < MAX_NAME && |target| < MAX_NAME
  }

  predicate NamesUtf8(m: Request)
    requires AsksOneChange(m)
  {
    match m
    case TMkdir(_, name, _, _) => Utf8(name)
    case TLink(_, _, name) => Utf8(name)
    case TRenameAt(_, oldname, _, newname) => Utf8(oldname) && Utf8(newname)
    case TSymlink(_, name, target, _) => Utf8(name) && Utf8(target)
  }

  /** Numbers and up to two strings always fit together. */
  lemma {:induction false} ShortFieldsAreSmall(fs: seq<Field>)
    requires forall i :: 0 <= i < |fs| ==> (fs[i].Num? && fs[i].width <= 8) || (fs[i].Str? && FitsStr(fs[i].bytes))
    ensures |EncodeAll(fs)| <= 0x1_0001 * |fs|
  {
    if fs != [] { ShortFieldsAreSmall(fs[1..]); }
  }

  lemma EffectEncodable(m: Request)
    requires AsksOneChange(m) && NamesUtf8(m)
    ensures AllTextual(RequestFields(m)) && (Encodable(m) <==> NamesFit(m))
  {
    Widths();
    var fs := RequestFields(m);
    if NamesFit(m) {
      ShortFieldsAreSmall(fs);
    } else if m.TMkdir? {
      assert !Fits(fs[1]);
    } else if m.TLink? {
      assert !Fits(fs[2]);
    } else if m.TRenameAt? {
      assert !Fits(fs[1]) || !Fits(fs[3]);
    } else {
      assert !Fits(fs[1]) || !Fits(fs[2]);
    }
  }

  /** What a change created can be examined afterwards. */
  predicate Reported<S>(ops: Fs<S>, s: S, c: Change) {
    (c.MakeDir? || c.SymlinkPath?) ==> ops.lstat(s, c.path).Ok?
  }

  /** The change was made once if wanted, and not at all otherwise; the caller hears of success
      exactly when it was made, and what it created can be examined. */
  ghost predicate MadeChange<S>(ops: Fs<S>, s: S, wanted: bool, c: Change, ok: bool, s': S) {
    && s' == (if wanted then ops.change(s, c).0 else s)
    && (ok <==> wanted && ops.change(s, c).1.Ok? && Reported(ops, s', c))
  }

  lemma QidReplyFits(m: Response)
    requires m.RMkdir? || m.RSymlink?
    ensures Sends(m)
  {
    Widths();
    assert Numbers(ResponseFields(m)) && |ResponseFields(m)| == 3;
    NumbersAreSmall(ResponseFields(m));
  }

  lemma EffectReplyFits<S>(ops: Fs<S>, s: S, c: Change)
    requires c.MakeDir? || c.SymlinkPath? || c.LinkPath? || c.RenamePath?
    ensures EffectReply(ops, s, c).Ok? ==> Sends(EffectReply(ops, s, c).value)
  {
    var r := EffectReply(ops, s, c);
    if c.LinkPath? || c.RenamePath? { EmptyReplyFits(r.value); }
    else if r.Ok? { QidReplyFits(r.value); }
  }

  lemma EffectOutcome<S>(ops: Fs<S>, s: S, t: Table, req: Request, c: Change, outcome: Result<Response>,
      answer: Result<Response>, s': S, u: Table)
    requires Answered(ops, s, t, req, outcome, answer, s', u) && AsksOneChange(req) && EffectOf(t, req) == Some(c)
    ensures u == t && MadeChange(ops, s, Encodable(req), c, answer.Ok?, s')
    ensures answer.Ok? ==> ResponseType(answer.value) == RequestType(req) + 1
  {
    if Encodable(req) {
      EffectServedMeans(ops, s, t, req, c, outcome, s', u);
      if outcome.Ok? { EffectReplyFits(ops, s', c); }
    }
  }

  lemma EffectServedMeans<S>(ops: Fs<S>, s: S, t: Table, req: Request, c: Change, r: Result<Response>, s': S, u: Table)
    requires Served(ops, s, t, req, r, s', u) && AsksOneChange(req) && EffectOf(t, req) == Some(c)
    ensures u == t && MadeChange(ops, s, true, c, r.Ok?, s')
    ensures r.Ok? ==> ResponseType(r.value) == RequestType(req) + 1
    ensures r.Ok? ==> r == EffectReply(ops, s', c)
    ensures c.MakeDir? || c.SymlinkPath? || c.LinkPath? || c.RenamePath?
  {
  }

  lemma NoEffectOutcome<S>(ops: Fs<S>, s: S, t: Table, req: Request, outcome: Result<Response>,
      answer: Result<Response>, s': S, u: Table)
    requires Answered(ops, s, t, req, outcome, answer, s', u) && AsksOneChange(req) && EffectOf(t, req) == None
    ensures u == t && s' == s && answer.Err?
  {
  }

  /** Requests that leave the fid table as it is. */
  predicate LeavesTable(m: Request) {
    AsksOneChange(m) || m.TGetAttr? || m.TSetAttr? || m.TReadlink? || m.TUnlinkAt? || m.TReaddir?
  }

  lemma TableStays<S>(ops: Fs<S>, s: S, t: Table, req: Request, outcome: Result<Response>, answer: Result<Response>,
      s': S, u: Table)
    requires Answered(ops, s, t, req, outcome, answer, s', u) && LeavesTable(req)
    ensures u == t
  {
    if Encodable(req) { StepStays(t, req, outcome, u); }
  }

  lemma StepStays(t: Table, req: Request, r: Result<Response>, u: Table)
    requires TableStep(t, req, r, u) && LeavesTable(req)
    ensures u == t
  {
  }

  /** The path can be reached, is not the root, has a name that can be sent, and is an empty
      directory if it is one. */
  ghost predicate Removable<S>(ops: Fs<S>, s: S, path: Text) {
    && EntryThere(ops, s, path) && PathThere(ops, s, path) && ops.lstat(s, path).Ok?
    && (ops.lstat(s, path).value.mode.kind.Directory? ==> ops.readDir(s, path) == Ok([]))
  }

  /** The directory of the named entry can be reached and the entry's name can be sent. */
  ghost predicate EntryThere<S>(ops: Fs<S>, s: S, path: Text) {
    path != ROOT && PathThere(ops, s, ParentPath(path)) && |BaseName(path)| < MAX_NAME
  }

  /** The request on the parent's fid that concerns the entry is about the path itself. */
  lemma MkdirIsAboutPath(t: Table, fid: u32, name: Text, path: Text, perm: Perm)
    requires fid in t && ValidPart(name) && Utf8(name) && path == JoinPath(t[fid].path, name)
    ensures var req := TMkdir(fid, name, perm, 0);
            EffectOf(t, req) == Some(MakeDir(path, perm)) && NamesUtf8(req)
  {
  }

  lemma SymlinkIsAboutPath(t: Table, fid: u32, path: Text, target: Text)
    requires ValidPath(path) && AllUtf8(Components(path)) && fid in t && t[fid].path == ParentPath(path) && Utf8(target)
    ensures var req := TSymlink(fid, BaseName(path), target, 0);
            EffectOf(t, req) == (if path == ROOT then None else Some(SymlinkPath(target, path))) && NamesUtf8(req)
  {
    RootName();
    ParentUtf8(path);
  }

  lemma RootName()
    ensures BaseName(ROOT) == ROOT && Utf8(ROOT) && !ValidPart(ROOT)
  {
    SplitAtSlash(ROOT, []);
    RootUtf8();
  }

  lemma LinkIsAboutPaths(t: Table, fid: u32, newdir: u32, from: Text, to: Text)
    requires ValidPath(from) && ValidPath(to) && to != ROOT && AllUtf8(Components(to))
    requires fid in t && t[fid].path == from && newdir in t && t[newdir].path == ParentPath(to)
    ensures var req := TLink(fid, newdir, BaseName(to));
            EffectOf(t, req) == Some(LinkPath(from, to)) && NamesUtf8(req)
  {
    ParentUtf8(to);
  }

  lemma RenameIsAboutPaths(t: Table, olddir: u32, newdir: u32, from: Text, to: Text)
    requires ValidPath(from) && ValidPath(to) && AllUtf8(Components(from)) && AllUtf8(Components(to))
    requires olddir in t && t[olddir].path == ParentPath(from) && newdir in t && t[newdir].path == ParentPath(to)
    ensures var req := TRenameAt(olddir, BaseName(from), newdir, BaseName(to));
            EffectOf(t, req) == (if from == ROOT || to == ROOT then None else Some(RenamePath(from, to)))
            && NamesUtf8(req)
  {
    RootName();
    ParentUtf8(from);
    ParentUtf8(to);
  }

  lemma UnlinkOutcome<S>(ops: Fs<S>, s: S, t: Table, fid: u32, name: Text, path: Text, flags: u32,
      outcome: Result<Response>, answer: Result<Response>, s': S, u: Table)
    requires fid in t && ValidPart(name) && path == JoinPath(t[fid].path, name)
    requires Answered(ops, s, t, TUnlinkAt(fid, name, flags), outcome, answer, s', u)
    ensures MadeChange(ops, s, |name| < MAX_NAME && Unlinkable(ops, s, path, Bit(flags, 512)), RemovePath(path),
        answer.Ok?, s')
    ensures answer.Ok? ==> answer.value.RUnlinkAt?
  {
    UnlinkEncodable(fid, name, flags);
    if |name| < MAX_NAME { UnlinkHeard(ops, s, t, fid, name, path, flags, outcome, answer, s', u); }
  }

  lemma UnlinkHeard<S>(ops: Fs<S>, s: S, t: Table, fid: u32, name: Text, path: Text, flags: u32,
      outcome: Result<Response>, answer: Result<Response>, s': S, u: Table)
    requires fid in t && ValidPart(name) && path == JoinPath(t[fid].path, name)
    requires Served(ops, s, t, TUnlinkAt(fid, name, flags), outcome, s', u) && Hears(outcome, answer)
    ensures MadeChange(ops, s, Unlinkable(ops, s, path, Bit(flags, 512)), RemovePath(path), answer.Ok?, s')
    ensures answer.Ok? ==> answer.value.RUnlinkAt?
  {
    UnlinkServedMeans(ops, s, t, fid, name, path, flags, outcome, s', u);
    EmptyReplyFits(RUnlinkAt);
  }

  lemma UnlinkServedMeans<S>(ops: Fs<S>, s: S, t: Table, fid: u32, name: Text, path: Text, flags: u32,
      r: Result<Response>, s': S, u: Table)
    requires fid in t && ValidPart(name) && path == JoinPath(t[fid].path, name)
    requires Served(ops, s, t, TUnlinkAt(fid, name, flags), r, s', u)
    ensures MadeChange(ops, s, Unlinkable(ops, s, path, Bit(flags, 512)), RemovePath(path), r.Ok?, s')
    ensures r.Ok? ==> r.value == RUnlinkAt
  {
  }

  lemma UnlinkEncodable(fid: u32, name: Text, flags: u32)
    ensures Encodable(TUnlinkAt(fid, name, flags)) <==> |name| < MAX_NAME
  {
    Widths();
    var fs := RequestFields(TUnlinkAt(fid, name, flags));
    if |name| < MAX_NAME { ShortFieldsAreSmall(fs); } else { assert !Fits(fs[1]); }
  }

  lemma UnlinkTextual(fid: u32, path: Text, flags: u32)
    requires ValidPath(path) && path != ROOT && AllUtf8(Components(path))
    ensures AllTextual(RequestFields(TUnlinkAt(fid, BaseName(path), flags)))
  {
    ParentUtf8(path);
  }

  /** The flag for removing a directory says so. */
  function RemoveFlags(kind: FileKind): u32 {
    if kind.Directory? then 512 else 0
  }

  lemma FlagsSayKind(kind: FileKind)
    ensures Bit(RemoveFlags(kind), 512) <==> kind.Directory?
  {
  }

  /** A request that asks for the change `c`, or for nothing when it is not wanted. */
  predicate Requests(t: Table, req: Request, wanted: bool, c: Change) {
    && AsksOneChange(req) && NamesUtf8(req)
    && (EffectOf(t, req) == Some(c) || EffectOf(t, req) == None)
    && (wanted <==> EffectOf(t, req).Some? && NamesFit(req))
  }

  lemma RenameRequests(t: Table, olddir: u32, newdir: u32, from: Text, to: Text, wanted: bool)
    requires ValidPath(from) && ValidPath(to) && AllUtf8(Components(from)) && AllUtf8(Components(to))
    requires olddir in t && t[olddir].path == ParentPath(from) && newdir in t && t[newdir].path == ParentPath(to)
    requires wanted <==> from != ROOT && to != ROOT && |BaseName(from)| < MAX_NAME && |BaseName(to)| < MAX_NAME
    ensures Requests(t, TRenameAt(olddir, BaseName(from), newdir, BaseName(to)), wanted, RenamePath(from, to))
  {
    RenameIsAboutPaths(t, olddir, newdir, from, to);
  }

  lemma DropTwo(t: Table, f: u32, g: u32, a: FidState, b: FidState)
    requires f !in t && g !in t
    ensures t[f := a][g := b] - {f} - {g} == t
  {
  }

  /** The table after two walks for one request: a walk that succeeds before one that fails is
      never undone. */
  ghost function AfterTwo<S>(ops: Fs<S>, s: S, t: Table, next: u32, p: Text, q: Text): Table {
    if PathThere(ops, s, p) && !PathThere(ops, s, q) then t[next := Unopened(p)] else t
  }

  // ----- metadata and link targets -----

  function MetaFromAttr(a: Attr): Meta {
    Meta(ModeFromUnix(a.mode), a.size, a.uid, a.gid, a.mtimeSeconds, a.mtimeNanoseconds % 0x1_0000_0000)
  }

  lemma AttrReplyFits(a: Attr)
    ensures Sends(RGetAttr(a))
  {
    AttrFieldsAreNumbers(a);
    NumbersAreSmall(AttrFields(a));
  }

  lemma AttrFieldsAreNumbers(a: Attr)
    ensures Numbers(AttrFields(a)) && |AttrFields(a)| == 22
  {
    Widths();
  }

  /** A path's metadata comes back as it is. */
  lemma StatOutcome<S>(ops: Fs<S>, s: S, t: Table, fid: u32, outcome: Result<Response>, answer: Result<Response>, s': S,
      u: Table)
    requires fid in t && t[fid].handle.NoHandle?
    requires Answered(ops, s, t, TGetAttr(fid, ATTR_BASIC), outcome, answer, s', u)
    ensures s' == s && (answer.Ok? <==> ops.lstat(s, t[fid].path).Ok?)
    ensures answer.Ok? ==> answer.value.RGetAttr? && MetaFromAttr(answer.value.attr) == ops.lstat(s, t[fid].path).value
  {
    FidRequestFits(TGetAttr(fid, ATTR_BASIC));
    if ops.lstat(s, t[fid].path).Ok? {
      var meta := ops.lstat(s, t[fid].path).value;
      AttrReplyFits(AttrFor(ops, s, t[fid].path, meta, ATTR_BASIC));
      MetaRoundTrip(ops, s, t[fid].path, meta);
    }
  }

  lemma MetaRoundTrip<S>(ops: Fs<S>, s: S, path: Text, meta: Meta)
    ensures MetaFromAttr(AttrFor(ops, s, path, meta, ATTR_BASIC)) == meta
  {
    UnixRoundTrip(meta.mode);
  }

  lemma ReadlinkOutcome<S>(ops: Fs<S>, s: S, t: Table, fid: u32, outcome: Result<Response>, answer: Result<Response>,
      s': S, u: Table)
    requires fid in t && Answered(ops, s, t, TReadlink(fid), outcome, answer, s', u)
    requires ops.readlink(s, t[fid].path).Ok? ==> Utf8(ops.readlink(s, t[fid].path).value)
    ensures s' == s
    ensures (answer.Ok? <==> ops.readlink(s, t[fid].path).Ok? && |ops.readlink(s, t[fid].path).value| < MAX_NAME)
    ensures answer.Ok? ==> answer.value == RReadlink(ops.readlink(s, t[fid].path).value)
  {
    FidRequestFits(TReadlink(fid));
    if ops.readlink(s, t[fid].path).Ok? {
      var target := ops.readlink(s, t[fid].path).value;
      TargetIsTextual(target);
      if |target| < MAX_NAME { ShortTargetEncodes(target); } else { LongTargetFails(target); }
    }
  }

  lemma ShortTargetEncodes(target: Text)
    requires |target| < MAX_NAME
    ensures EncodeResponse(0, RReadlink(target)).Ok?
  {
    OneString(target);
  }

  lemma TargetIsTextual(target: Text)
    requires Utf8(target)
    ensures AllTextual(ResponseFields(RReadlink(target)))
  {
  }

  lemma LongTargetFails(target: Text)
    requires |target| >= MAX_NAME
    ensures EncodeResponse(0, RReadlink(target)).Err?
  {
    assert !Fits(ResponseFields(RReadlink(target))[0]);
  }

  lemma OneString(s: Text)
    requires |s| < MAX_NAME
    ensures |EncodeAll([Str(s)])| == 2 + |s|
  {
    assert EncodeAll([Str(s)]) == EncodeField(Str(s)) + EncodeAll([]);
  }

  /** The whole run of changes was made, at some time of the server's clock, and its result heard. */
  ghost predicate SetAttrDone<S>(ops: Fs<S>, s: S, path: Text, a: SetAttr, ok: bool, s': S) {
    exists now :: SetAttrRun(ops, s, path, a, now).0 == s' && (ok <==> SetAttrRun(ops, s, path, a, now).1.Ok?)
  }

  lemma SetAttrOutcome<S>(ops: Fs<S>, s: S, t: Table, fid: u32, a: SetAttr, outcome: Result<Response>,
      answer: Result<Response>, s': S, u: Table)
    requires fid in t && Answered(ops, s, t, TSetAttr(fid, a), outcome, answer, s', u)
    ensures SetAttrDone(ops, s, t[fid].path, a, answer.Ok?, s')
    ensures answer.Ok? ==> answer.value.RSetAttr?
  {
    FidRequestFits(TSetAttr(fid, a));
    EmptyReplyFits(RSetAttr);
  }

  /** A request for one attribute is one change; owner and group are looked up first. */
  lemma OneAttributeDone<S>(ops: Fs<S>, s: S, path: Text, a: SetAttr, ok: bool, s': S)
    requires SetAttrDone(ops, s, path, a, ok, s')
    ensures a.valid == 1 ==> MadeChange(ops, s, true, Chmod(path, a.mode % 512), ok, s')
    ensures a.valid == 6 ==> MadeChange(ops, s, ops.lstat(s, path).Ok?, Chown(path, a.uid, a.gid), ok, s')
    ensures a.valid == 8 ==> MadeChange(ops, s, true, Truncate(path, a.size), ok, s')
    ensures a.valid == 288 ==>
      MadeChange(ops, s, true, Chtimes(path, a.mtimeSeconds, a.mtimeNanoseconds % 0x1_0000_0000), ok, s')
  {
    var now :| SetAttrRun(ops, s, path, a, now).0 == s' && (ok <==> SetAttrRun(ops, s, path, a, now).1.Ok?);
    OneAttribute(ops, s, path, a, now);
  }

  // ----- connecting -----

  const USER: Text := [115, 116, 97, 114, 57]

  lemma {:induction false} AsciiIsUtf8(s: Text)
    requires forall i :: 0 <= i < |s| ==> s[i] < 0x80
    ensures Utf8(s)
  {
    if s != [] { AsciiIsUtf8(s[1..]); }
  }

  lemma VersionTravels()
    ensures AllTextual(RequestFields(TVersion(DEFAULT_MSIZE, VERSION_L)))
    ensures Encodable(TVersion(DEFAULT_MSIZE, VERSION_L))
    ensures Sends(RVersion(DEFAULT_MSIZE, VERSION_L)) && VERSION_9P2000 <= VERSION_L
  {
    Widths();
    AsciiIsUtf8(VERSION_L);
    ShortFieldsAreSmall([Num(4, DEFAULT_MSIZE), Str(VERSION_L)]);
  }

  lemma AttachTextual()
    ensures AllTextual(RequestFields(TAttach(ROOT_FID, NOFID, USER, [], 0)))
  {
    AsciiIsUtf8(USER);
  }

  lemma AttachEncodable()
    ensures Encodable(TAttach(ROOT_FID, NOFID, USER, [], 0))
  {
    Widths();
    ShortFieldsAreSmall(RequestFields(TAttach(ROOT_FID, NOFID, USER, [], 0)));
  }

  lemma AttachReplyFits(qid: Qid)
    ensures Sends(RAttach(qid))
  {
    Widths();
    NumbersAreSmall(QidFields(qid));
  }

  lemma VersionOutcome<S>(ops: Fs<S>, s: S, t: Table, outcome: Result<Response>, answer: Result<Response>, s': S,
      u: Table)
    requires Answered(ops, s, t, TVersion(DEFAULT_MSIZE, VERSION_L), outcome, answer, s', u)
    ensures s' == s && u == t && answer == Ok(RVersion(DEFAULT_MSIZE, VERSION_L))
  {
    VersionTravels();
  }

  lemma AttachServed<S>(ops: Fs<S>, s: S, t: Table, r: Result<Response>, s': S, u: Table)
    requires Served(ops, s, t, TAttach(ROOT_FID, NOFID, USER, [], 0), r, s', u)
    ensures s' == s && (r.Ok? <==> ops.lstat(s, ROOT).Ok?) && (r.Ok? ==> r.value.RAttach?)
    ensures u == if r.Ok? then t[ROOT_FID := Unopened(ROOT)] else t
  {
  }

  lemma AttachOutcome<S>(ops: Fs<S>, s: S, t: Table, outcome: Result<Response>, answer: Result<Response>, s': S,
      u: Table)
    requires Answered(ops, s, t, TAttach(ROOT_FID, NOFID, USER, [], 0), outcome, answer, s', u)
    ensures s' == s && (answer.Ok? <==> ops.lstat(s, ROOT).Ok?) && (answer.Ok? ==> answer.value.RAttach?)
    ensures u == if answer.Ok? then t[ROOT_FID := Unopened(ROOT)] else t
  {
    AttachEncodable();
    AttachServed(ops, s, t, outcome, s', u);
    if outcome.Ok? { AttachReplyFits(outcome.value.qid); }
  }
}
