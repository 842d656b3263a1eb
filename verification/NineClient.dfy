/** The 9P client over a server in the same process. Every operation is an exchange of whole
    frames through the codec; fids it takes it gives back. */
module NineClient {
  import opened Wrappers
  import opened Bytes
  import opened Seqs
  import opened Codec
  import opened Messages
  import opened Modes
  import opened Frames
  import opened Paths
  import opened XattrBuffer
  import opened XattrNames
  import opened FidTable
  import opened Readdir
  import opened NineServer
  import opened ClientPaths
  import opened ClientAnswers
  import opened ClientTransfers

  /** A result, unless giving the fid back failed. */
  function And<T>(r: Result<T>, clunk: Result<()>): Result<T> {
    if r.Ok? && clunk.Err? then Err(clunk.error) else r
  }

  /** The frame size that the server agreed to, if it speaks this version. */
  function AgreedSize(answer: Result<Response>): Result<u32> {
    match answer
    case Ok(m) => if m.RVersion? && m.version == VERSION_L then Ok(m.msize) else Err(Invalid)
    case Err(e) => Err(e)
  }

  /** Takes an answer apart. */
  method Hear(tag: u16, reply: Result<seq<Byte>>, ghost outcome: Result<Response>) returns (r: Result<Response>)
    ensures reply == EncodeResponse(tag, AsReply(outcome)) && (outcome.Ok? ==> !outcome.value.Lerror?) ==>
      Hears(outcome, r)
    ensures reply.Err? ==> r.Err?
  {
    ReplyTravels(tag, outcome);
    if reply.Err? {
      return Err(reply.error);
    }
    var decoded := DecodeResponseFrame(reply.value);
    if decoded.Err? {
      return Err(decoded.error);
    }
    var (responseTag, response) := decoded.value;
    if responseTag != tag {
      return Err(Invalid);
    }
    match response
    case Lerror(ecode) => return Err(ErrorOfErrno(ecode));
    case _ => return Ok(response);
  }

  class NinePClient<S> {
    const server: NinePServer<S>
    var msize: u32
    var nextTag: u16
    var nextFid: u32
    /** The longest Twrite or Rread frame so far. */
    ghost var largest: nat

    constructor (server: NinePServer<S>)
      ensures this.server == server && msize == DEFAULT_MSIZE && nextFid == 2 && largest == 0
    {
      this.server, msize, nextTag, nextFid, largest := server, DEFAULT_MSIZE, 1, 2, 0;
    }

    /** What a frame of data may take: the negotiated size, but never less than one byte of data. */
    function Room(): nat
      reads this`msize
    {
      if msize < 24 then 24 else msize
    }

    /** The server's table is sound, fid 1 is the root, and the fid counter is ahead of every fid. */
    ghost predicate Ready()
      reads this`nextFid, this`msize, this`largest, server
    {
      && Sound(server.fids) && ROOT_FID in server.fids && server.fids[ROOT_FID].path == ROOT
      && 2 <= nextFid && (forall fid :: fid in server.fids ==> fid < nextFid)
      && largest <= Room()
    }

    /** Agrees on the version and the frame size, and attaches fid 1 to the root. */
    method Connect() returns (r: Result<()>)
      requires Sound(server.fids) && (forall fid :: fid in server.fids ==> fid < 2) && nextFid == 2
      requires msize == DEFAULT_MSIZE && largest == 0
      modifies this`nextTag, this`largest, this`msize, server
      ensures server.fs == old(server.fs) && (r.Ok? <==> server.ops.lstat(server.fs, ROOT).Ok?)
      ensures r.Ok? ==> Ready() && msize == DEFAULT_MSIZE && server.fids == old(server.fids)[ROOT_FID := Unopened(ROOT)]
      ensures r.Err? ==> server.fids == old(server.fids)
    {
      VersionTravels();
      var version, outcome := Call(TVersion(DEFAULT_MSIZE, VERSION_L));
      VersionOutcome(server.ops, old(server.fs), old(server.fids), outcome, version, server.fs, server.fids);
      var agreed := AgreedSize(version);
      if agreed.Err? {
        return Err(Invalid);
      }
      msize := agreed.value;
      r := Attach();
    }

    method Attach() returns (r: Result<()>)
      requires Sound(server.fids) && largest <= Room()
      modifies this`nextTag, this`largest, server
      ensures Sound(server.fids) && largest <= Room() && server.fs == old(server.fs)
      ensures (r.Ok? <==> server.ops.lstat(server.fs, ROOT).Ok?)
      ensures server.fids == if r.Ok? then old(server.fids)[ROOT_FID := Unopened(ROOT)] else old(server.fids)
    {
      AttachTextual();
      var answer, outcome := Call(TAttach(ROOT_FID, NOFID, USER, [], 0));
      AttachOutcome(server.ops, old(server.fs), old(server.fids), outcome, answer, server.fs, server.fids);
      match answer
      case Ok(m) => return if m.RAttach? then Ok(()) else Err(Invalid);
      case Err(e) => return Err(e);
    }

    method AllocTag() returns (tag: u16)
      modifies this`nextTag
      ensures tag == (if old(nextTag) == 0xFFFF then 0 else old(nextTag)) && nextTag == (tag + 1) % 0x1_0000
    {
      tag := nextTag;
      nextTag := (nextTag + 1) % 0x1_0000;
      if tag == NOTAG {
        tag := nextTag;
        nextTag := (nextTag + 1) % 0x1_0000;
      }
    }

    method AllocFid() returns (fid: u32)
      modifies this`nextFid
      ensures fid == old(nextFid) && nextFid == (old(nextFid) + 1) % 0x1_0000_0000
    {
      fid := nextFid;
      nextFid := (nextFid + 1) % 0x1_0000_0000;
    }

    /** Sends one request as a frame. The ghost result is the outcome on the server. */
    method Send(tag: u16, req: Request) returns (reply: Result<seq<Byte>>, ghost outcome: Result<Response>)
      requires Sound(server.fids) && AllTextual(RequestFields(req))
      modifies server
      ensures Sound(server.fids)
      ensures if Encodable(req) then Served(server.ops, old(server.fs), old(server.fids), req, outcome, server.fs,
          server.fids)
                                     && reply == EncodeResponse(tag, AsReply(outcome))
              else reply.Err? && server.fs == old(server.fs) && server.fids == old(server.fids)
    {
      var frame := EncodeRequestFrame(tag, req);
      if frame.Err? {
        return Err(frame.error), Err(frame.error);
      }
      RequestRoundTrip(tag, req);
      ghost var done;
      reply, done := server.HandleFrame(frame.value);
      outcome := done.value.outcome;
    }

    /** One request and its answer, as frames. */
    method Call(req: Request) returns (r: Result<Response>, ghost outcome: Result<Response>)
      requires Sound(server.fids) && largest <= Room() && AllTextual(RequestFields(req))
      requires req.TWrite? ==> 23 + |req.data| <= Room()
      requires req.TRead? ==> 11 + req.count <= Room()
      modifies this`nextTag, this`largest, server
      ensures Sound(server.fids) && largest <= Room()
      ensures Answered(server.ops, old(server.fs), old(server.fids), req, outcome, r, server.fs, server.fids)
    {
      var tag := AllocTag();
      var reply;
      reply, outcome := Send(tag, req);
      ghost var longest := DataFrames(tag, req, reply);
      if Encodable(req) {
        ServedFramesFit(server.ops, old(server.fs), old(server.fids), tag, req, reply, outcome, server.fs, server.fids,
            Room());
      }
      largest := if longest > largest then longest else largest;
      r := Hear(tag, reply, outcome);
    }

    /** Removes the fid; a pending attribute value is committed by this. */
    method ClunkFid(fid: u32) returns (r: Result<()>)
      requires Sound(server.fids) && largest <= Room()
      modifies this`nextTag, this`largest, server
      ensures Sound(server.fids) && largest <= Room()
      ensures Clunked(server.ops, old(server.fs), old(server.fids), fid, r, server.fs, server.fids)
    {
      FidRequestFits(TClunk(fid));
      var answer, outcome := Call(TClunk(fid));
      r := if answer.Err? then Err(answer.error) else if answer.value.RClunk? then Ok(()) else Err(Invalid);
      ClunkOutcome(server.ops, old(server.fs), old(server.fids), fid, outcome, server.fs, server.fids, answer);
    }

    /** Asks for a walk from the root; the answer says whether it went all the way. */
    method AskWalk(fid: u32, path: Text) returns (r: Result<bool>)
      requires Ready() && fid !in server.fids && ValidPath(path) && AllUtf8(Components(path))
      modifies this`nextTag, this`largest, server
      ensures Sound(server.fids) && largest <= Room()
      ensures WalkAnswer(server.ops, old(server.fs), old(server.fids), fid, path, r, server.fs, server.fids)
    {
      var names := if path == ROOT then [] else Split(path);
      var answer, outcome := Call(TWalk(ROOT_FID, fid, names));
      WalkIsAnswered(server.ops, old(server.fs), old(server.fids), fid, path, outcome, answer, server.fs, server.fids);
      return WentAllTheWay(answer, |names|);
    }

    /** Binds a new fid to the path; a walk that stops on the way is undone. */
    method WalkPath(path: Text) returns (r: Result<u32>)
      requires Ready() && nextFid + 1 < 0x1_0000_0000 && ValidPath(path) && AllUtf8(Components(path))
      modifies this`nextTag, this`nextFid, this`largest, server
      ensures Ready() && nextFid <= old(nextFid) + 1 && server.fs == old(server.fs)
      ensures r.Ok? <==> PathThere(server.ops, server.fs, path)
      ensures r.Ok? ==> r.value == old(nextFid) < nextFid && server.fids == old(server.fids)[r.value := Unopened(path)]
      ensures r.Err? ==> server.fids == old(server.fids)
    {
      var fid := AllocFid();
      var whole := AskWalk(fid, path);
      match whole
      case Ok(all) =>
        if all {
          return Ok(fid);
        }
        var _ := ClunkFid(fid);
        return Err(NotFound);
      case Err(e) => return Err(e);
    }

    method WalkFid(name: Text) returns (r: Result<u32>)
      requires Ready() && nextFid + 1 < 0x1_0000_0000 && Utf8(name)
      modifies this`nextTag, this`nextFid, this`largest, server
      ensures Ready() && nextFid <= old(nextFid) + 1 && server.fs == old(server.fs)
      ensures r.Ok? <==> Reaches(server.ops, server.fs, name)
      ensures r.Ok? ==>
        r.value == old(nextFid) && server.fids == old(server.fids)[r.value := Unopened(ClientPath(name).value)]
      ensures r.Err? ==> server.fids == old(server.fids)
    {
      var path :- ClientPath(name);
      ClientPathUtf8(name);
      r := WalkPath(path);
    }

    /** Asks something about a path's fid and gives the fid back. */
    method Ask(req: Request, fid: u32) returns (r: Result<Response>, ghost outcome: Result<Response>)
      requires Ready() && LeavesTable(req) && AllTextual(RequestFields(req))
      requires fid in server.fids && fid != ROOT_FID && server.fids[fid].handle.NoHandle?
      modifies this`nextTag, this`largest, server
      ensures Ready() && server.fids == old(server.fids) - {fid}
      ensures Answered(server.ops, old(server.fs), old(server.fids), req, outcome, r, server.fs, old(server.fids))
    {
      r, outcome := Call(req);
      TableStays(server.ops, old(server.fs), old(server.fids), req, outcome, r, server.fs, server.fids);
      ghost var after := server.fs;
      var clunk := ClunkFid(fid);
      assert server.fs == after && clunk == Ok(());
      r := And(r, clunk);
    }

    method Stat(name: Text) returns (r: Result<Meta>)
      requires Ready() && nextFid + 1 < 0x1_0000_0000 && Utf8(name)
      modifies this`nextTag, this`nextFid, this`largest, server
      ensures Ready() && nextFid <= old(nextFid) + 1 && server.fids == old(server.fids) && server.fs == old(server.fs)
      ensures r.Ok? <==> Reaches(server.ops, server.fs, name) && server.ops.lstat(server.fs, ClientPath(name).value).Ok?
      ensures r.Ok? ==> r == server.ops.lstat(server.fs, ClientPath(name).value)
    {
      var path :- ClientPath(name);
      ClientPathUtf8(name);
      r := StatPath(path);
    }

    method StatPath(path: Text) returns (r: Result<Meta>)
      requires Ready() && nextFid + 1 < 0x1_0000_0000 && ValidPath(path) && AllUtf8(Components(path))
      modifies this`nextTag, this`nextFid, this`largest, server
      ensures Ready() && nextFid <= old(nextFid) + 1 && server.fids == old(server.fids) && server.fs == old(server.fs)
      ensures r.Ok? <==> PathThere(server.ops, server.fs, path) && server.ops.lstat(server.fs, path).Ok?
      ensures r.Ok? ==> r == server.ops.lstat(server.fs, path)
    {
      var fid :- WalkPath(path);
      ghost var walked := server.fids;
      FidRequestFits(TGetAttr(fid, ATTR_BASIC));
      var answer, outcome := Ask(TGetAttr(fid, ATTR_BASIC), fid);
      StatOutcome(server.ops, old(server.fs), walked, fid, outcome, answer, server.fs, walked);
      var attributes :- answer;
      return if attributes.RGetAttr? then Ok(MetaFromAttr(attributes.attr)) else Err(Invalid);
    }

    method SetAttrs(name: Text, a: SetAttr) returns (r: Result<()>)
      requires Ready() && nextFid + 1 < 0x1_0000_0000 && Utf8(name)
      modifies this`nextTag, this`nextFid, this`largest, server
      ensures Ready() && nextFid <= old(nextFid) + 1 && server.fids == old(server.fids)
      ensures !Reaches(server.ops, old(server.fs), name) ==> r.Err? && server.fs == old(server.fs)
      ensures Reaches(server.ops, old(server.fs), name) ==>
        SetAttrDone(server.ops, old(server.fs), ClientPath(name).value, a, r.Ok?, server.fs)
    {
      var fid :- WalkFid(name);
      r := AskSetAttr(fid, a);
    }

    method AskSetAttr(fid: u32, a: SetAttr) returns (r: Result<()>)
      requires Ready() && fid in server.fids && fid != ROOT_FID && server.fids[fid].handle.NoHandle?
      modifies this`nextTag, this`largest, server
      ensures Ready() && server.fids == old(server.fids) - {fid}
      ensures SetAttrDone(server.ops, old(server.fs), old(server.fids)[fid].path, a, r.Ok?, server.fs)
    {
      FidRequestFits(TSetAttr(fid, a));
      var answer, outcome := Ask(TSetAttr(fid, a), fid);
      SetAttrOutcome(server.ops, old(server.fs), old(server.fids), fid, a, outcome, answer, server.fs,
          old(server.fids));
      match answer
      case Ok(m) => return if m.RSetAttr? then Ok(()) else Err(Invalid);
      case Err(e) => return Err(e);
    }

    /** `chmod`: the permission bits, and nothing else of the mode. */
    method SetMode(name: Text, mode: Mode) returns (r: Result<()>)
      requires Ready() && nextFid + 1 < 0x1_0000_0000 && Utf8(name)
      modifies this`nextTag, this`nextFid, this`largest, server
      ensures Ready() && nextFid <= old(nextFid) + 1 && server.fids == old(server.fids)
      ensures ClientPath(name).Err? ==> r.Err? && server.fs == old(server.fs)
      ensures ClientPath(name).Ok? ==>
        var path := ClientPath(name).value;
        MadeChange(server.ops, old(server.fs), PathThere(server.ops, old(server.fs), path),
            Chmod(path, mode.perm), r.Ok?, server.fs)
    {
      var a := SetAttr(1, mode.perm, 0, 0, 0, 0, 0, 0, 0);
      r := SetAttrs(name, a);
      if Reaches(server.ops, old(server.fs), name) {
        OneAttributeDone(server.ops, old(server.fs), ClientPath(name).value, a, r.Ok?, server.fs);
      }
    }

    /** `chown`: both at once, once the server has looked at the path. */
    method SetOwner(name: Text, uid: u32, gid: u32) returns (r: Result<()>)
      requires Ready() && nextFid + 1 < 0x1_0000_0000 && Utf8(name)
      modifies this`nextTag, this`nextFid, this`largest, server
      ensures Ready() && nextFid <= old(nextFid) + 1 && server.fids == old(server.fids)
      ensures ClientPath(name).Err? ==> r.Err? && server.fs == old(server.fs)
      ensures ClientPath(name).Ok? ==>
        var path := ClientPath(name).value;
        MadeChange(server.ops, old(server.fs), PathThere(server.ops, old(server.fs), path)
              && server.ops.lstat(old(server.fs), path).Ok?,
            Chown(path, uid, gid), r.Ok?, server.fs)
    {
      var a := SetAttr(6, 0, uid, gid, 0, 0, 0, 0, 0);
      r := SetAttrs(name, a);
      if Reaches(server.ops, old(server.fs), name) {
        OneAttributeDone(server.ops, old(server.fs), ClientPath(name).value, a, r.Ok?, server.fs);
      }
    }

    /** `truncate` */
    method SetSize(name: Text, size: u64) returns (r: Result<()>)
      requires Ready() && nextFid + 1 < 0x1_0000_0000 && Utf8(name)
      modifies this`nextTag, this`nextFid, this`largest, server
      ensures Ready() && nextFid <= old(nextFid) + 1 && server.fids == old(server.fids)
      ensures ClientPath(name).Err? ==> r.Err? && server.fs == old(server.fs)
      ensures ClientPath(name).Ok? ==>
        var path := ClientPath(name).value;
        MadeChange(server.ops, old(server.fs), PathThere(server.ops, old(server.fs), path),
            Truncate(path, size), r.Ok?, server.fs)
    {
      var a := SetAttr(8, 0, 0, 0, size, 0, 0, 0, 0);
      r := SetAttrs(name, a);
      if Reaches(server.ops, old(server.fs), name) {
        OneAttributeDone(server.ops, old(server.fs), ClientPath(name).value, a, r.Ok?, server.fs);
      }
    }

    /** `chtimes`: the time of the last modification, as given. */
    method SetTime(name: Text, seconds: u64, nanoseconds: u32) returns (r: Result<()>)
      requires Ready() && nextFid + 1 < 0x1_0000_0000 && Utf8(name)
      modifies this`nextTag, this`nextFid, this`largest, server
      ensures Ready() && nextFid <= old(nextFid) + 1 && server.fids == old(server.fids)
      ensures ClientPath(name).Err? ==> r.Err? && server.fs == old(server.fs)
      ensures ClientPath(name).Ok? ==>
        var path := ClientPath(name).value;
        MadeChange(server.ops, old(server.fs), PathThere(server.ops, old(server.fs), path),
            Chtimes(path, seconds, nanoseconds), r.Ok?, server.fs)
    {
      var a := SetAttr(288, 0, 0, 0, 0, 0, 0, seconds, nanoseconds);
      r := SetAttrs(name, a);
      if Reaches(server.ops, old(server.fs), name) {
        OneAttributeDone(server.ops, old(server.fs), ClientPath(name).value, a, r.Ok?, server.fs);
      }
    }

    method Mkdir(name: Text, perm: Perm) returns (r: Result<()>)
      requires Ready() && nextFid + 1 < 0x1_0000_0000 && Utf8(name)
      modifies this`nextTag, this`nextFid, this`largest, server
      ensures Ready() && nextFid <= old(nextFid) + 1 && server.fids == old(server.fids)
      ensures ClientPath(name).Err? ==> r.Err? && server.fs == old(server.fs)
      ensures ClientPath(name).Ok? ==>
        var path := ClientPath(name).value;
        MadeChange(server.ops, old(server.fs), EntryThere(server.ops, old(server.fs), path), MakeDir(path, perm), r.Ok?,
            server.fs)
    {
      var path :- ClientPath(name);
      ClientPathUtf8(name);
      if path == ROOT {
        return Err(Invalid);
      }
      r := MkdirPath(path, perm);
    }

    method MkdirPath(path: Text, perm: Perm) returns (r: Result<()>)
      requires Ready() && nextFid + 1 < 0x1_0000_0000 && ValidPath(path) && AllUtf8(Components(path)) && path != ROOT
      modifies this`nextTag, this`nextFid, this`largest, server
      ensures Ready() && nextFid <= old(nextFid) + 1 && server.fids == old(server.fids)
      ensures MadeChange(server.ops, old(server.fs), EntryThere(server.ops, old(server.fs), path), MakeDir(path, perm),
          r.Ok?, server.fs)
    {
      ParentUtf8(path);
      var fid :- WalkPath(ParentPath(path));
      MkdirIsAboutPath(server.fids, fid, BaseName(path), path, perm);
      r := AskEffect(TMkdir(fid, BaseName(path), perm, 0), fid, MakeDir(path, perm));
    }

    /** Asks for one change through one fid. */
    method AskEffect(req: Request, fid: u32, ghost c: Change) returns (r: Result<()>)
      requires Ready() && AsksOneChange(req) && NamesUtf8(req) && EffectOf(server.fids, req) == Some(c)
      requires fid in server.fids && fid != ROOT_FID && server.fids[fid].handle.NoHandle?
      modifies this`nextTag, this`largest, server
      ensures Ready() && server.fids == old(server.fids) - {fid}
      ensures MadeChange(server.ops, old(server.fs), NamesFit(req), c, r.Ok?, server.fs)
    {
      EffectEncodable(req);
      var answer, outcome := Ask(req, fid);
      EffectOutcome(server.ops, old(server.fs), old(server.fids), req, c, outcome, answer, server.fs, old(server.fids));
      match answer
      case Ok(m) => return if ResponseType(m) == RequestType(req) + 1 then Ok(()) else Err(Invalid);
      case Err(e) => return Err(e);
    }

    method Symlink(target: Text, name: Text) returns (r: Result<()>)
      requires Ready() && nextFid + 1 < 0x1_0000_0000 && Utf8(name) && Utf8(target)
      modifies this`nextTag, this`nextFid, this`largest, server
      ensures Ready() && nextFid <= old(nextFid) + 1 && server.fids == old(server.fids)
      ensures ClientPath(name).Err? ==> r.Err? && server.fs == old(server.fs)
      ensures ClientPath(name).Ok? ==>
        var path := ClientPath(name).value;
        MadeChange(server.ops, old(server.fs), EntryThere(server.ops, old(server.fs), path) && |target| < MAX_NAME,
                   SymlinkPath(target, path), r.Ok?, server.fs)
    {
      var path :- ClientPath(name);
      ClientPathUtf8(name);
      r := SymlinkAt(target, path);
    }

    method SymlinkAt(target: Text, path: Text) returns (r: Result<()>)
      requires Ready() && nextFid + 1 < 0x1_0000_0000 && ValidPath(path) && AllUtf8(Components(path)) && Utf8(target)
      modifies this`nextTag, this`nextFid, this`largest, server
      ensures Ready() && nextFid <= old(nextFid) + 1 && server.fids == old(server.fids)
      ensures MadeChange(server.ops, old(server.fs),
          EntryThere(server.ops, old(server.fs), path) && |target| < MAX_NAME,
                         SymlinkPath(target, path), r.Ok?, server.fs)
    {
      ParentUtf8(path);
      var fid :- WalkPath(ParentPath(path));
      SymlinkIsAboutPath(server.fids, fid, path, target);
      r := AskMaybe(TSymlink(fid, BaseName(path), target, 0), fid,
          path != ROOT && |BaseName(path)| < MAX_NAME && |target| < MAX_NAME, SymlinkPath(target, path));
    }

    /** Asks for one change through one fid, or for nothing the server would do. */
    method AskMaybe(req: Request, fid: u32, ghost wanted: bool, ghost c: Change) returns (r: Result<()>)
      requires Ready() && Requests(server.fids, req, wanted, c)
      requires fid in server.fids && fid != ROOT_FID && server.fids[fid].handle.NoHandle?
      modifies this`nextTag, this`largest, server
      ensures Ready() && server.fids == old(server.fids) - {fid}
      ensures MadeChange(server.ops, old(server.fs), wanted, c, r.Ok?, server.fs)
    {
      if EffectOf(server.fids, req).Some? {
        r := AskEffect(req, fid, c);
      } else {
        EffectEncodable(req);
        var answer, outcome := Ask(req, fid);
        NoEffectOutcome(server.ops, old(server.fs), old(server.fids), req, outcome, answer, server.fs,
            old(server.fids));
        return Err(answer.error);
      }
    }

    method Readlink(name: Text) returns (r: Result<Text>)
      requires Ready() && nextFid + 1 < 0x1_0000_0000 && Utf8(name)
      requires forall p :: server.ops.readlink(server.fs, p).Ok? ==> Utf8(server.ops.readlink(server.fs, p).value)
      modifies this`nextTag, this`nextFid, this`largest, server
      ensures Ready() && nextFid <= old(nextFid) + 1 && server.fids == old(server.fids) && server.fs == old(server.fs)
      ensures r.Ok? <==>
        && Reaches(server.ops, server.fs, name) && server.ops.readlink(server.fs, ClientPath(name).value).Ok?
        && |server.ops.readlink(server.fs, ClientPath(name).value).value| < MAX_NAME
      ensures r.Ok? ==> r == server.ops.readlink(server.fs, ClientPath(name).value)
    {
      var fid :- WalkFid(name);
      ghost var walked := server.fids;
      FidRequestFits(TReadlink(fid));
      var answer, outcome := Ask(TReadlink(fid), fid);
      ReadlinkOutcome(server.ops, old(server.fs), walked, fid, outcome, answer, server.fs, walked);
      match answer
      case Ok(m) => return if m.RReadlink? then Ok(m.target) else Err(Invalid);
      case Err(e) => return Err(e);
    }

    /** Removes an entry as the kind of thing it was just seen to be. */
    method Remove(name: Text) returns (r: Result<()>)
      requires Ready() && nextFid + 2 < 0x1_0000_0000 && Utf8(name)
      modifies this`nextTag, this`nextFid, this`largest, server
      ensures Ready() && nextFid <= old(nextFid) + 2 && server.fids == old(server.fids)
      ensures ClientPath(name).Err? ==> r.Err? && server.fs == old(server.fs)
      ensures ClientPath(name).Ok? ==>
        var path := ClientPath(name).value;
        MadeChange(server.ops, old(server.fs), Removable(server.ops, old(server.fs), path), RemovePath(path), r.Ok?,
            server.fs)
    {
      var path :- ClientPath(name);
      ClientPathUtf8(name);
      if path == ROOT {
        return Err(Invalid);
      }
      var meta :- StatPath(path);
      r := RemoveSeen(path, meta.mode.kind);
    }

    method RemoveSeen(path: Text, kind: FileKind) returns (r: Result<()>)
      requires Ready() && nextFid + 1 < 0x1_0000_0000 && ValidPath(path) && AllUtf8(Components(path)) && path != ROOT
      modifies this`nextTag, this`nextFid, this`largest, server
      ensures Ready() && nextFid <= old(nextFid) + 1 && server.fids == old(server.fids)
      ensures MadeChange(server.ops, old(server.fs),
          EntryThere(server.ops, old(server.fs), path) && Unlinkable(server.ops, old(server.fs), path, kind.Directory?),
          RemovePath(path), r.Ok?, server.fs)
    {
      ParentUtf8(path);
      var fid :- WalkPath(ParentPath(path));
      UnlinkTextual(fid, path, RemoveFlags(kind));
      FlagsSayKind(kind);
      r := AskUnlink(fid, BaseName(path), path, RemoveFlags(kind));
    }

    method AskUnlink(fid: u32, name: Text, ghost path: Text, flags: u32) returns (r: Result<()>)
      requires Ready() && AllTextual(RequestFields(TUnlinkAt(fid, name, flags)))
      requires fid in server.fids && fid != ROOT_FID && server.fids[fid].handle.NoHandle?
      requires ValidPart(name) && path == JoinPath(server.fids[fid].path, name)
      modifies this`nextTag, this`largest, server
      ensures Ready() && server.fids == old(server.fids) - {fid}
      ensures MadeChange(server.ops, old(server.fs),
          |name| < MAX_NAME && Unlinkable(server.ops, old(server.fs), path, Bit(flags, 512)), RemovePath(path), r.Ok?,
          server.fs)
    {
      var answer, outcome := Ask(TUnlinkAt(fid, name, flags), fid);
      UnlinkOutcome(server.ops, old(server.fs), old(server.fids), fid, name, path, flags, outcome, answer, server.fs,
          old(server.fids));
      match answer
      case Ok(m) => return if m.RUnlinkAt? then Ok(()) else Err(Invalid);
      case Err(e) => return Err(e);
    }

    /** Two walks; when only the second fails, the fid of the first stays behind. */
    method WalkTwo(p: Text, q: Text) returns (r: Result<(u32, u32)>)
      requires Ready() && nextFid + 2 < 0x1_0000_0000
      requires ValidPath(p) && AllUtf8(Components(p)) && ValidPath(q) && AllUtf8(Components(q))
      modifies this`nextTag, this`nextFid, this`largest, server
      ensures Ready() && nextFid <= old(nextFid) + 2 && server.fs == old(server.fs)
      ensures r.Ok? <==> PathThere(server.ops, server.fs, p) && PathThere(server.ops, server.fs, q)
      ensures r.Ok? ==> old(nextFid) == r.value.0 < r.value.1
                        && server.fids == old(server.fids)[r.value.0 := Unopened(p)][r.value.1 := Unopened(q)]
                        && r.value.1 !in old(server.fids)
      ensures r.Err? ==> server.fids == AfterTwo(server.ops, server.fs, old(server.fids), old(nextFid), p, q)
    {
      var first :- WalkPath(p);
      var second :- WalkPath(q);
      return Ok((first, second));
    }

    /** Asks for one change through two fids and gives both back. */
    method AskTwo(req: Request, first: u32, second: u32, ghost wanted: bool, ghost c: Change) returns (r: Result<()>)
      requires Ready() && Requests(server.fids, req, wanted, c)
      requires first in server.fids && first != ROOT_FID && server.fids[first].handle.NoHandle?
      requires second in server.fids && second != ROOT_FID && server.fids[second].handle.NoHandle? && first != second
      modifies this`nextTag, this`largest, server
      ensures Ready() && server.fids == old(server.fids) - {first} - {second}
      ensures MadeChange(server.ops, old(server.fs), wanted, c, r.Ok?, server.fs)
    {
      r := AskMaybe(req, first, wanted, c);
      ghost var after := server.fs;
      var clunk := ClunkFid(second);
      assert server.fs == after;
      r := And(r, clunk);
    }

    /** Renames one path to another. When only the second walk fails, the fid of the first stays
        behind; otherwise the fid table is as before. */
    method Rename(oldName: Text, newName: Text) returns (r: Result<()>)
      requires Ready() && nextFid + 2 < 0x1_0000_0000 && Utf8(oldName) && Utf8(newName)
      modifies this`nextTag, this`nextFid, this`largest, server
      ensures Ready() && nextFid <= old(nextFid) + 2
      ensures ClientPath(oldName).Err? || ClientPath(newName).Err? ==>
        r.Err? && server.fs == old(server.fs) && server.fids == old(server.fids)
      ensures ClientPath(oldName).Ok? && ClientPath(newName).Ok? ==>
        var from, to, ops, s := ClientPath(oldName).value, ClientPath(newName).value, server.ops, old(server.fs);
        && server.fids == AfterTwo(ops, s, old(server.fids), old(nextFid), ParentPath(from), ParentPath(to))
        && MadeChange(ops, s, EntryThere(ops, s, from) && EntryThere(ops, s, to), RenamePath(from, to), r.Ok?,
            server.fs)
    {
      var from :- ClientPath(oldName);
      var to :- ClientPath(newName);
      ClientPathUtf8(oldName);
      ClientPathUtf8(newName);
      r := RenamePaths(from, to);
    }

    method RenamePaths(from: Text, to: Text) returns (r: Result<()>)
      requires Ready() && nextFid + 2 < 0x1_0000_0000
      requires ValidPath(from) && AllUtf8(Components(from)) && ValidPath(to) && AllUtf8(Components(to))
      modifies this`nextTag, this`nextFid, this`largest, server
      ensures Ready() && nextFid <= old(nextFid) + 2
      ensures var ops, s := server.ops, old(server.fs);
        && server.fids == AfterTwo(ops, s, old(server.fids), old(nextFid), ParentPath(from), ParentPath(to))
        && MadeChange(ops, s, EntryThere(ops, s, from) && EntryThere(ops, s, to), RenamePath(from, to), r.Ok?,
            server.fs)
    {
      ParentUtf8(from);
      ParentUtf8(to);
      var fids :- WalkTwo(ParentPath(from), ParentPath(to));
      var (first, second) := fids;
      DropTwo(old(server.fids), first, second, Unopened(ParentPath(from)), Unopened(ParentPath(to)));
      r := RenameOn(first, second, from, to);
    }

    method RenameOn(first: u32, second: u32, from: Text, to: Text) returns (r: Result<()>)
      requires Ready() && ValidPath(from) && AllUtf8(Components(from)) && ValidPath(to) && AllUtf8(Components(to))
      requires first != ROOT_FID && first in server.fids && server.fids[first] == Unopened(ParentPath(from))
      requires second != ROOT_FID && second in server.fids && server.fids[second] == Unopened(ParentPath(to))
      requires first != second
      modifies this`nextTag, this`largest, server
      ensures Ready() && server.fids == old(server.fids) - {first} - {second}
      ensures MadeChange(server.ops, old(server.fs),
          from != ROOT && to != ROOT && |BaseName(from)| < MAX_NAME && |BaseName(to)| < MAX_NAME,
                         RenamePath(from, to), r.Ok?, server.fs)
    {
      ghost var wanted := from != ROOT && to != ROOT && |BaseName(from)| < MAX_NAME && |BaseName(to)| < MAX_NAME;
      RenameRequests(server.fids, first, second, from, to, wanted);
      r := AskTwo(TRenameAt(first, BaseName(from), second, BaseName(to)), first, second, wanted, RenamePath(from, to));
    }

    /** Links a new name to an existing path; fids as for renaming. */
    method Link(oldName: Text, newName: Text) returns (r: Result<()>)
      requires Ready() && nextFid + 2 < 0x1_0000_0000 && Utf8(oldName) && Utf8(newName)
      modifies this`nextTag, this`nextFid, this`largest, server
      ensures Ready() && nextFid <= old(nextFid) + 2
      ensures
        (|| ClientPath(oldName).Err? || ClientPath(newName).Err?
         || ClientPath(oldName).value == ROOT || ClientPath(newName).value == ROOT) ==>
        r.Err? && server.fs == old(server.fs) && server.fids == old(server.fids)
      ensures
        (&& ClientPath(oldName).Ok? && ClientPath(newName).Ok?
         && ClientPath(oldName).value != ROOT && ClientPath(newName).value != ROOT) ==>
        var from, to, ops, s := ClientPath(oldName).value, ClientPath(newName).value, server.ops, old(server.fs);
        && server.fids == AfterTwo(ops, s, old(server.fids), old(nextFid), from, ParentPath(to))
        && MadeChange(ops, s, PathThere(ops, s, from) && EntryThere(ops, s, to), LinkPath(from, to), r.Ok?, server.fs)
    {
      var from :- ClientPath(oldName);
      var to :- ClientPath(newName);
      ClientPathUtf8(oldName);
      ClientPathUtf8(newName);
      if from == ROOT || to == ROOT {
        return Err(Invalid);
      }
      r := LinkPaths(from, to);
    }

    method LinkPaths(from: Text, to: Text) returns (r: Result<()>)
      requires Ready() && nextFid + 2 < 0x1_0000_0000 && to != ROOT
      requires ValidPath(from) && AllUtf8(Components(from)) && ValidPath(to) && AllUtf8(Components(to))
      modifies this`nextTag, this`nextFid, this`largest, server
      ensures Ready() && nextFid <= old(nextFid) + 2
      ensures var ops, s := server.ops, old(server.fs);
        && server.fids == AfterTwo(ops, s, old(server.fids), old(nextFid), from, ParentPath(to))
        && MadeChange(ops, s, PathThere(ops, s, from) && EntryThere(ops, s, to), LinkPath(from, to), r.Ok?, server.fs)
    {
      ParentUtf8(to);
      var fids :- WalkTwo(from, ParentPath(to));
      var (first, second) := fids;
      DropTwo(old(server.fids), first, second, Unopened(from), Unopened(ParentPath(to)));
      r := LinkOn(first, second, from, to);
    }

    method LinkOn(first: u32, second: u32, from: Text, to: Text) returns (r: Result<()>)
      requires Ready() && ValidPath(from) && ValidPath(to) && AllUtf8(Components(to)) && to != ROOT
      requires first != ROOT_FID && first in server.fids && server.fids[first] == Unopened(from)
      requires second != ROOT_FID && second in server.fids && server.fids[second] == Unopened(ParentPath(to))
      requires first != second
      modifies this`nextTag, this`largest, server
      ensures Ready() && server.fids == old(server.fids) - {first} - {second}
      ensures MadeChange(server.ops, old(server.fs), |BaseName(to)| < MAX_NAME, LinkPath(from, to), r.Ok?, server.fs)
    {
      LinkIsAboutPaths(server.fids, first, second, from, to);
      r := AskTwo(TLink(first, second, BaseName(to)), first, second, |BaseName(to)| < MAX_NAME, LinkPath(from, to));
    }

    // ----- extended attributes -----

    /** Writes the value in chunks that fill a frame. */
    method WriteAllFid(fid: u32, value: seq<Byte>, ghost name: Text) returns (r: Result<()>)
      requires Sound(server.fids) && largest <= Room() && |value| < 0x1_0000_0000_0000_0000
      requires fid in server.fids && server.fids[fid].handle == XattrWrite(NewState(name, 0, |value|))
      modifies this`nextTag, this`largest, server
      ensures Sound(server.fids) && largest <= Room() && server.fs == old(server.fs) && r == Ok(())
      ensures fid in server.fids
      ensures server.fids == old(server.fids)[fid := old(server.fids)[fid].(handle := server.fids[fid].handle)]
      ensures server.fids[fid].handle.XattrWrite? && Sent(server.fids[fid].handle.write, name, value, |value|)
    {
      var count := if msize < 24 then 1 else msize - 23;
      var offset: nat := 0;
      NothingSent(name, value);
      while offset < |value|
        invariant offset <= |value| && Sound(server.fids) && largest <= Room() && server.fs == old(server.fs)
        invariant fid in server.fids
        invariant server.fids == old(server.fids)[fid := old(server.fids)[fid].(handle := server.fids[fid].handle)]
        invariant server.fids[fid].handle.XattrWrite? && Sent(server.fids[fid].handle.write, name, value, offset)
      {
        var end := if offset + count < |value| then offset + count else |value|;
        var written := WriteChunk(fid, offset, end, value, name);
        if written.Err? {
          return written;
        }
        offset := end;
      }
      return Ok(());
    }

    method WriteChunk(fid: u32, offset: u64, end: nat, value: seq<Byte>, ghost name: Text) returns (r: Result<()>)
      requires Sound(server.fids) && largest <= Room() && fid in server.fids && server.fids[fid].handle.XattrWrite?
      requires offset <= end <= |value| && 23 + end - offset <= Room()
      requires Sent(server.fids[fid].handle.write, name, value, offset)
      modifies this`nextTag, this`largest, server
      ensures Sound(server.fids) && largest <= Room() && server.fs == old(server.fs) && r == Ok(())
      ensures fid in server.fids
      ensures server.fids == old(server.fids)[fid := old(server.fids)[fid].(handle := server.fids[fid].handle)]
      ensures server.fids[fid].handle.XattrWrite? && Sent(server.fids[fid].handle.write, name, value, end)
    {
      var chunk := value[offset..end];
      var answer, outcome := Call(TWrite(fid, offset, chunk));
      WriteOutcome(server.ops, old(server.fs), old(server.fids), fid, offset, chunk, outcome, answer, server.fs,
          server.fids);
      SentMore(old(server.fids)[fid].handle.write, name, value, offset, end, server.fids[fid].handle.write);
      return WholeChunk(answer, |chunk|);
    }

    /** Turns the fid into one for the attribute and writes the whole value to it. */
    method SendXattr(fid: u32, name: Text, value: seq<Byte>) returns (r: Result<()>)
      requires Sound(server.fids) && largest <= Room() && |value| < 0x1_0000_0000_0000_0000 && Utf8(name)
      requires fid in server.fids
      modifies this`nextTag, this`largest, server
      ensures Sound(server.fids) && largest <= Room() && server.fs == old(server.fs)
      ensures r.Ok? <==> name != [] && |name| < MAX_NAME
      ensures r.Err? ==> server.fids == old(server.fids)
      ensures r.Ok? ==>
        && r == Ok(()) && fid in server.fids && server.fids == old(server.fids)[fid := server.fids[fid]]
           && server.fids[fid].path == old(server.fids)[fid].path
        && server.fids[fid].handle.XattrWrite? && Sent(server.fids[fid].handle.write, name, value, |value|)
    {
      CreateTextual(fid, name, |value|);
      var answer, outcome := Call(TXattrCreate(fid, name, |value|, 0));
      CreateOutcome(server.ops, old(server.fs), old(server.fids), fid, name, |value|, outcome, answer, server.fs,
          server.fids);
      if answer.Err? {
        return Err(answer.error);
      }
      if !answer.value.RXattrCreate? {
        return Err(Invalid);
      }
      r := WriteAllFid(fid, value, name);
    }

    /** Sets an attribute: the backing gets exactly this value, once, or nothing at all. */
    method SetXattr(path: Text, name: Text, value: seq<Byte>) returns (r: Result<()>)
      requires Ready() && nextFid + 1 < 0x1_0000_0000 && Utf8(path) && Utf8(name) && |value| < 0x1_0000_0000_0000_0000
      modifies this`nextTag, this`nextFid, this`largest, server
      ensures Ready() && nextFid <= old(nextFid) + 1 && server.fids == old(server.fids)
      ensures if Reaches(server.ops, old(server.fs), path) && name != [] && |name| < MAX_NAME
              then XattrSet(server.ops, old(server.fs), ClientPath(path).value, name, value, r, server.fs)
              else server.fs == old(server.fs) && r.Err?
    {
      var fid :- WalkFid(path);
      r := WriteXattr(fid, name, value);
    }

    /** Writes the value through a path's fid and gives the fid back, which commits the value. */
    method WriteXattr(fid: u32, name: Text, value: seq<Byte>) returns (r: Result<()>)
      requires Ready() && Utf8(name) && |value| < 0x1_0000_0000_0000_0000
      requires fid in server.fids && fid != ROOT_FID && server.fids[fid].handle.NoHandle?
      modifies this`nextTag, this`largest, server
      ensures Ready() && server.fids == old(server.fids) - {fid}
      ensures if name != [] && |name| < MAX_NAME
              then XattrSet(server.ops, old(server.fs), old(server.fids)[fid].path, name, value, r, server.fs)
              else server.fs == old(server.fs) && r.Err?
    {
      r := SendXattr(fid, name, value);
      if r.Ok? { SentAll(server.fids[fid].handle.write, name, value); }
      var clunk := ClunkFid(fid);
      r := And(r, clunk);
    }

    /** A fid from which the attribute's value can be read, and the length of the value. */
    method XattrWalkFid(path: Text, name: Text) returns (r: Result<(u32, u64)>)
      requires Ready() && nextFid + 2 < 0x1_0000_0000 && ValidPath(path) && AllUtf8(Components(path)) && Utf8(name)
      modifies this`nextTag, this`nextFid, this`largest, server
      ensures Ready() && nextFid <= old(nextFid) + 2 && server.fs == old(server.fs)
      ensures r.Ok? <==> PathThere(server.ops, server.fs, path) && |name| < MAX_NAME && Sendable(XattrData(server.ops,
          server.fs, path, name))
      ensures r.Err? ==> server.fids == old(server.fids)
      ensures r.Ok? ==> var data := XattrData(server.ops, server.fs, path, name).value;
        && r.value.0 !in old(server.fids) && r.value.0 != ROOT_FID && r.value.1 == |data|
        && server.fids == old(server.fids)[r.value.0 := FidState(path, XattrRead(data), RDONLY)]
    {
      var fid :- WalkPath(path);
      r := XattrWalkFrom(fid, name);
    }

    /** Exchanges a path's fid for one of the attribute's value. */
    method XattrWalkFrom(fid: u32, name: Text) returns (r: Result<(u32, u64)>)
      requires Ready() && nextFid + 1 < 0x1_0000_0000 && Utf8(name)
      requires fid in server.fids && fid != ROOT_FID && server.fids[fid].handle.NoHandle?
      modifies this`nextTag, this`nextFid, this`largest, server
      ensures Ready() && nextFid == old(nextFid) + 1 && server.fs == old(server.fs)
      ensures r.Ok? <==>
        |name| < MAX_NAME && Sendable(XattrData(server.ops, server.fs, old(server.fids)[fid].path, name))
      ensures r.Err? ==> server.fids == old(server.fids) - {fid}
      ensures r.Ok? ==> var data := XattrData(server.ops, server.fs, old(server.fids)[fid].path, name).value;
        && r.value == (old(nextFid), |data|) && old(nextFid) !in old(server.fids)
        && server.fids
            == (old(server.fids) - {fid})[old(nextFid) := FidState(old(server.fids)[fid].path, XattrRead(data), RDONLY)]
    {
      var newfid := AllocFid();
      var size := AskXattrWalk(fid, newfid, name);
      var clunk := ClunkFid(fid);
      var both := And(size, clunk);
      if both.Ok? {
        return Ok((newfid, both.value));
      }
      var _ := ClunkFid(newfid);
      return Err(both.error);
    }

    method AskXattrWalk(fid: u32, newfid: u32, name: Text) returns (r: Result<u64>)
      requires Sound(server.fids) && largest <= Room() && fid in server.fids && newfid !in server.fids && Utf8(name)
      modifies this`nextTag, this`largest, server
      ensures Sound(server.fids) && largest <= Room() && server.fs == old(server.fs)
      ensures r.Ok? <==>
        |name| < MAX_NAME && Sendable(XattrData(server.ops, server.fs, old(server.fids)[fid].path, name))
      ensures r.Err? ==> server.fids == old(server.fids)
      ensures r.Ok? ==> var data := XattrData(server.ops, server.fs, old(server.fids)[fid].path, name).value;
        r.value == |data|
        && server.fids == old(server.fids)[newfid := FidState(old(server.fids)[fid].path, XattrRead(data), RDONLY)]
    {
      XattrWalkTextual(fid, newfid, name);
      var answer, outcome := Call(TXattrWalk(fid, newfid, name));
      XattrWalkOutcome(server.ops, old(server.fs), old(server.fids), fid, newfid, name, outcome, answer, server.fs,
          server.fids);
      if answer.Err? {
        return Err(answer.error);
      }
      return if answer.value.RXattrWalk? then Ok(answer.value.size) else Err(Invalid);
    }

    /** Reads in pieces until `size` bytes have come. */
    method ReadAllFid(fid: u32, size: u64) returns (r: Result<seq<Byte>>)
      requires Sound(server.fids) && largest <= Room()
      requires fid in server.fids && server.fids[fid].handle.XattrRead? && size == |server.fids[fid].handle.data|
      modifies this`nextTag, this`largest, server
      ensures Sound(server.fids) && largest <= Room() && server.fs == old(server.fs) && server.fids == old(server.fids)
      ensures r == Ok(server.fids[fid].handle.data)
    {
      var count: u32 := if msize < 12 then 1 else msize - 11;
      var data: seq<Byte> := [];
      ghost var value := server.fids[fid].handle.data;
      while |data| < size
        invariant Sound(server.fids) && largest <= Room() && server.fs == old(server.fs)
        invariant server.fids == old(server.fids)
        invariant |data| <= size && data == value[..|data|]
        decreases size - |data|
      {
        var chunk := ReadChunk(fid, |data|, if count < size - |data| then count else size - |data|);
        if chunk.Err? {
          return chunk;
        }
        Middle(value, |data|, |chunk.value|);
        data := data + chunk.value;
      }
      TakeAll(value);
      return Ok(data);
    }

    method ReadChunk(fid: u32, offset: u64, count: u32) returns (r: Result<seq<Byte>>)
      requires Sound(server.fids) && largest <= Room() && 11 + count <= Room() && count > 0
      requires fid in server.fids && server.fids[fid].handle.XattrRead? && offset < |server.fids[fid].handle.data|
      modifies this`nextTag, this`largest, server
      ensures Sound(server.fids) && largest <= Room() && server.fs == old(server.fs) && server.fids == old(server.fids)
      ensures r == Ok(Slice(server.fids[fid].handle.data, offset, count)) && r.value != []
    {
      FidRequestFits(TRead(fid, offset, count));
      var answer, outcome := Call(TRead(fid, offset, count));
      ReadReply(server.ops, old(server.fs), old(server.fids), fid, offset, count, outcome, answer, server.fs,
          server.fids);
      return NextChunk(answer);
    }

    /** Reads an attribute: every byte of the value, in order, or an error. */
    method GetXattr(path: Text, name: Text) returns (r: Result<seq<Byte>>)
      requires Ready() && nextFid + 2 < 0x1_0000_0000 && Utf8(path) && Utf8(name)
      modifies this`nextTag, this`nextFid, this`largest, server
      ensures Ready() && nextFid <= old(nextFid) + 2 && server.fids == old(server.fids) && server.fs == old(server.fs)
      ensures r.Ok? <==> Readable(server.ops, server.fs, path, name)
      ensures r.Ok? ==> r == XattrData(server.ops, server.fs, ClientPath(path).value, name)
    {
      var cleaned :- ClientPath(path);
      ClientPathUtf8(path);
      r := ReadXattr(cleaned, name);
    }

    method ReadXattr(path: Text, name: Text) returns (r: Result<seq<Byte>>)
      requires Ready() && nextFid + 2 < 0x1_0000_0000 && ValidPath(path) && AllUtf8(Components(path)) && Utf8(name)
      modifies this`nextTag, this`nextFid, this`largest, server
      ensures Ready() && nextFid <= old(nextFid) + 2 && server.fids == old(server.fids) && server.fs == old(server.fs)
      ensures r.Ok? <==> PathThere(server.ops, server.fs, path) && |name| < MAX_NAME && Sendable(XattrData(server.ops,
          server.fs, path, name))
      ensures r.Ok? ==> r == XattrData(server.ops, server.fs, path, name)
    {
      var source :- XattrWalkFid(path, name);
      var (fid, size) := source;
      var data := ReadAllFid(fid, size);
      var clunk := ClunkFid(fid);
      return And(data, clunk);
    }

    /** Lists the attributes' names, sorted. */
    method ListXattrs(path: Text) returns (r: Result<seq<Text>>)
      requires Ready() && nextFid + 2 < 0x1_0000_0000 && Utf8(path)
      modifies this`nextTag, this`nextFid, this`largest, server
      ensures Ready() && nextFid <= old(nextFid) + 2 && server.fids == old(server.fids) && server.fs == old(server.fs)
      ensures r.Ok? ==> Readable(server.ops, server.fs, path, [])
      ensures Readable(server.ops, server.fs, path, []) ==>
        var names := server.ops.listXattrs(server.fs,
            ClientPath(path).value).value; Nameable(names) ==> r == Ok(SortNames(names))
    {
      var data :- GetXattr(path, []);
      ghost var cleaned := ClientPath(path).value;
      NamesComeBack(server.ops.listXattrs(server.fs, cleaned).value);
      return DecodeXattrNames(data);
    }

    /** Sets an attribute and reads it back. If the backing keeps what it was given and its paths
        stay where they were, the bytes come back. */
    method SetThenGet(path: Text, name: Text, value: seq<Byte>) returns (set_: Result<()>, got: Result<seq<Byte>>)
      requires Ready() && nextFid + 3 < 0x1_0000_0000 && Utf8(path) && Utf8(name) && |value| < 0x1_0000_0000_0000_0000
      requires ClientPath(path).Ok? ==> KeepsXattr(server.ops, server.fs, ClientPath(path).value, name, value)
      modifies this`nextTag, this`nextFid, this`largest, server
      ensures Ready() && nextFid <= old(nextFid) + 3 && server.fids == old(server.fids)
      ensures set_.Ok? ==> got == Ok(value)
    {
      set_ := SetXattr(path, name, value);
      got := GetXattr(path, name);
    }

    // ----- directories -----

    /** Opens an existing path; a fid that cannot be opened is given back. */
    method OpenPath(path: Text, flags: u32) returns (r: Result<u32>)
      requires Ready() && nextFid + 1 < 0x1_0000_0000 && ValidPath(path) && AllUtf8(Components(path))
      modifies this`nextTag, this`nextFid, this`largest, server
      ensures Ready() && nextFid <= old(nextFid) + 1
      ensures r.Ok? <==> Openable(server.ops, old(server.fs), path, flags)
      ensures server.fs == if PathThere(server.ops, old(server.fs), path)
          then Opened(server.ops, old(server.fs), path, flags).0
          else old(server.fs)
      ensures r.Err? ==> server.fids == old(server.fids)
      ensures r.Ok? ==>
        && r.value == old(nextFid) && r.value !in old(server.fids)
        && server.fids == old(server.fids)[r.value := FidState(path,
            FileHandle(Opened(server.ops, old(server.fs), path, flags).1.value), flags)]
    {
      var fid :- WalkPath(path);
      var done := AskOpen(fid, flags);
      if done.Ok? {
        return Ok(fid);
      }
      var _ := ClunkFid(fid);
      return Err(done.error);
    }

    method AskOpen(fid: u32, flags: u32) returns (r: Result<()>)
      requires Sound(server.fids) && largest <= Room() && fid in server.fids
      modifies this`nextTag, this`largest, server
      ensures Sound(server.fids) && largest <= Room()
      ensures var path := old(server.fids)[fid].path; var file := Opened(server.ops, old(server.fs), path, flags);
        && server.fs == file.0 && (r.Ok? <==> file.1.Ok? && server.ops.lstat(file.0, path).Ok?)
        && (r.Ok? ==> server.fids == old(server.fids)[fid := FidState(path, FileHandle(file.1.value), flags)])
        && (r.Err? ==> server.fids == old(server.fids))
    {
      FidRequestFits(TLopen(fid, flags));
      var answer, outcome := Call(TLopen(fid, flags));
      LopenOutcome(server.ops, old(server.fs), old(server.fids), fid, flags, outcome, answer, server.fs, server.fids);
      match answer
      case Ok(m) => return if m.RLopen? then Ok(()) else Err(Invalid);
      case Err(e) => return Err(e);
    }

    method ReadPage(fid: u32, offset: u64, count: u32) returns (r: Result<seq<Byte>>)
      requires Sound(server.fids) && largest <= Room() && fid in server.fids && 11 + count < 0x1_0000_0000
      modifies this`nextTag, this`largest, server
      ensures Sound(server.fids) && largest <= Room() && server.fs == old(server.fs) && server.fids == old(server.fids)
      ensures r == Heard(PageData(server.ops, server.fs, server.fids[fid].path, offset, count))
    {
      FidRequestFits(TReaddir(fid, offset, count));
      var answer, outcome := Call(TReaddir(fid, offset, count));
      ReaddirOutcome(server.ops, old(server.fs), old(server.fids), fid, offset, count, outcome, answer, server.fs,
          server.fids);
      return DataOf(answer);
    }

    /** What a page leaves room for: the frame without its header and some slack. */
    function PageRoom(): u32
      requires 0 <= msize
      reads this`msize
    {
      if msize < 24 then 0 else msize - 24
    }

    /** One page, decoded. */
    method ReadDirents(fid: u32, offset: u64, ghost entries: seq<Dirent>) returns (page: Result<seq<Dirent>>)
      requires Sound(server.fids) && largest <= Room() && fid in server.fids
      requires WellListed(server.ops, server.fs, server.fids[fid].path)
      requires Collected(server.ops, server.fs, server.fids[fid].path, PageRoom(), offset, entries)
      modifies this`nextTag, this`largest, server
      ensures Sound(server.fids) && largest <= Room() && server.fs == old(server.fs) && server.fids == old(server.fids)
      ensures CollectedMore(server.ops, server.fs, server.fids[fid].path, PageRoom(), offset, entries, page)
    {
      var data := ReadPage(fid, offset, PageRoom());
      CollectMore(server.ops, server.fs, server.fids[fid].path, PageRoom(), offset, entries);
      return DecodePage(data);
    }

    /** Collects the pages of a directory until an empty one comes. */
    method ReadEntries(fid: u32) returns (r: Result<seq<Dirent>>)
      requires Sound(server.fids) && largest <= Room() && fid in server.fids
      requires WellListed(server.ops, server.fs, server.fids[fid].path)
      modifies this`nextTag, this`largest, server
      ensures Sound(server.fids) && largest <= Room() && server.fs == old(server.fs) && server.fids == old(server.fids)
      ensures r == Heard(DirListing(server.ops, server.fs, server.fids[fid].path, PageRoom()))
    {
      ghost var path := server.fids[fid].path;
      var offset: u64 := 0;
      var entries: seq<Dirent> := [];
      CollectNothing(server.ops, server.fs, path, PageRoom());
      while true
        invariant Sound(server.fids) && largest <= Room() && server.fs == old(server.fs)
        invariant server.fids == old(server.fids)
        invariant offset <= EntryCount(server.ops, server.fs, path)
        invariant Collected(server.ops, server.fs, path, PageRoom(), offset, entries)
        decreases EntryCount(server.ops, server.fs, path) - offset
      {
        var page := ReadDirents(fid, offset, entries);
        if page.Err? {
          return page;
        }
        if page.value == [] {
          return Ok(entries);
        }
        offset := page.value[|page.value| - 1].offset;
        entries := entries + page.value;
      }
    }

    /** Lists a directory and closes it again. */
    method ReadDir(name: Text) returns (r: Result<seq<DirEntry>>)
      requires Ready() && nextFid + 1 < 0x1_0000_0000 && Utf8(name)
      requires ClientPath(name).Ok? ==>
        WellListed(server.ops, Opened(server.ops, server.fs, ClientPath(name).value, RDONLY).0, ClientPath(name).value)
      modifies this`nextTag, this`nextFid, this`largest, server
      ensures Ready() && nextFid <= old(nextFid) + 1 && server.fids == old(server.fids)
      ensures ClientPath(name).Err? || !Openable(server.ops, old(server.fs), ClientPath(name).value, RDONLY) ==> r.Err?
      ensures ClientPath(name).Ok? && Openable(server.ops, old(server.fs), ClientPath(name).value, RDONLY) ==>
        var path := ClientPath(name).value;
        var file := Opened(server.ops, old(server.fs), path, RDONLY);
        var closed := server.ops.closeFile(file.0, file.1.value);
        && server.fs == closed.0
        && r == match Heard(DirListing(server.ops, file.0, path, PageRoom()))
             case Err(e) => Err(e)
             case Ok(ds) => if closed.1.Ok? then Ok(Shown(ds)) else Err(Carried(closed.1).error)
    {
      var path :- ClientPath(name);
      ClientPathUtf8(name);
      var fid :- OpenPath(path, RDONLY);
      var entries := ReadEntries(fid);
      var closed := ClunkFid(fid);
      var kept := And(entries, closed);
      return if kept.Ok? then Ok(Shown(kept.value)) else Err(kept.error);
    }
  }

  /** A file system with nothing in it but its root, whose states are numbers that never change. */
  const EMPTY_FS: Fs<nat> := Fs(
    (s, path) => if path == ROOT then Ok(Meta(Mode(Directory, 493), 0, 0, 0, 0, 0)) else Err(NotFound),
    (s, path) => if path == ROOT then Ok([]) else Err(NotFound),
    (s, path) => Err(NotFound),
    (s, path, name) => Err(NotFound),
    (s, path) => Err(NotFound),
    (s, path, name, value) => (s, Err(NotFound)),
    (s, path, flags, perm) => (s, Err(NotFound)),
    (s, file) => Err(NotFound),
    (s, file, offset, count) => (s, Err(NotFound)),
    (s, file, offset, data) => (s, Err(NotFound)),
    (s, file) => (s, Err(NotFound)),
    (s, file) => (s, Err(NotFound)),
    (s, change) => (s, Err(NotFound)),
    path => 0)

  /** Renaming "a" to "b/c" there fails, and leaves one more fid in the server's table than before. */
  method RenameLeaks() returns (failed: bool, before: nat, after: nat)
    ensures failed && before == 1 && after == 2
  {
    var server := new NinePServer(EMPTY_FS, 0);
    var client := new NinePClient(server);
    var connected := client.Connect();
    ghost var t := server.fids;
    before := |server.fids|;
    var a, bc: Text := [97], [98, 47, 99];
    LeakingPaths();
    var r := client.Rename(a, bc);
    assert server.fids == t[2 := Unopened(ROOT)];
    failed, after := r.Err?, |server.fids|;
  }

  /** A name that is allowed in a message, but too long for any page of a listing. */
  const LONG: Text := seq(65500, i => 97)

  const LONG_LISTING: seq<DirEntry> := [DirEntry(LONG, Regular), DirEntry([98], Regular)]

  /** The same file system with two files in its root; the first has the long name. */
  const LONG_FS: Fs<nat> := EMPTY_FS.(
    lstat := (s, path) => Ok(Meta(if path == ROOT then Mode(Directory, 493) else Mode(Regular, 420), 0, 0, 0, 0, 0)),
    readDir := (s, path) => if path == ROOT then Ok(LONG_LISTING) else Err(NotDir),
    openFile := (s, path, flags, perm) => (s, Ok(0)),
    closeFile := (s, file) => (s, Ok(())))

  /** Listing its root shows an empty directory, and no error. */
  method LongNameHidesAll() returns (there: nat, seen: Result<seq<DirEntry>>)
    ensures there == 2 && seen == Ok([])
  {
    var server := new NinePServer(LONG_FS, 0);
    var client := new NinePClient(server);
    var connected := client.Connect();
    RootPath();
    LongListing();
    there := |server.ops.readDir(server.fs, ROOT).value|;
    seen := client.ReadDir(ROOT);
  }

  lemma {:induction false} RootPath()
    ensures Utf8(ROOT) && ClientPath(ROOT) == Ok(ROOT) && PathThere(LONG_FS, 0, ROOT)
  {
    RootUtf8();
    CleanFixesValid(ROOT);
    ClientPathKeepsValid(ROOT);
  }

  lemma {:induction false} LongListing()
    ensures WellListed(LONG_FS, 0, ROOT) && DirListing(LONG_FS, 0, ROOT, DEFAULT_MSIZE - 24) == Ok([])
  {
    AsciiIsUtf8(LONG);
    AsciiIsUtf8([98]);
    var rs := Entries(LONG_FS, 0, ROOT).value;
    assert rs[0].Ok? && rs[0].value.name == LONG;
    DirentIsNotEmpty(rs[0].value);
    LongEntryHidesTheRest(rs, 0, DEFAULT_MSIZE - 24);
  }

  lemma {:induction false} LeakingPaths()
    ensures var a, bc: Text := [97], [98, 47, 99];
      && Utf8(a) && Utf8(bc) && ClientPath(a) == Ok(a) && ClientPath(bc) == Ok(bc) && ParentPath(a) == ROOT
      && PathThere(EMPTY_FS, 0, ROOT) && !PathThere(EMPTY_FS, 0, ParentPath(bc))
  {
    AsciiIsUtf8([97]);
    AsciiIsUtf8([98, 47, 99]);
    OneName(97);
    TwoNames();
    OneName(98);
    NothingThere(98);
  }

  lemma {:induction false} OneName(letter: Byte)
    requires 97 <= letter <= 122
    ensures ValidPath([letter]) && Components([letter]) == [[letter]] && ClientPath([letter]) == Ok([letter])
    ensures ParentPath([letter]) == ROOT
  {
    var a: Text := [letter];
    SplitAtSlash(a, []);
    CleanFixesValid(a);
    ClientPathKeepsValid(a);
  }

  lemma {:induction false} TwoNames()
    ensures var bc: Text := [98, 47, 99]; ClientPath(bc) == Ok(bc) && ParentPath(bc) == [98]
  {
    var b, c, bc: Text := [98], [99], [98, 47, 99];
    assert b + [SLASH] + c == bc;
    SplitAtSlash(b, c);
    SplitAtSlash(c, []);
    assert Split(bc) == [b, c];
    CleanFixesValid(bc);
    ClientPathKeepsValid(bc);
    assert Split(bc)[..1] == [b];
  }

  lemma {:induction false} NothingThere(letter: Byte)
    requires 97 <= letter <= 122
    ensures !PathThere(EMPTY_FS, 0, [letter])
  {
    OneName(letter);
    var a: Text := [letter];
    assert [a][..1] == [a] && PathOf([a]) == a;
    assert EMPTY_FS.lstat(0, a).Err?;
  }
}
