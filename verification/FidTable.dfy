/** The 9P server's fid table, and what each request may do to it. (9P: walk(5), clunk(5).) */
module FidTable {
  import opened Wrappers
  import opened Bytes
  import opened Codec
  import opened Messages
  import opened Paths
  import opened XattrBuffer

  type Handle = nat

  datatype FidHandle =
    | NoHandle
    | FileHandle(file: Handle)
    | XattrRead(data: seq<Byte>)
    | XattrWrite(write: XattrWriteState)

  datatype FidState = FidState(path: Text, handle: FidHandle, flags: u32)

  type Table = map<u32, FidState>

  const RDONLY: u32 := 0
  const WRONLY: u32 := 1

  function Unopened(path: Text): FidState {
    FidState(path, NoHandle, 0)
  }

  predicate WalkName(name: Text) {
    name != [] && SLASH !in name
  }

  /** Where walking `names` from `path` leads. */
  function WalkAll(path: Text, names: seq<Text>): Text {
    if names == [] then path else WalkJoin(WalkAll(path, names[..|names| - 1]), names[|names| - 1])
  }

  function CheckedJoin(base: Text, name: Text): Result<Text> {
    if !ValidPart(name) then Err(Invalid) else Ok(JoinPath(base, name))
  }

  /** May `newfid` be bound by a request on `fid`? */
  predicate MayBind(t: Table, fid: u32, newfid: u32) {
    fid in t && (newfid == fid || newfid !in t)
  }

  /** What a request and its outcome say about the table before and after it. */
  ghost predicate TableStep(t: Table, req: Request, r: Result<Response>, u: Table) {
    match req
    case TAttach(fid, _, _, _, _) => u == if r.Ok? then t[fid := Unopened(ROOT)] else t
    case TWalk(fid, newfid, names) =>
      if r.Err? then u == t
      else
        && MayBind(t, fid, newfid) && r.value.RWalk? && |r.value.qids| <= |names|
        && (names != [] ==> r.value.qids != [])
        && (forall i :: 0 <= i < |r.value.qids| ==> WalkName(names[i]))
        && u == t[newfid := Unopened(WalkAll(t[fid].path, names[..|r.value.qids|]))]
    case TLopen(fid, flags) =>
      if r.Err? then u == t
      else fid in t && fid in u && u[fid].handle.FileHandle? && u == t[fid := FidState(t[fid].path, u[fid].handle,
          flags)]
    case TLcreate(fid, name, flags, _, _) =>
      if r.Err? then u == t
      else
        && fid in t && fid in u && u[fid].handle.FileHandle? && CheckedJoin(t[fid].path, name).Ok?
        && u == t[fid := FidState(CheckedJoin(t[fid].path, name).value, u[fid].handle, flags)]
    case TXattrWalk(fid, newfid, _) =>
      if r.Err? then u == t
      else
        && MayBind(t, fid, newfid) && newfid in u && u[newfid].handle.XattrRead?
        && r.value.RXattrWalk? && r.value.size == |u[newfid].handle.data|
        && u == t[newfid := FidState(t[fid].path, u[newfid].handle, RDONLY)]
    case TXattrCreate(fid, name, size, flags) =>
      if r.Err? then u == t
      else fid in t && name != [] && u == t[fid := FidState(t[fid].path, XattrWrite(NewState(name, flags, size)),
          WRONLY)]
    case TWrite(fid, offset, data) =>
      if r.Err? || (fid in t && t[fid].handle.FileHandle?) then u == t
      else
        && fid in t && fid in u && t[fid].handle.XattrWrite? && u[fid].handle.XattrWrite?
        && Wrote(t[fid].handle.write, offset, data, u[fid].handle.write)
        && r.value.RWrite? && r.value.count == |data| && u == t[fid := t[fid].(handle := u[fid].handle)]
    case TFsync(fid) =>
      if r.Err? || fid !in t || !t[fid].handle.XattrWrite? then u == t
      else
        && IsComplete(t[fid].handle.write)
        && u == t[fid := t[fid].(handle := XattrWrite(t[fid].handle.write.(committed := true)))]
    case TClunk(fid) => u == t - {fid}
    case TRemove(fid) => u == t - {fid}
    case _ => u == t
  }

  /** A value being assembled is well formed, and was not committed before it was complete. */
  ghost predicate WriteSound(h: FidHandle) {
    h.XattrWrite? ==> XattrBuffer.Valid(h.write) && (h.write.committed ==> IsComplete(h.write))
  }

  /** Every fid names a clean, valid path, so none lies outside the exported tree. */
  ghost predicate Sound(t: Table) {
    forall fid {:trigger EntrySound(t[fid])} :: fid in t ==> EntrySound(t[fid])
  }

  ghost predicate EntrySound(st: FidState) {
    && ValidPath(st.path) && Clean(st.path) == st.path
    && WriteSound(st.handle)
  }

  lemma {:induction false} WalkAllStaysInside(path: Text, names: seq<Text>)
    requires ValidPath(path) && forall i :: 0 <= i < |names| ==> WalkName(names[i])
    ensures ValidPath(WalkAll(path, names)) && Clean(WalkAll(path, names)) == WalkAll(path, names)
    decreases |names|
  {
    if names == [] {
      CleanFixesValid(path);
    } else {
      WalkAllStaysInside(path, names[..|names| - 1]);
      WalkJoinStaysInside(WalkAll(path, names[..|names| - 1]), names[|names| - 1]);
      CleanFixesValid(WalkAll(path, names));
    }
  }

  /** In terms of components a walk is a fold that never climbs above the root. */
  lemma {:induction false} WalkAllOnComponents(path: Text, names: seq<Text>)
    requires ValidPath(path) && forall i :: 0 <= i < |names| ==> WalkName(names[i])
    ensures Components(WalkAll(path, names)) == FoldWalk(Components(path), names)
    decreases |names|
  {
    if names != [] {
      WalkAllOnComponents(path, names[..|names| - 1]);
      WalkAllStaysInside(path, names[..|names| - 1]);
      WalkJoinStaysInside(WalkAll(path, names[..|names| - 1]), names[|names| - 1]);
    }
  }

  function FoldWalk(parts: seq<Text>, names: seq<Text>): seq<Text> {
    if names == [] then parts else WalkParts(FoldWalk(parts, names[..|names| - 1]), names[|names| - 1])
  }

  lemma CompletenessSticks(was: XattrWriteState, offset: nat, chunk: seq<Byte>, now: XattrWriteState)
    requires XattrBuffer.Valid(was) && Wrote(was, offset, chunk, now)
    ensures XattrBuffer.Valid(now) && (IsComplete(was) ==> IsComplete(now))
  {
    CompleteIffAllWritten(was);
    CompleteIffAllWritten(now);
  }

  lemma NewStateValid(name: Text, flags: nat, size: nat)
    ensures XattrBuffer.Valid(NewState(name, flags, size))
  {
  }

  /** What a successful request binds is sound when the table was. */
  lemma BoundEntryIsSound(t: Table, req: Request, r: Result<Response>, u: Table, fid: u32)
    requires Sound(t) && TableStep(t, req, r, u) && r.Ok? && fid in u && (fid !in t || u[fid] != t[fid])
    ensures EntrySound(u[fid])
  {
    match req
    case TAttach(_, _, _, _, _) => CleanFixesValid(ROOT);
    case TWalk(own, newfid, names) =>
      assert EntrySound(t[own]);
      WalkAllStaysInside(t[own].path, names[..|r.value.qids|]);
    case TLopen(own, _) => assert EntrySound(t[own]);
    case TLcreate(own, name, _, _, _) =>
      assert EntrySound(t[own]);
      JoinAddsComponent(t[own].path, name);
      CleanFixesValid(JoinPath(t[own].path, name));
    case TXattrWalk(own, _, _) => assert EntrySound(t[own]);
    case TXattrCreate(own, name, size, flags) =>
      assert EntrySound(t[own]);
      NewStateValid(name, flags, size);
    case TWrite(own, offset, data) =>
      assert EntrySound(t[own]);
      CompletenessSticks(t[own].handle.write, offset, data, u[own].handle.write);
    case TFsync(own) => assert EntrySound(t[own]);
    case _ =>
  }

  lemma StepKeepsSound(t: Table, req: Request, r: Result<Response>, u: Table)
    requires Sound(t) && TableStep(t, req, r, u)
    ensures Sound(u)
  {
    forall fid | fid in u ensures EntrySound(u[fid]) {
      if fid in t && u[fid] == t[fid] {
        assert EntrySound(t[fid]);
      } else {
        OnlySuccessBinds(t, req, r, u, fid);
        BoundEntryIsSound(t, req, r, u, fid);
      }
    }
  }

  lemma OnlySuccessBinds(t: Table, req: Request, r: Result<Response>, u: Table, fid: u32)
    requires TableStep(t, req, r, u) && fid in u && (fid !in t || u[fid] != t[fid])
    ensures r.Ok?
  {
  }

  /** One request with its outcome. */
  datatype Exchange = Exchange(request: Request, outcome: Result<Response>)

  /** `tables[i + 1]` follows `tables[i]` by the i-th exchange. */
  ghost predicate IsRun(tables: seq<Table>, exchanges: seq<Exchange>) {
    && |tables| == |exchanges| + 1
    && forall i :: 0 <= i < |exchanges| ==>
      TableStep(tables[i], exchanges[i].request, exchanges[i].outcome, tables[i + 1])
  }

  /** Over any run from an empty table every fid path stays clean, valid and inside the root. */
  lemma {:induction false} EveryRunIsSound(tables: seq<Table>, exchanges: seq<Exchange>, n: nat)
    requires IsRun(tables, exchanges) && tables[0] == map[] && n < |tables|
    ensures Sound(tables[n])
  {
    if n > 0 {
      EveryRunIsSound(tables, exchanges, n - 1);
      StepKeepsSound(tables[n - 1], exchanges[n - 1].request, exchanges[n - 1].outcome, tables[n]);
    }
  }

  /** The fid that a request names as its own, if it may rebind or release it. */
  function OwnFid(req: Request): Option<u32> {
    match req
    case TAttach(own, _, _, _, _) => Some(own)
    case TWalk(_, newfid, _) => Some(newfid)
    case TXattrWalk(_, newfid, _) => Some(newfid)
    case TLopen(own, _) => Some(own)
    case TLcreate(own, _, _, _, _) => Some(own)
    case TXattrCreate(own, _, _, _) => Some(own)
    case TWrite(own, _, _) => Some(own)
    case TFsync(own) => Some(own)
    case TClunk(own) => Some(own)
    case TRemove(own) => Some(own)
    case _ => None
  }

  /** Over any run a live fid stays what it was until a request names it as its own. */
  lemma {:induction false} OtherFidsStay(tables: seq<Table>, exchanges: seq<Exchange>, from: nat, to: nat, fid: u32)
    requires IsRun(tables, exchanges) && from <= to < |tables| && fid in tables[from]
    requires forall i :: from <= i < to ==> OwnFid(exchanges[i].request) != Some(fid)
    ensures fid in tables[to] && tables[to][fid] == tables[from][fid]
  {
    if from < to {
      OtherFidsStay(tables, exchanges, from, to - 1, fid);
      StepKeepsOthers(tables[to - 1], exchanges[to - 1].request, exchanges[to - 1].outcome, tables[to], fid);
    }
  }

  lemma StepKeepsOthers(t: Table, req: Request, r: Result<Response>, u: Table, fid: u32)
    requires TableStep(t, req, r, u) && fid in t && OwnFid(req) != Some(fid)
    ensures fid in u && u[fid] == t[fid]
  {
  }

  /** The fids that the requests would release: Tclunk and Tremove do so even when they fail. */
  function Released(exchanges: seq<Exchange>): set<u32> {
    if exchanges == [] then {}
    else
      Released(exchanges[..|exchanges| - 1])
      + match exchanges[|exchanges| - 1].request case TClunk(fid) => {fid} case TRemove(fid) => {fid} case _ => {}
  }

  /** Over any run of requests all answered with errors, the table loses the fids of Tclunk and Tremove
      and is otherwise as it was. */
  lemma {:induction false} ErrorsChangeNothing(tables: seq<Table>, exchanges: seq<Exchange>)
    requires IsRun(tables, exchanges) && forall i :: 0 <= i < |exchanges| ==> exchanges[i].outcome.Err?
    ensures tables[|exchanges|] == tables[0] - Released(exchanges)
    decreases |exchanges|
  {
    if exchanges != [] {
      var n := |exchanges| - 1;
      ErrorsChangeNothing(tables[..n + 1], exchanges[..n]);
      assert tables[..n + 1][n] == tables[n];
      ErrorStep(tables[n], exchanges[n].request, exchanges[n].outcome, tables[n + 1]);
    }
  }

  lemma ErrorStep(t: Table, req: Request, r: Result<Response>, u: Table)
    requires TableStep(t, req, r, u) && r.Err?
    ensures u == t - match req case TClunk(fid) => {fid} case TRemove(fid) => {fid} case _ => {}
  {
  }
}
