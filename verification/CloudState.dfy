/** The state manager of the cloud backend, and the workspace it talks to. Each
    operation is given twice: as a function on values, which the protocol uses,
    and as a method that updates the fields the way the source does. */
module CloudState {
  import opened Options

  /** A state, in the marshalled form by which states are compared. */
  type Payload = string

  /** What is stored when there is no state object at all. */
  const EMPTY_STATE: Payload := ""

  const MAX_SERIAL: nat := 0xFFFF_FFFF_FFFF_FFFF
  const MAX_RECORDED: nat := 0x7FFF_FFFF_FFFF_FFFF

  type Serial = n: nat | n <= 0xFFFF_FFFF_FFFF_FFFF

  /** Incrementing an unsigned 64-bit counter. */
  function Increment(n: Serial): Serial {
    if n == MAX_SERIAL then 0 else n + 1
  }

  /** Conversion of an unsigned 64-bit number to a signed one. */
  function AsInt64(n: Serial): int {
    if n <= MAX_RECORDED then n else n - MAX_SERIAL - 1
  }

  /** A stored state version. The serial occurs twice: in the uploaded file, from
      which it is read back, and as a signed number in the request, which is what
      the server records. `forced` is the flag of the request. */
  datatype Snapshot = Snapshot(lineage: string, serial: Serial, recorded: int, state: Payload, forced: bool)

  function Version(lineage: string, serial: Serial, state: Payload): Snapshot {
    Snapshot(lineage, serial, AsInt64(serial), state, false)
  }

  datatype Server = Server(snapshots: seq<Snapshot>, locked: bool)

  function Current(srv: Server): Snapshot
    requires srv.snapshots != []
  {
    srv.snapshots[|srv.snapshots| - 1]
  }

  datatype Manager = Manager(
    lineage: string, readLineage: string,
    serial: Serial, readSerial: Serial,
    state: Option<Payload>, readState: Option<Payload>,
    uploadErr: bool, forcePush: bool, lockInfo: Option<string>, disableLocks: bool)

  const NEW_MANAGER := Manager("", "", 0, 0, None, None, false, false, None, false)

  // --------------------------------------------------- operations on values

  /** Writing no state object at all is allowed. */
  function Write(m: Manager, p: Option<Payload>): Manager {
    m.(state := p, forcePush := false)
  }

  function Refresh(m: Manager, srv: Server): Manager {
    if srv.snapshots == [] then m.(readState := None, lineage := "", serial := 0)
    else
      var s := Current(srv);
      m.(lineage := s.lineage, serial := s.serial, state := Some(s.state),
         readLineage := s.lineage, readSerial := s.serial, readState := Some(s.state))
  }

  /** What the world answers during one persist: whether the current snapshot can
      be fetched, the new lineage if one can be generated, whether the state can
      be encoded, and whether the upload works. */
  datatype PersistEnv = PersistEnv(fetch: bool, uuid: Option<string>, encode: bool, upload: bool)

  predicate Unchanged(m: Manager)
    requires m.readState.Some?
  {
    && m.state == m.readState
    && m.readLineage != "" && m.lineage == m.readLineage
    && m.readSerial != 0 && m.serial == m.readSerial
  }

  /** The manager as it is just before the upload, or None if an error came first;
      in both cases with the fields as they are left. */
  function Prepare(m: Manager, srv: Server, env: PersistEnv): (Manager, bool) {
    if m.readState.Some? then (m.(serial := Increment(m.serial)), env.encode)
    else if !env.fetch then (m, false)
    else
      var r := Refresh(m, srv);
      if r.lineage != "" then (r, env.encode)
      else if env.uuid.None? then (r, false)
      else (r.(lineage := env.uuid.value, serial := Increment(r.serial)), env.encode)
  }

  /** What is stored for a state object or for none. */
  function Content(state: Option<Payload>): Payload {
    if state.Some? then state.value else EMPTY_STATE
  }

  function ToUpload(m: Manager): Snapshot {
    Version(m.lineage, m.serial, Content(m.state)).(forced := m.forcePush)
  }

  function Persist(m: Manager, srv: Server, env: PersistEnv): (Manager, Server) {
    if m.readState.Some? && Unchanged(m) then (m, srv)
    else
      var (r, ready) := Prepare(m, srv, env);
      if !ready then (r, srv)
      else if !env.upload then (r.(uploadErr := true), srv)
      else (r.(readState := r.state, readLineage := r.lineage, readSerial := r.serial),
            srv.(snapshots := srv.snapshots + [ToUpload(r)]))
  }

  datatype LockResult = LockResult(m: Manager, srv: Server, ok: bool)

  function Lock(m: Manager, srv: Server, id: string, reachable: bool): LockResult {
    if m.disableLocks then LockResult(m, srv, true)
    else if !reachable || srv.locked then LockResult(m, srv, false)
    else LockResult(m.(lockInfo := Some(id)), srv.(locked := true), true)
  }

  /** With no lock information this is a forced unlock, which must name the
      workspace. After an upload error it does nothing and reports success. */
  function Unlock(m: Manager, srv: Server, id: string, workspace: string, reachable: bool): LockResult {
    if m.disableLocks || m.uploadErr then LockResult(m, srv, true)
    else if id != (if m.lockInfo.Some? then m.lockInfo.value else workspace) then LockResult(m, srv, false)
    else if !reachable || !srv.locked then LockResult(m, srv, false)
    else LockResult(m, srv.(locked := false), true)
  }

  // ------------------------------------------------------ operations in place

  class Workspace {
    var snapshots: seq<Snapshot>
    var locked: bool
    const name: string

    function Value(): Server
      reads this
    {
      Server(snapshots, locked)
    }

    constructor (name: string)
      ensures Value() == Server([], false) && this.name == name
    {
      snapshots, locked := [], false;
      this.name := name;
    }
  }

  class StateManager {
    var lineage: string
    var readLineage: string
    var serial: Serial
    var readSerial: Serial
    var state: Option<Payload>
    var readState: Option<Payload>
    var stateUploadErr: bool
    var forcePush: bool
    var lockInfo: Option<string>
    var disableLocks: bool
    const workspace: Workspace

    function Value(): Manager
      reads this
    {
      Manager(lineage, readLineage, serial, readSerial, state, readState,
              stateUploadErr, forcePush, lockInfo, disableLocks)
    }

    constructor (workspace: Workspace)
      ensures Value() == NEW_MANAGER && this.workspace == workspace
    {
      lineage, readLineage := "", "";
      serial, readSerial := 0, 0;
      state, readState := None, None;
      stateUploadErr, forcePush, lockInfo, disableLocks := false, false, None, false;
      this.workspace := workspace;
    }

    method WriteState(p: Option<Payload>)
      modifies this
      ensures Value() == Write(old(Value()), p)
    {
      state := p;
      forcePush := false;
    }

    method RefreshState(fetch: bool) returns (ok: bool)
      modifies this
      ensures ok == fetch
      ensures Value() == if fetch then Refresh(old(Value()), workspace.Value()) else old(Value())
    {
      if !fetch {
        return false;
      }
      if workspace.snapshots == [] {
        readState := None;
        lineage := "";
        serial := 0;
        return true;
      }
      var file := workspace.snapshots[|workspace.snapshots| - 1];
      lineage := file.lineage;
      serial := file.serial;
      state := Some(file.state);
      readLineage := file.lineage;
      readSerial := file.serial;
      readState := state;
      return true;
    }

    /** The part of a persist before the upload, once there is something to do. */
    method PrepareUpload(env: PersistEnv) returns (ready: bool)
      modifies this
      ensures (Value(), ready) == Prepare(old(Value()), workspace.Value(), env)
    {
      if readState.Some? {
        serial := Increment(serial);
      } else {
        var refreshed := RefreshState(env.fetch);
        if !refreshed {
          return false;
        }
        if lineage == "" {
          if env.uuid.None? {
            return false;
          }
          lineage := env.uuid.value;
          serial := Increment(serial);
        }
      }
      return env.encode;
    }

    method PersistState(env: PersistEnv) returns (ok: bool)
      modifies this, workspace
      ensures (Value(), workspace.Value()) == Persist(old(Value()), old(workspace.Value()), env)
      ensures !ok ==> workspace.Value() == old(workspace.Value())
    {
      if readState.Some? {
        var lineageUnchanged := readLineage != "" && lineage == readLineage;
        var serialUnchanged := readSerial != 0 && serial == readSerial;
        var stateUnchanged := state == readState;
        if stateUnchanged && lineageUnchanged && serialUnchanged {
          return true;
        }
      }
      var ready := PrepareUpload(env);
      if !ready {
        return false;
      }
      if !env.upload {
        stateUploadErr := true;
        return false;
      }
      workspace.snapshots := workspace.snapshots + [ToUpload(Value())];
      readState := state;
      readLineage := lineage;
      readSerial := serial;
      return true;
    }

    method LockState(id: string, reachable: bool) returns (ok: bool)
      modifies this, workspace
      ensures LockResult(Value(), workspace.Value(), ok) == Lock(old(Value()), old(workspace.Value()), id, reachable)
    {
      if disableLocks {
        return true;
      }
      if !reachable || workspace.locked {
        return false;
      }
      workspace.locked := true;
      lockInfo := Some(id);
      return true;
    }

    method UnlockState(id: string, reachable: bool) returns (ok: bool)
      modifies this, workspace
      ensures LockResult(Value(), workspace.Value(), ok)
           == Unlock(old(Value()), old(workspace.Value()), id, workspace.name, reachable)
    {
      if disableLocks {
        return true;
      }
      if stateUploadErr {
        return true;
      }
      if lockInfo.Some? {
        if lockInfo.value != id {
          return false;
        }
      } else if workspace.name != id {
        return false;
      }
      if !reachable || !workspace.locked {
        return false;
      }
      workspace.locked := false;
      return true;
    }
  }

  // ------------------------------------------------------ single operations

  /** A call that reports success has taken or released the lock, unless locks are
      disabled or a failed upload keeps the lock; then nothing changes. */
  lemma LockCallsSucceedIff(m: Manager, srv: Server, id: string, workspace: string, reachable: bool)
    ensures var r := Lock(m, srv, id, reachable);
            && (r.ok <==> m.disableLocks || (!srv.locked && r.srv.locked))
            && (m.disableLocks || !r.ok ==> r.m == m && r.srv == srv)
    ensures var r := Unlock(m, srv, id, workspace, reachable);
            && (r.ok <==> m.disableLocks || m.uploadErr || (srv.locked && !r.srv.locked))
            && (m.disableLocks || m.uploadErr || !r.ok ==> r.srv == srv)
            && r.m == m
  {
  }

  /** With a state read before, a persist in which nothing fails stores nothing exactly
      if what it would upload is what was read, and that has a lineage and a serial. */
  lemma PersistSkipsIff(m: Manager, srv: Server, env: PersistEnv)
    requires m.readState.Some? && env.encode && env.upload
    ensures Persist(m, srv, env).1.snapshots == srv.snapshots
       <==> && m.state.Some? && m.readLineage != "" && m.readSerial != 0
            && ToUpload(m).(forced := false) == Version(m.readLineage, m.readSerial, m.readState.value)
  {
  }

  // ---------------------------------------------------- what can go wrong

  /** Persisting with no state object at all makes the next write disappear: the
      second persist re-reads the workspace over it and uploads the old state
      again under the old serial. */
  lemma PersistWithoutStateLosesNextWrite(uuid: string, p: Payload)
    requires uuid != "" && p != EMPTY_STATE
    ensures var env := PersistEnv(true, Some(uuid), true, true);
            var (m1, srv1) := Persist(Refresh(NEW_MANAGER, Server([], true)), Server([], true), env);
            var (m2, srv2) := Persist(Write(m1, Some(p)), srv1, env);
            && |srv2.snapshots| == 2
            && Current(srv2) == Current(srv1) && Current(srv2).state != p
  {
  }

  /** The server does not know who holds the lock, and a manager keeps its lock
      information after releasing: a second release by the same manager takes
      the lock from whoever acquired it in between. */
  lemma SecondUnlockReleasesAnothersLock(a: Manager, b: Manager, srv: Server,
                                         idA: string, idB: string, workspace: string)
    requires !srv.locked && !a.disableLocks && !b.disableLocks && !a.uploadErr
    ensures var a1 := Lock(a, srv, idA, true);
            var a2 := Unlock(a1.m, a1.srv, idA, workspace, true);
            var b1 := Lock(b, a2.srv, idB, true);
            var a3 := Unlock(a2.m, b1.srv, idA, workspace, true);
            b1.ok && a3.ok && !a3.srv.locked
  {
  }

  /** A changed state gets a greater serial than the one it was read with exactly
      when the counter has not fallen behind that and is not at its maximum. For the
      serial in the file this is the greatest unsigned number, for the recorded one
      the greatest signed one. */
  lemma SerialGrowsUnlessAtMaximum(m: Manager, srv: Server, env: PersistEnv)
    requires m.readState.Some? && !Unchanged(m) && env.encode && env.upload
    ensures var stored := Current(Persist(m, srv, env).1);
            && (stored.serial > m.readSerial <==> m.readSerial <= m.serial != MAX_SERIAL)
            && (stored.recorded > AsInt64(m.readSerial) <==>
                  AsInt64(m.readSerial) <= AsInt64(m.serial) && m.serial != MAX_RECORDED)
  {
  }
}
