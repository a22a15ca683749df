/** Any number of state managers sharing one workspace, each following the
    discipline of the backend: lock, refresh, then write and persist, unlock. */
module CloudProtocol {
  import opened Options
  import opened CloudState

  datatype Phase = Idle | Locked(id: string) | Ready(id: string)

  /** A manager with its place in the discipline and two histories: whether it is
      the one that took the lock, and what it wrote since its last refresh. */
  datatype Session = Session(m: Manager, phase: Phase, holding: bool, written: Option<Option<Payload>>)

  datatype System = System(sessions: seq<Session>, srv: Server, name: string)

  datatype Action =
    | DoLock(id: string, reachable: bool)
    | DoRefresh(fetch: bool)
    | DoWrite(p: Option<Payload>)
    | DoPersist(env: PersistEnv)
    | DoUnlock(reachable: bool)

  predicate Enabled(s: Session, a: Action) {
    match a
    case DoLock(_, _) => s.phase.Idle?
    case DoRefresh(_) => !s.phase.Idle?
    case DoWrite(_) => s.phase.Ready?
    // A generated lineage is not empty.
    case DoPersist(env) => s.phase.Ready? && env.uuid != Some("")
    case DoUnlock(_) => !s.phase.Idle?
  }

  /** A persist with no state read before looks for a snapshot first; if there is
      one, it replaces what was written. */
  predicate ReadsOver(m: Manager, srv: Server, env: PersistEnv) {
    m.readState.None? && srv.snapshots != [] && env.fetch
  }

  function After(s: Session, srv: Server, a: Action, name: string): (Session, Server)
    requires Enabled(s, a)
  {
    match a
    case DoLock(id, reachable) =>
      var r := Lock(s.m, srv, id, reachable);
      (if r.ok then Session(r.m, Locked(id), true, None) else s.(m := r.m), r.srv)
    case DoRefresh(fetch) =>
      (if fetch then Session(Refresh(s.m, srv), Ready(s.phase.id), s.holding, None) else s, srv)
    case DoWrite(p) =>
      (s.(m := Write(s.m, p), written := Some(p)), srv)
    case DoPersist(env) =>
      var (m, srv') := Persist(s.m, srv, env);
      (s.(m := m, written := if ReadsOver(s.m, srv, env) then None else s.written), srv')
    case DoUnlock(reachable) =>
      var r := Unlock(s.m, srv, s.phase.id, name, reachable);
      (Session(r.m, if r.ok then Idle else s.phase, s.holding && r.srv.locked, s.written), r.srv)
  }

  predicate Step(x: System, y: System, i: nat, a: Action) {
    && i < |x.sessions| && Enabled(x.sessions[i], a)
    && var (s, srv) := After(x.sessions[i], x.srv, a, x.name);
    && y == System(x.sessions[i := s], srv, x.name)
  }

  predicate Init(x: System) {
    && x.srv == Server([], false)
    && forall i :: 0 <= i < |x.sessions| ==> x.sessions[i] == Session(NEW_MANAGER, Idle, false, None)
  }

  ghost predicate Next(x: System, y: System) {
    exists i, a :: Step(x, y, i, a)
  }

  ghost predicate IsRun(run: seq<System>) {
    && run != [] && Init(run[0])
    && forall k :: 0 < k < |run| ==> StepsInto(run, k)
  }

  ghost predicate StepsInto(run: seq<System>, k: nat)
    requires 0 < k < |run|
  {
    Next(run[k - 1], run[k])
  }

  lemma PrefixIsRun(run: seq<System>, n: nat)
    requires IsRun(run) && 0 < n <= |run|
    ensures IsRun(run[..n])
  {
    forall k | 0 < k < n
      ensures StepsInto(run[..n], k)
    {
      assert StepsInto(run, k);
    }
  }

  lemma StepInto(run: seq<System>, k: nat) returns (i: nat, a: Action)
    requires IsRun(run) && 0 < k < |run|
    ensures Step(run[k - 1], run[k], i, a)
  {
    assert StepsInto(run, k);
    i, a :| Step(run[k - 1], run[k], i, a);
  }

  // -------------------------------------------------------------- invariant

  /** A session and the server, seen from that session alone. */
  predicate SessionInv(s: Session, srv: Server) {
    && !s.m.disableLocks && !s.m.forcePush
    && (!s.phase.Idle? ==> s.holding && s.m.lockInfo == Some(s.phase.id))
    && (s.holding ==> srv.locked)
    && (s.phase.Idle? && s.holding ==> s.m.uploadErr)
    && (s.m.uploadErr ==> s.holding)
    && (s.phase.Ready? ==> InSync(s.m, srv) || Blank(s.m, srv))
    && (s.phase.Ready? && s.written.Some? ==> s.m.state == s.written.value)
  }

  /** What the manager believes is stored is what is stored. */
  predicate InSync(m: Manager, srv: Server) {
    if m.readState.None? then srv.snapshots == []
    else
      && srv.snapshots != []
      && Current(srv).(forced := false) == Version(m.readLineage, m.readSerial, m.readState.value)
      && m.lineage == m.readLineage
  }

  /** The manager has stored the absence of a state, and does not know that there
      is a snapshot now. */
  predicate Blank(m: Manager, srv: Server) {
    m.readState.None? && srv.snapshots != [] && Current(srv).state == EMPTY_STATE
  }

  predicate OneLineage(srv: Server) {
    forall k :: 0 <= k < |srv.snapshots| ==>
      srv.snapshots[k].lineage == srv.snapshots[0].lineage != ""
  }

  predicate ServerInv(srv: Server) {
    && OneLineage(srv)
    && forall k :: 0 <= k < |srv.snapshots| ==>
         srv.snapshots[k].recorded == AsInt64(srv.snapshots[k].serial) && !srv.snapshots[k].forced
  }

  predicate Inv(x: System) {
    && ServerInv(x.srv)
    && (forall i :: 0 <= i < |x.sessions| ==> SessionInv(x.sessions[i], x.srv))
    && (forall i, j :: 0 <= i < j < |x.sessions| ==> !(x.sessions[i].holding && x.sessions[j].holding))
  }

  /** After an upload the manager and the server agree exactly if there was a state
      object to upload. */
  lemma UploadKeepsSyncIffStatePresent(m: Manager, srv: Server, env: PersistEnv)
    requires InSync(m, srv) && Persist(m, srv, env).1.snapshots != srv.snapshots
    ensures InSync(Persist(m, srv, env).0, Persist(m, srv, env).1) <==> m.state.Some?
  {
  }

  /** Whether the write after an upload survives: exactly if there was a state object
      to upload, or the write stores the absence of a state too. */
  lemma NextWriteSurvivesIff(m: Manager, srv: Server, env: PersistEnv, p: Option<Payload>, next: PersistEnv)
    requires InSync(m, srv) && OneLineage(srv) && env.uuid != Some("")
    requires Persist(m, srv, env).1.snapshots != srv.snapshots
    requires next.fetch && next.encode && next.upload
    ensures var (m1, srv1) := Persist(m, srv, env);
            var (_, srv2) := Persist(Write(m1, p), srv1, next);
            && srv2.snapshots != []
            && (Current(srv2).state == Content(p) <==> m.state.Some? || Content(p) == EMPTY_STATE)
  {
  }

  lemma StoreKeepsServerInv(srv: Server, s: Snapshot)
    requires ServerInv(srv) && s.lineage != "" && s.recorded == AsInt64(s.serial) && !s.forced
    requires srv.snapshots != [] ==> Current(srv).lineage == s.lineage
    ensures ServerInv(srv.(snapshots := srv.snapshots + [s]))
  {
  }

  lemma PersistKeepsSync(m: Manager, srv: Server, env: PersistEnv)
    requires InSync(m, srv) || Blank(m, srv)
    requires ServerInv(srv) && env.uuid != Some("") && !m.forcePush
    ensures var (m', srv') := Persist(m, srv, env);
            && (InSync(m', srv') || Blank(m', srv'))
            && ServerInv(srv') && !m'.forcePush
  {
    var (_, srv') := Persist(m, srv, env);
    if m.readState.Some? {
      assert srv.snapshots != [];
    }
    if srv'.snapshots != srv.snapshots {
      StoreKeepsServerInv(srv, Current(srv'));
    }
  }

  lemma PersistKeepsSession(s: Session, srv: Server, env: PersistEnv, name: string)
    requires SessionInv(s, srv) && ServerInv(srv) && Enabled(s, DoPersist(env))
    ensures var (t, srv') := After(s, srv, DoPersist(env), name);
            SessionInv(t, srv') && ServerInv(srv') && srv'.locked == srv.locked && t.holding
  {
    PersistKeepsSync(s.m, srv, env);
  }

  lemma SessionStepKeepsInv(s: Session, srv: Server, a: Action, name: string)
    requires SessionInv(s, srv) && ServerInv(srv) && Enabled(s, a)
    ensures var (t, srv') := After(s, srv, a, name);
            && SessionInv(t, srv') && ServerInv(srv')
            && (srv'.snapshots != srv.snapshots ==> s.phase.Ready? && s.holding)
            && (srv'.locked != srv.locked ==> s.holding || t.holding)
            && (srv.locked && !s.holding ==> !t.holding)
            && (t.holding && !s.holding ==> !srv.locked)
  {
    match a {
      case DoPersist(env) => PersistKeepsSession(s, srv, env, name);
      case _ =>
    }
  }

  lemma StepKeepsInv(x: System, y: System, i: nat, a: Action)
    requires Inv(x) && Step(x, y, i, a)
    ensures Inv(y)
  {
    var s := x.sessions[i];
    assert SessionInv(s, x.srv);
    SessionStepKeepsInv(s, x.srv, a, x.name);
    forall j | 0 <= j < |y.sessions|
      ensures SessionInv(y.sessions[j], y.srv)
      ensures j != i ==> !(y.sessions[i].holding && y.sessions[j].holding)
    {
      if j != i {
        assert SessionInv(x.sessions[j], x.srv);
      }
    }
  }

  /** Nobody else holds the lock, or is ready, while one session holds it. */
  lemma OtherSessionUndisturbed(x: System, i: nat, j: nat)
    requires Inv(x) && i < |x.sessions| && j < |x.sessions| && i != j
    ensures x.sessions[i].holding ==> !x.sessions[j].holding && x.sessions[j].phase.Idle?
  {
  }

  lemma {:induction false} RunKeepsInv(run: seq<System>)
    requires IsRun(run)
    ensures Inv(run[|run| - 1])
  {
    if |run| > 1 {
      var before := run[..|run| - 1];
      PrefixIsRun(run, |run| - 1);
      RunKeepsInv(before);
      var x, y := run[|run| - 2], run[|run| - 1];
      var i, a := StepInto(run, |run| - 1);
      StepKeepsInv(x, y, i, a);
    }
  }

  // ------------------------------------------------------------ main results

  /** No lost update: whoever stores a snapshot had read the current one, keeps
      its lineage, and stores exactly what it wrote last. The exception is a manager
      that stored the absence of a state before: it stores the same again. */
  lemma NoLostUpdate(run: seq<System>, k: nat, i: nat, a: Action)
    requires IsRun(run) && k + 1 < |run| && Step(run[k], run[k + 1], i, a)
    requires run[k + 1].srv.snapshots != run[k].srv.snapshots
    ensures var s, before, after := run[k].sessions[i], run[k].srv.snapshots, run[k + 1].srv.snapshots;
            && after == before + [Current(run[k + 1].srv)]
            && (Blank(s.m, run[k].srv) ==> Current(run[k + 1].srv) == Current(run[k].srv))
            && (!Blank(s.m, run[k].srv) ==>
                  && Current(run[k + 1].srv).state == Content(s.m.state)
                  && (s.written.Some? ==> Current(run[k + 1].srv).state == Content(s.written.value))
                  && (before != [] ==>
                        && s.m.readState.Some?
                        && Current(run[k].srv) == Version(s.m.readLineage, s.m.readSerial, s.m.readState.value)
                        && Current(run[k + 1].srv).lineage == Current(run[k].srv).lineage))
  {
    PrefixIsRun(run, k + 1);
    RunKeepsInv(run[..k + 1]);
    assert Inv(run[k]);
    assert SessionInv(run[k].sessions[i], run[k].srv);
  }

  /** In every run the stored snapshots share one lineage, which is not empty,
      and at most one manager is between lock and unlock. */
  lemma OneLineageOneHolder(run: seq<System>)
    requires IsRun(run)
    ensures var x := run[|run| - 1];
            && OneLineage(x.srv)
            && forall i, j :: 0 <= i < j < |x.sessions| ==> x.sessions[i].phase.Idle? || x.sessions[j].phase.Idle?
  {
    RunKeepsInv(run);
    var x := run[|run| - 1];
    forall i, j | 0 <= i < j < |x.sessions|
      ensures x.sessions[i].phase.Idle? || x.sessions[j].phase.Idle?
    {
      assert SessionInv(x.sessions[i], x.srv);
      OtherSessionUndisturbed(x, i, j);
    }
  }

  /** Whether an unlock takes the lock from another manager: exactly if the caller
      gives the identifier that this manager last locked with, or the name of the
      workspace if it never did. It is then outside lock and unlock. */
  lemma UnlockTakesAnothersLockIff(run: seq<System>, i: nat, j: nat, id: string, reachable: bool)
    requires IsRun(run) && i != j && i < |run[|run| - 1].sessions| && j < |run[|run| - 1].sessions|
    requires run[|run| - 1].sessions[j].holding
    ensures var x := run[|run| - 1];
            var s := x.sessions[i];
            !Unlock(s.m, x.srv, id, x.name, reachable).srv.locked <==>
              && s.phase.Idle? && reachable
              && id == (if s.m.lockInfo.Some? then s.m.lockInfo.value else x.name)
  {
    RunKeepsInv(run);
    var x := run[|run| - 1];
    assert SessionInv(x.sessions[i], x.srv) && SessionInv(x.sessions[j], x.srv);
    OtherSessionUndisturbed(x, j, i);
  }

  // ------------------------------------------------------------ what is stored

  /** A snapshot like this is already the current one. */
  predicate IsStored(m: Manager, srv: Server) {
    && srv.snapshots != [] && m.state.Some?
    && Current(srv).(forced := false) == Version(m.lineage, m.serial, m.state.value)
  }

  /** When a manager in agreement with the workspace stores a snapshot, and which: if
      nothing goes wrong, always unless the current snapshot is already the one it
      holds. The first snapshot has the new lineage and serial 1, every other one the
      lineage of the current one and the next serial. */
  lemma PersistStoresIff(m: Manager, srv: Server, env: PersistEnv)
    requires InSync(m, srv) && OneLineage(srv)
    ensures var after := Persist(m, srv, env).1;
            && (after.snapshots != srv.snapshots <==>
                  && env.encode && env.upload
                  && (if srv.snapshots == [] then env.fetch && env.uuid.Some?
                      else !IsStored(m, srv) || m.serial == 0))
            && (after.snapshots != srv.snapshots ==>
                  after.snapshots == srv.snapshots + [
                    (if srv.snapshots == [] then Version(env.uuid.value, 1, Content(m.state))
                     else Version(Current(srv).lineage, Increment(m.serial), Content(m.state)))
                    .(forced := m.forcePush)])
            && after.locked == srv.locked
  {
    if m.readState.Some? {
      assert Current(srv).lineage != "";
    }
  }

  /** No snapshot of a run is forced: writing a state takes the flag back. */
  lemma NothingIsForced(run: seq<System>)
    requires IsRun(run)
    ensures forall s :: s in run[|run| - 1].srv.snapshots ==> !s.forced
  {
    RunKeepsInv(run);
  }

  /** In every run the first stored snapshot has serial 1. */
  lemma {:induction false} FirstSerialIsOne(run: seq<System>)
    requires IsRun(run)
    ensures var snapshots := run[|run| - 1].srv.snapshots; snapshots != [] ==> snapshots[0].serial == 1
  {
    if |run| > 1 {
      var before := run[..|run| - 1];
      PrefixIsRun(run, |run| - 1);
      FirstSerialIsOne(before);
      RunKeepsInv(before);
      var i, a := StepInto(run, |run| - 1);
      assert SessionInv(run[|run| - 2].sessions[i], run[|run| - 2].srv);
    }
  }

  /** Right after a refresh, and right after a persist that stored a state object,
      another persist stores nothing. */
  lemma PersistStoresOnce(m: Manager, srv: Server, env: PersistEnv, next: PersistEnv)
    requires InSync(m, srv) && ServerInv(srv) && env.uuid != Some("")
    ensures srv.snapshots != [] && Current(srv).serial != 0 ==> Persist(Refresh(m, srv), srv, next).1 == srv
    ensures var (m1, srv1) := Persist(m, srv, env);
            srv1.snapshots != srv.snapshots && m.state.Some? && m1.serial != 0 ==>
              Persist(m1, srv1, next) == (m1, srv1)
  {
  }

  // ----------------------------------------------------------------- serials

  predicate Increasing(snapshots: seq<Snapshot>) {
    forall k, l :: 0 <= k < l < |snapshots| ==> snapshots[k].serial < snapshots[l].serial
  }

  /** A snapshot that stands for no state, stored twice in a row. */
  predicate Twins(snapshots: seq<Snapshot>, k: nat) {
    k + 1 < |snapshots| && snapshots[k] == snapshots[k + 1] && snapshots[k].state == EMPTY_STATE
  }

  predicate IncreasingButTwins(snapshots: seq<Snapshot>) {
    forall k, l :: 0 <= k < l < |snapshots| ==>
      snapshots[k].serial < snapshots[l].serial || (l == k + 1 && Twins(snapshots, k))
  }

  /** The last snapshot has a serial of its own. */
  predicate LastIsNew(snapshots: seq<Snapshot>) {
    |snapshots| > 1 ==> snapshots[|snapshots| - 2].serial < snapshots[|snapshots| - 1].serial
  }

  /** Counters after `n` steps. */
  predicate ServerSerial(srv: Server, n: nat) {
    && IncreasingButTwins(srv.snapshots)
    && forall k :: 0 <= k < |srv.snapshots| ==> srv.snapshots[k].serial <= n
  }

  predicate SessionSerial(s: Session, srv: Server, n: nat) {
    s.phase.Ready? ==>
      if s.m.readState.Some? then s.m.readSerial <= s.m.serial <= n else LastIsNew(srv.snapshots)
  }

  predicate SerialInv(x: System, n: nat) {
    && ServerSerial(x.srv, n)
    && (forall i :: 0 <= i < |x.sessions| ==> SessionSerial(x.sessions[i], x.srv, n))
  }

  lemma StoreKeepsIncreasing(snapshots: seq<Snapshot>, s: Snapshot)
    requires IncreasingButTwins(snapshots)
    requires snapshots != [] ==> snapshots[|snapshots| - 1].serial < s.serial
    ensures IncreasingButTwins(snapshots + [s]) && LastIsNew(snapshots + [s])
    ensures Increasing(snapshots) ==> Increasing(snapshots + [s])
  {
  }

  lemma StoreTwin(snapshots: seq<Snapshot>, s: Snapshot)
    requires IncreasingButTwins(snapshots) && LastIsNew(snapshots) && snapshots != []
    requires s == snapshots[|snapshots| - 1] && s.state == EMPTY_STATE
    ensures IncreasingButTwins(snapshots + [s])
  {
    assert Twins(snapshots + [s], |snapshots| - 1);
  }

  lemma PersistKeepsSerials(s: Session, srv: Server, env: PersistEnv, n: nat)
    requires SessionInv(s, srv) && ServerInv(srv) && Enabled(s, DoPersist(env))
    requires SessionSerial(s, srv, n) && ServerSerial(srv, n) && n < MAX_SERIAL
    ensures var (m, srv') := Persist(s.m, srv, env);
            && SessionSerial(s.(m := m), srv', n + 1) && ServerSerial(srv', n + 1)
            && (Increasing(srv.snapshots) && !Blank(s.m, srv) ==> Increasing(srv'.snapshots))
  {
    var (m, srv') := Persist(s.m, srv, env);
    if srv'.snapshots != srv.snapshots {
      if Blank(s.m, srv) {
        StoreTwin(srv.snapshots, Current(srv'));
      } else {
        StoreKeepsIncreasing(srv.snapshots, Current(srv'));
      }
    }
  }

  lemma StepKeepsSerials(x: System, y: System, i: nat, a: Action, n: nat)
    requires Inv(x) && Step(x, y, i, a) && SerialInv(x, n) && n < MAX_SERIAL
    ensures SerialInv(y, n + 1)
    ensures Increasing(x.srv.snapshots) && (a.DoPersist? ==> InSync(x.sessions[i].m, x.srv)) ==>
              Increasing(y.srv.snapshots)
  {
    var s := x.sessions[i];
    assert SessionInv(s, x.srv) && SessionSerial(s, x.srv, n);
    match a {
      case DoPersist(env) => PersistKeepsSerials(s, x.srv, env, n);
      case _ =>
    }
    forall j | 0 <= j < |y.sessions|
      ensures SessionSerial(y.sessions[j], y.srv, n + 1)
    {
      if j != i {
        assert SessionSerial(x.sessions[j], x.srv, n);
        OtherSessionUndisturbed(x, i, j);
      }
    }
  }

  lemma {:induction false} RunKeepsSerials(run: seq<System>)
    requires IsRun(run) && |run| <= MAX_SERIAL + 1
    ensures SerialInv(run[|run| - 1], |run| - 1)
  {
    if |run| > 1 {
      var before := run[..|run| - 1];
      PrefixIsRun(run, |run| - 1);
      RunKeepsSerials(before);
      RunKeepsInv(before);
      var x, y := run[|run| - 2], run[|run| - 1];
      var i, a := StepInto(run, |run| - 1);
      StepKeepsSerials(x, y, i, a, |run| - 2);
    }
  }

  /** The serials in the stored files strictly increase in every run too short for
      the unsigned counter to wrap around, except that a snapshot which stands for
      no state may be there twice in a row, never three times. The recorded serials
      are the same numbers as long as these fit a signed counter. */
  lemma SerialsIncrease(run: seq<System>)
    requires IsRun(run) && |run| <= MAX_SERIAL + 1
    ensures var snapshots := run[|run| - 1].srv.snapshots;
            && IncreasingButTwins(snapshots)
            && (|run| <= MAX_RECORDED + 1 ==>
                  forall k :: 0 <= k < |snapshots| ==> snapshots[k].recorded == snapshots[k].serial)
  {
    RunKeepsSerials(run);
    RunKeepsInv(run);
  }

  /** Which stores raise the serial: exactly those of managers that know what is
      stored, that is, did not store the absence of a state before. */
  lemma StoreRaisesSerialIff(run: seq<System>, k: nat, i: nat, a: Action)
    requires IsRun(run) && k + 1 < |run| <= MAX_SERIAL + 1 && Step(run[k], run[k + 1], i, a)
    requires run[k + 1].srv.snapshots != run[k].srv.snapshots && run[k].srv.snapshots != []
    ensures Current(run[k + 1].srv).serial > Current(run[k].srv).serial <==> run[k].sessions[i].m.readState.Some?
  {
    PrefixIsRun(run, k + 1);
    RunKeepsInv(run[..k + 1]);
    RunKeepsSerials(run[..k + 1]);
    assert Inv(run[k]) && SerialInv(run[k], k);
    assert SessionInv(run[k].sessions[i], run[k].srv) && SessionSerial(run[k].sessions[i], run[k].srv, k);
  }

  ghost predicate PersistHasState(x: System, y: System) {
    forall i: nat, env :: Step(x, y, i, DoPersist(env)) ==> x.sessions[i].m.state.Some?
  }

  ghost predicate PersistIntoHasState(run: seq<System>, k: nat)
    requires 0 < k < |run|
  {
    PersistHasState(run[k - 1], run[k])
  }

  /** Every persist of the run is made by a manager with a state object. */
  ghost predicate AlwaysWithState(run: seq<System>) {
    forall k :: 0 < k < |run| ==> PersistIntoHasState(run, k)
  }

  lemma PrefixWithState(run: seq<System>, n: nat)
    requires AlwaysWithState(run) && n <= |run|
    ensures AlwaysWithState(run[..n])
  {
    forall k | 0 < k < n
      ensures PersistIntoHasState(run[..n], k)
    {
      assert PersistIntoHasState(run, k);
    }
  }

  predicate NobodyBlank(x: System) {
    forall i :: 0 <= i < |x.sessions| && x.sessions[i].phase.Ready? ==> InSync(x.sessions[i].m, x.srv)
  }

  lemma StepKeepsNobodyBlank(x: System, y: System, i: nat, a: Action)
    requires Inv(x) && Step(x, y, i, a) && NobodyBlank(x)
    requires a.DoPersist? ==> x.sessions[i].m.state.Some?
    ensures NobodyBlank(y) && (a.DoPersist? ==> InSync(x.sessions[i].m, x.srv))
  {
  }

  /** With a state object at every persist the serials strictly increase. */
  lemma {:induction false} SerialsIncreaseWithState(run: seq<System>)
    requires IsRun(run) && |run| <= MAX_SERIAL + 1 && AlwaysWithState(run)
    ensures NobodyBlank(run[|run| - 1]) && Increasing(run[|run| - 1].srv.snapshots)
  {
    if |run| > 1 {
      var before := run[..|run| - 1];
      PrefixIsRun(run, |run| - 1);
      PrefixWithState(run, |run| - 1);
      SerialsIncreaseWithState(before);
      RunKeepsInv(before);
      RunKeepsSerials(before);
      var x, y := run[|run| - 2], run[|run| - 1];
      var i, a := StepInto(run, |run| - 1);
      assert PersistIntoHasState(run, |run| - 1);
      StepKeepsNobodyBlank(x, y, i, a);
      StepKeepsSerials(x, y, i, a, |run| - 2);
    }
  }

  lemma {:induction false} UploadErrorStays(run: seq<System>, k: nat, l: nat, i: nat)
    requires IsRun(run) && k <= l < |run| && i < |run[k].sessions|
    requires run[k].sessions[i].m.uploadErr
    ensures i < |run[l].sessions| && run[l].sessions[i].m.uploadErr
    decreases l
  {
    if k < l {
      UploadErrorStays(run, k, l - 1, i);
      var j, a := StepInto(run, l);
      UploadErrorNotCleared(run[l - 1], run[l], j, a, i);
    }
  }

  lemma UploadErrorNotCleared(x: System, y: System, j: nat, a: Action, i: nat)
    requires Step(x, y, j, a) && i < |x.sessions| && x.sessions[i].m.uploadErr
    ensures i < |y.sessions| && y.sessions[i].m.uploadErr
  {
  }

  /** After a failed upload the workspace stays locked for good: in every later
      state of the run the lock is held, and no other manager has got past its
      lock call. The upload failed in a persist that would have stored a snapshot
      had it worked. */
  lemma FailedUploadKeepsWorkspaceLocked(run: seq<System>, k: nat, l: nat, i: nat, env: PersistEnv)
    requires IsRun(run) && k < l < |run| && Step(run[k], run[k + 1], i, DoPersist(env)) && !env.upload
    requires Persist(run[k].sessions[i].m, run[k].srv, env.(upload := true)).1.snapshots != run[k].srv.snapshots
    ensures run[l].srv.locked
    ensures forall j :: 0 <= j < |run[l].sessions| && j != i ==> run[l].sessions[j].phase.Idle?
    ensures forall j, id, reachable ::
              0 <= j < |run[l].sessions| ==> !Lock(run[l].sessions[j].m, run[l].srv, id, reachable).ok
  {
    FailedUploadIsMarked(run[k].sessions[i].m, run[k].srv, env);
    UploadErrorKeepsWorkspaceLocked(run, k + 1, l, i);
  }

  /** A persist marks the manager exactly if all that fails is the upload. */
  lemma FailedUploadIsMarked(m: Manager, srv: Server, env: PersistEnv)
    ensures Persist(m, srv, env).0.uploadErr <==>
              || m.uploadErr
              || (!env.upload && Persist(m, srv, env.(upload := true)).1.snapshots != srv.snapshots)
  {
  }

  /** The same from the mark on. */
  lemma UploadErrorKeepsWorkspaceLocked(run: seq<System>, k: nat, l: nat, i: nat)
    requires IsRun(run) && k <= l < |run| && i < |run[k].sessions|
    requires run[k].sessions[i].m.uploadErr
    ensures run[l].srv.locked
    ensures forall j :: 0 <= j < |run[l].sessions| && j != i ==> run[l].sessions[j].phase.Idle?
    ensures forall j, id, reachable ::
              0 <= j < |run[l].sessions| ==> !Lock(run[l].sessions[j].m, run[l].srv, id, reachable).ok
  {
    UploadErrorStays(run, k, l, i);
    PrefixIsRun(run, l + 1);
    RunKeepsInv(run[..l + 1]);
    var x := run[l];
    assert Inv(x);
    assert SessionInv(x.sessions[i], x.srv);
    forall j | 0 <= j < |x.sessions|
      ensures j != i ==> x.sessions[j].phase.Idle?
      ensures !x.sessions[j].m.disableLocks
    {
      assert SessionInv(x.sessions[j], x.srv);
      if j != i {
        OtherSessionUndisturbed(x, i, j);
      }
    }
  }
}
