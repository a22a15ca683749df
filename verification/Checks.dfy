/** The statuses of checks during a plan or apply: what is reported, how it is
    summarised, and how the summaries may change over a run. */
module Checks {
  import opened Options

  datatype Status = Unknown | Pass | Fail | Error

  type ConfigAddr = string
  type CheckType = string

  /** A checkable object knows the configuration object that declared it. */
  datatype Checkable = Checkable(config: ConfigAddr, id: string)

  datatype CheckRule = CheckRule(container: Checkable, checkType: CheckType, index: nat)

  type Slots = map<CheckType, seq<Status>>
  type Objects = map<Checkable, Slots>

  /** `objects` is None until the expansion of the configuration object is known. */
  datatype ConfigState = ConfigState(checkTypes: map<CheckType, nat>, objects: Option<Objects>)

  datatype Store = Store(statuses: map<ConfigAddr, ConfigState>, failureMsgs: map<CheckRule, string>)

  // ---------------------------------------------------------------- summaries

  function Summarize(errors: nat, fails: nat, unknowns: nat): Status {
    if errors > 0 then Error
    else if fails > 0 then Fail
    else if unknowns > 0 then Unknown
    else Pass
  }

  predicate SlotIs(slots: Slots, x: Status) {
    exists t :: t in slots && x in slots[t]
  }

  predicate SomeSlotIs(objects: Objects, x: Status) {
    exists o :: o in objects && SlotIs(objects[o], x)
  }

  function ObjectStatus(slots: Slots): Status {
    if SlotIs(slots, Error) then Error
    else if SlotIs(slots, Fail) then Fail
    else if SlotIs(slots, Unknown) then Unknown
    else Pass
  }

  function AggregateStatus(st: ConfigState): Status {
    if st.objects.None? then Unknown
    else if SomeSlotIs(st.objects.value, Error) then Error
    else if SomeSlotIs(st.objects.value, Fail) then Fail
    else if SomeSlotIs(st.objects.value, Unknown) then Unknown
    else Pass
  }

  method CountStatuses(statuses: seq<Status>) returns (errors: nat, fails: nat, unknowns: nat)
    ensures errors > 0 <==> Error in statuses
    ensures fails > 0 <==> Fail in statuses
    ensures unknowns > 0 <==> Unknown in statuses
  {
    errors, fails, unknowns := 0, 0, 0;
    for i := 0 to |statuses|
      invariant errors > 0 <==> Error in statuses[..i]
      invariant fails > 0 <==> Fail in statuses[..i]
      invariant unknowns > 0 <==> Unknown in statuses[..i]
    {
      assert statuses[..i + 1] == statuses[..i] + [statuses[i]];
      match statuses[i] {
        case Pass =>
        case Fail => fails := fails + 1;
        case Error => errors := errors + 1;
        case Unknown => unknowns := unknowns + 1;
      }
    }
    assert statuses[..|statuses|] == statuses;
  }

  method CountSlots(slots: Slots) returns (errors: nat, fails: nat, unknowns: nat)
    ensures errors > 0 <==> SlotIs(slots, Error)
    ensures fails > 0 <==> SlotIs(slots, Fail)
    ensures unknowns > 0 <==> SlotIs(slots, Unknown)
  {
    errors, fails, unknowns := 0, 0, 0;
    var remaining := slots.Keys;
    while remaining != {}
      invariant remaining <= slots.Keys
      invariant errors > 0 <==> exists t :: t in slots && t !in remaining && Error in slots[t]
      invariant fails > 0 <==> exists t :: t in slots && t !in remaining && Fail in slots[t]
      invariant unknowns > 0 <==> exists t :: t in slots && t !in remaining && Unknown in slots[t]
      decreases |remaining|
    {
      var t :| t in remaining;
      var e, f, u := CountStatuses(slots[t]);
      errors, fails, unknowns := errors + e, fails + f, unknowns + u;
      remaining := remaining - {t};
    }
  }

  // ------------------------------------------------------------------ reports

  function FreshSlots(types: map<CheckType, nat>): Slots {
    map t | t in types :: seq(types[t], i => Unknown)
  }

  /** Objects about which nothing has been reported. */
  function Pending(objs: set<Checkable>, types: map<CheckType, nat>): Objects {
    map o | o in objs :: FreshSlots(types)
  }

  lemma PendingAdd(objs: set<Checkable>, o: Checkable, types: map<CheckType, nat>)
    ensures Pending(objs, types)[o := FreshSlots(types)] == Pending(objs + {o}, types)
  {
  }

  /** None stands for a panic. Only the first report of a configuration object's
      expansion has an effect. */
  function ReportObjects(s: Store, c: ConfigAddr, objs: set<Checkable>): Option<Store> {
    if c !in s.statuses then None
    else
      var st := s.statuses[c];
      if st.objects.Some? then Some(s)
      else if exists o :: o in objs && o.config != c then None
      else
        Some(s.(statuses := s.statuses[c := st.(objects := Some(Pending(objs, st.checkTypes)))]))
  }

  predicate OpenSlot(s: Store, o: Checkable, t: CheckType, i: int) {
    && o.config in s.statuses && s.statuses[o.config].objects.Some?
    && o in s.statuses[o.config].objects.value
    && t in s.statuses[o.config].objects.value[o]
    && 0 <= i < |s.statuses[o.config].objects.value[o][t]|
    && s.statuses[o.config].objects.value[o][t][i] == Unknown
  }

  function WriteSlot(s: Store, o: Checkable, t: CheckType, i: int, x: Status): Store
    requires OpenSlot(s, o, t, i)
  {
    var st := s.statuses[o.config];
    var slots := st.objects.value[o];
    var objects := st.objects.value[o := slots[t := slots[t][i := x]]];
    s.(statuses := s.statuses[o.config := st.(objects := Some(objects))])
  }

  function ReportResult(s: Store, o: Checkable, t: CheckType, i: int, x: Status): Option<Store> {
    if OpenSlot(s, o, t, i) then Some(WriteSlot(s, o, t, i, x)) else None
  }

  function ReportFailure(s: Store, o: Checkable, t: CheckType, i: int, msg: string): Option<Store> {
    var r := ReportResult(s, o, t, i, Fail);
    if r.None? then None
    else Some(r.value.(failureMsgs := r.value.failureMsgs[CheckRule(o, t, i) := msg]))
  }

  class State {
    var statuses: map<ConfigAddr, ConfigState>
    var failureMsgs: map<CheckRule, string>

    function Value(): Store
      reads this
    {
      Store(statuses, failureMsgs)
    }

    constructor (declared: map<ConfigAddr, map<CheckType, nat>>)
      ensures Value() == NewStore(declared)
    {
      statuses := map c | c in declared :: ConfigState(declared[c], None);
      failureMsgs := map[];
    }

    method AggregateCheckStatus(c: ConfigAddr) returns (result: Option<Status>)
      ensures result == if c in statuses then Some(AggregateStatus(statuses[c])) else None
    {
      if c !in statuses {
        return None;
      }
      var st := statuses[c];
      if st.objects.None? {
        return Some(Unknown);
      }
      var objects := st.objects.value;
      var errors: nat, fails: nat, unknowns: nat := 0, 0, 0;
      var remaining := objects.Keys;
      while remaining != {}
        invariant remaining <= objects.Keys
        invariant errors > 0 <==> exists o :: o in objects && o !in remaining && SlotIs(objects[o], Error)
        invariant fails > 0 <==> exists o :: o in objects && o !in remaining && SlotIs(objects[o], Fail)
        invariant unknowns > 0 <==> exists o :: o in objects && o !in remaining && SlotIs(objects[o], Unknown)
        decreases |remaining|
      {
        var o :| o in remaining;
        var e, f, u := CountSlots(objects[o]);
        errors, fails, unknowns := errors + e, fails + f, unknowns + u;
        remaining := remaining - {o};
      }
      return Some(Summarize(errors, fails, unknowns));
    }

    method ObjectCheckStatus(o: Checkable) returns (result: Option<Status>)
      ensures result == if o.config in statuses && statuses[o.config].objects.Some?
                           && o in statuses[o.config].objects.value
                        then Some(ObjectStatus(statuses[o.config].objects.value[o])) else None
    {
      if o.config !in statuses || statuses[o.config].objects.None?
        || o !in statuses[o.config].objects.value {
        return None;
      }
      var errors, fails, unknowns := CountSlots(statuses[o.config].objects.value[o]);
      return Some(Summarize(errors, fails, unknowns));
    }

    /** A panic half way through the objects leaves the ones before it recorded;
        the other configuration objects are untouched. */
    method ReportCheckableObjects(c: ConfigAddr, objs: set<Checkable>) returns (ok: bool)
      modifies this
      ensures ok ==> ReportObjects(old(Value()), c, objs) == Some(Value())
      ensures !ok ==> ReportObjects(old(Value()), c, objs) == None
      ensures failureMsgs == old(failureMsgs) && statuses.Keys == old(statuses.Keys)
      ensures forall d :: d in statuses && d != c ==> statuses[d] == old(statuses)[d]
    {
      if c !in statuses {
        return false;
      }
      var st := statuses[c];
      if st.objects.Some? {
        return true;
      }
      statuses := statuses[c := st.(objects := Some(map[]))];
      var remaining := objs;
      ghost var done: set<Checkable> := {};
      while remaining != {}
        invariant done + remaining == objs && forall o :: o in done ==> o.config == c
        invariant statuses == old(statuses)[c := st.(objects := Some(Pending(done, st.checkTypes)))]
        invariant failureMsgs == old(failureMsgs)
        decreases |remaining|
      {
        var o :| o in remaining;
        if o.config != c {
          assert o in objs;
          return false;
        }
        PendingAdd(done, o, st.checkTypes);
        var objects := statuses[c].objects.value[o := FreshSlots(st.checkTypes)];
        statuses := statuses[c := st.(objects := Some(objects))];
        remaining, done := remaining - {o}, done + {o};
      }
      assert done == objs;
      return true;
    }

    method WriteResult(o: Checkable, t: CheckType, i: int, x: Status) returns (ok: bool)
      modifies this
      ensures ok ==> ReportResult(old(Value()), o, t, i, x) == Some(Value())
      ensures !ok ==> ReportResult(old(Value()), o, t, i, x) == None && Value() == old(Value())
    {
      if o.config !in statuses {
        return false;
      }
      var st := statuses[o.config];
      if st.objects.None? || o !in st.objects.value {
        return false;
      }
      var checks := st.objects.value[o];
      var list := if t in checks then checks[t] else [];
      if i >= |list| || i < 0 {
        return false;
      }
      if list[i] != Unknown {
        return false;
      }
      var objects := st.objects.value[o := checks[t := list[i := x]]];
      statuses := statuses[o.config := st.(objects := Some(objects))];
      return true;
    }

    method ReportCheckResult(o: Checkable, t: CheckType, i: int, x: Status) returns (ok: bool)
      modifies this
      ensures ok ==> ReportResult(old(Value()), o, t, i, x) == Some(Value())
      ensures !ok ==> ReportResult(old(Value()), o, t, i, x) == None && Value() == old(Value())
    {
      ok := WriteResult(o, t, i, x);
    }

    method ReportCheckFailure(o: Checkable, t: CheckType, i: int, msg: string) returns (ok: bool)
      modifies this
      ensures ok ==> ReportFailure(old(Value()), o, t, i, msg) == Some(Value())
      ensures !ok ==> ReportFailure(old(Value()), o, t, i, msg) == None && Value() == old(Value())
    {
      ok := WriteResult(o, t, i, Fail);
      if ok {
        failureMsgs := failureMsgs[CheckRule(o, t, i) := msg];
      }
    }
  }

  // --------------------------------------------------------------------- runs

  datatype Report =
    | Objects(c: ConfigAddr, objs: set<Checkable>)
    | Result(o: Checkable, t: CheckType, i: int, x: Status)
    | Failure(o: Checkable, t: CheckType, i: int, msg: string)

  function Apply(s: Store, r: Report): Option<Store> {
    match r
    case Objects(c, objs) => ReportObjects(s, c, objs)
    case Result(o, t, i, x) => ReportResult(s, o, t, i, x)
    case Failure(o, t, i, msg) => ReportFailure(s, o, t, i, msg)
  }

  function NewStore(declared: map<ConfigAddr, map<CheckType, nat>>): Store {
    Store(map c | c in declared :: ConfigState(declared[c], None), map[])
  }

  /** A run of successful reports from a new state. */
  ghost predicate IsRun(run: seq<Store>) {
    && run != [] && (exists declared :: run[0] == NewStore(declared))
    && forall k :: 0 < k < |run| ==> StepsInto(run, k)
  }

  ghost predicate StepsInto(run: seq<Store>, k: nat)
    requires 0 < k < |run|
  {
    Next(run[k - 1], run[k])
  }

  lemma PrefixIsRun(run: seq<Store>, n: nat)
    requires IsRun(run) && 0 < n <= |run|
    ensures IsRun(run[..n])
  {
    forall k | 0 < k < n
      ensures StepsInto(run[..n], k)
    {
      assert StepsInto(run, k);
    }
  }

  /** One successful report leads from the one to the other. */
  ghost predicate Next(s: Store, t: Store) {
    exists r :: Apply(s, r) == Some(t)
  }

  // ---------------------------------------------------------------- invariant

  predicate WellShaped(c: ConfigAddr, st: ConfigState) {
    st.objects.Some? ==> forall o :: o in st.objects.value ==>
      && o.config == c
      && st.objects.value[o].Keys == st.checkTypes.Keys
      && forall t :: t in st.checkTypes ==> |st.objects.value[o][t]| == st.checkTypes[t]
  }

  /** The rule names a slot, and the slot has this status. */
  predicate RuleIs(s: Store, rule: CheckRule, x: Status) {
    var o := rule.container;
    && o.config in s.statuses && s.statuses[o.config].objects.Some?
    && o in s.statuses[o.config].objects.value
    && rule.checkType in s.statuses[o.config].objects.value[o]
    && rule.index < |s.statuses[o.config].objects.value[o][rule.checkType]|
    && s.statuses[o.config].objects.value[o][rule.checkType][rule.index] == x
  }

  predicate Inv(s: Store) {
    && (forall c :: c in s.statuses ==> WellShaped(c, s.statuses[c]))
    && (forall rule :: rule in s.failureMsgs ==> RuleIs(s, rule, Fail))
  }

  /** Reported statuses are never taken back. */
  lemma ReportKeepsRules(s: Store, r: Report, rule: CheckRule, x: Status)
    requires Apply(s, r).Some? && RuleIs(s, rule, x) && x != Unknown
    ensures RuleIs(Apply(s, r).value, rule, x)
  {
  }

  /** What one result changes: the slot that it names, which must be open, and no
      other. */
  lemma ResultSetsSlot(s: Store, o: Checkable, t: CheckType, i: nat, x: Status)
    ensures ReportResult(s, o, t, i, x).Some? <==> RuleIs(s, CheckRule(o, t, i), Unknown)
    ensures ReportResult(s, o, t, i, x).Some? ==>
              var after := ReportResult(s, o, t, i, x).value;
              && after.failureMsgs == s.failureMsgs
              && forall rule, y :: RuleIs(after, rule, y) <==>
                   if rule == CheckRule(o, t, i) then y == x else RuleIs(s, rule, y)
  {
  }

  /** A failure is the result Fail together with its message. */
  lemma FailureRecordsMessage(s: Store, o: Checkable, t: CheckType, i: nat, msg: string)
    ensures ReportFailure(s, o, t, i, msg).Some? <==> RuleIs(s, CheckRule(o, t, i), Unknown)
    ensures ReportFailure(s, o, t, i, msg).Some? ==>
              var after := ReportFailure(s, o, t, i, msg).value;
              && after.failureMsgs == s.failureMsgs[CheckRule(o, t, i) := msg]
              && forall rule, y :: RuleIs(after, rule, y) <==>
                   if rule == CheckRule(o, t, i) then y == Fail else RuleIs(s, rule, y)
  {
    ResultSetsSlot(s, o, t, i, Fail);
  }

  /** The first report of the objects opens every declared slot of each of them, and
      changes nothing else. */
  lemma ObjectsOpenSlots(s: Store, c: ConfigAddr, objs: set<Checkable>)
    requires c in s.statuses && s.statuses[c].objects.None?
    ensures ReportObjects(s, c, objs).Some? <==> forall o :: o in objs ==> o.config == c
    ensures ReportObjects(s, c, objs).Some? ==>
              var after := ReportObjects(s, c, objs).value;
              && after.failureMsgs == s.failureMsgs
              && after.statuses.Keys == s.statuses.Keys
              && forall rule, y :: RuleIs(after, rule, y) <==>
                   if rule.container.config != c then RuleIs(s, rule, y)
                   else
                     && y == Unknown && rule.container in objs
                     && rule.checkType in s.statuses[c].checkTypes
                     && rule.index < s.statuses[c].checkTypes[rule.checkType]
  {
  }

  lemma PendingWellShaped(c: ConfigAddr, st: ConfigState, objs: set<Checkable>)
    requires forall o :: o in objs ==> o.config == c
    ensures WellShaped(c, st.(objects := Some(Pending(objs, st.checkTypes))))
  {
  }

  lemma WriteSlotWellShaped(s: Store, o: Checkable, t: CheckType, i: int, x: Status)
    requires OpenSlot(s, o, t, i) && WellShaped(o.config, s.statuses[o.config])
    ensures WellShaped(o.config, WriteSlot(s, o, t, i, x).statuses[o.config])
  {
  }

  lemma ReportKeepsShape(s: Store, r: Report, c: ConfigAddr)
    requires Inv(s) && Apply(s, r).Some? && c in Apply(s, r).value.statuses
    ensures WellShaped(c, Apply(s, r).value.statuses[c])
  {
    assert WellShaped(c, s.statuses[c]);
    match r {
      case Objects(d, objs) =>
        if d == c && s.statuses[c].objects.None? {
          PendingWellShaped(c, s.statuses[c], objs);
        }
      case Result(o, t, i, x) =>
        if o.config == c {
          WriteSlotWellShaped(s, o, t, i, x);
        }
      case Failure(o, t, i, _) =>
        if o.config == c {
          WriteSlotWellShaped(s, o, t, i, Fail);
        }
    }
  }

  lemma ReportKeepsInv(s: Store, r: Report)
    requires Inv(s) && Apply(s, r).Some?
    ensures Inv(Apply(s, r).value)
  {
    var t := Apply(s, r).value;
    forall c | c in t.statuses
      ensures WellShaped(c, t.statuses[c])
    {
      ReportKeepsShape(s, r, c);
    }
    forall rule | rule in t.failureMsgs
      ensures RuleIs(t, rule, Fail)
    {
      if rule in s.failureMsgs {
        ReportKeepsRules(s, r, rule, Fail);
      }
    }
  }

  lemma NextKeepsInv(s: Store, t: Store)
    requires Next(s, t) && Inv(s)
    ensures Inv(t)
  {
    var r :| Apply(s, r) == Some(t);
    ReportKeepsInv(s, r);
  }

  lemma {:induction false} RunKeepsInv(run: seq<Store>)
    requires IsRun(run)
    ensures Inv(run[|run| - 1])
  {
    if |run| > 1 {
      PrefixIsRun(run, |run| - 1);
      RunKeepsInv(run[..|run| - 1]);
      assert StepsInto(run, |run| - 1);
      NextKeepsInv(run[|run| - 2], run[|run| - 1]);
    }
  }

  lemma MessageIsTrue(run: seq<Store>, k: nat, rule: CheckRule)
    requires IsRun(run) && k < |run| && rule in run[k].failureMsgs
    ensures RuleIs(run[k], rule, Fail)
  {
    PrefixIsRun(run, k + 1);
    RunKeepsInv(run[..k + 1]);
    assert Inv(run[k]);
  }

  // ------------------------------------------------------------- main results

  /** The ways an aggregate status may change. */
  predicate Allowed(before: Status, after: Status) {
    before == Unknown || before == after || (before == Fail && after == Error)
  }

  /** One slot of one object, by name. */
  predicate ObjectSlotIs(objects: Objects, o: Checkable, t: CheckType, i: nat, x: Status) {
    o in objects && t in objects[o] && i < |objects[o][t]| && objects[o][t][i] == x
  }

  lemma SomeSlotIsByName(objects: Objects, x: Status)
    ensures SomeSlotIs(objects, x) <==> exists o, t, i :: ObjectSlotIs(objects, o, t, i, x)
  {
    if SomeSlotIs(objects, x) {
      var o :| o in objects && SlotIs(objects[o], x);
      var t :| t in objects[o] && x in objects[o][t];
      var i :| 0 <= i < |objects[o][t]| && objects[o][t][i] == x;
      assert ObjectSlotIs(objects, o, t, i, x);
    }
    if o, t, i :| ObjectSlotIs(objects, o, t, i, x) {
      assert x in objects[o][t];
      assert SlotIs(objects[o], x);
    }
  }

  /** Filling one open slot changes the aggregate only as allowed. */
  lemma WriteSlotIsAllowed(s: Store, o: Checkable, t: CheckType, i: int, x: Status)
    requires OpenSlot(s, o, t, i)
    ensures Allowed(AggregateStatus(s.statuses[o.config]), AggregateStatus(WriteSlot(s, o, t, i, x).statuses[o.config]))
  {
    var a := s.statuses[o.config].objects.value;
    var b := WriteSlot(s, o, t, i, x).statuses[o.config].objects.value;
    forall y: Status
      ensures SomeSlotIs(a, y) && y != Unknown ==> SomeSlotIs(b, y)
      ensures y == Unknown ==> SomeSlotIs(a, y)
    {
      SomeSlotIsByName(a, y);
      SomeSlotIsByName(b, y);
      if p, u, j :| ObjectSlotIs(a, p, u, j, y) && y != Unknown {
        assert ObjectSlotIs(b, p, u, j, y);
      }
      assert ObjectSlotIs(a, o, t, i, Unknown);
    }
  }

  lemma ReportIsAllowed(s: Store, r: Report, c: ConfigAddr)
    requires Apply(s, r).Some? && c in s.statuses
    ensures var t := Apply(s, r).value;
            && t.statuses.Keys == s.statuses.Keys
            && Allowed(AggregateStatus(s.statuses[c]), AggregateStatus(t.statuses[c]))
  {
    match r {
      case Objects(_, _) =>
      case Result(o, t, i, x) => WriteSlotIsAllowed(s, o, t, i, x);
      case Failure(o, t, i, _) => WriteSlotIsAllowed(s, o, t, i, Fail);
    }
  }

  lemma NextIsAllowed(s: Store, t: Store, c: ConfigAddr)
    requires Next(s, t) && c in s.statuses
    ensures c in t.statuses
    ensures Allowed(AggregateStatus(s.statuses[c]), AggregateStatus(t.statuses[c]))
  {
    var r :| Apply(s, r) == Some(t);
    ReportIsAllowed(s, r, c);
  }

  /** Over a run, an aggregate status that has left Unknown never returns to it;
      Pass and Error are final, and Fail can only become Error. */
  lemma {:induction false} AggregateOnlyMovesUp(run: seq<Store>, j: nat, k: nat, c: ConfigAddr)
    requires IsRun(run) && j <= k < |run| && c in run[j].statuses
    ensures c in run[k].statuses
    ensures Allowed(AggregateStatus(run[j].statuses[c]), AggregateStatus(run[k].statuses[c]))
    decreases k
  {
    if j < k {
      AggregateOnlyMovesUp(run, j, k - 1, c);
      assert StepsInto(run, k);
      NextIsAllowed(run[k - 1], run[k], c);
    }
  }

  lemma NextKeepsRules(s: Store, t: Store, rule: CheckRule, x: Status)
    requires Next(s, t) && RuleIs(s, rule, x) && x != Unknown
    ensures RuleIs(t, rule, x)
  {
    var r :| Apply(s, r) == Some(t);
    ReportKeepsRules(s, r, rule, x);
  }

  /** Over a run, a recorded failure message belongs to a slot that is Fail at the
      time and stays Fail; every slot list has the declared length. */
  lemma {:induction false} FailureMessagesStayTrue(run: seq<Store>, j: nat, k: nat, rule: CheckRule)
    requires IsRun(run) && j <= k < |run| && rule in run[j].failureMsgs
    ensures RuleIs(run[k], rule, Fail)
    decreases k
  {
    if j < k {
      FailureMessagesStayTrue(run, j, k - 1, rule);
      assert StepsInto(run, k);
      NextKeepsRules(run[k - 1], run[k], rule, Fail);
    } else {
      MessageIsTrue(run, j, rule);
    }
  }

  lemma SlotsMatchDeclaration(run: seq<Store>, c: ConfigAddr)
    requires IsRun(run) && c in run[|run| - 1].statuses
    ensures WellShaped(c, run[|run| - 1].statuses[c])
  {
    RunKeepsInv(run);
  }

  function Rank(x: Status): nat {
    match x
    case Pass => 0
    case Unknown => 1
    case Fail => 2
    case Error => 3
  }

  /** The status of an object is the join of its slots, Pass if there are none. */
  lemma ObjectIsJoin(slots: Slots)
    ensures forall t, x :: t in slots && x in slots[t] ==> Rank(x) <= Rank(ObjectStatus(slots))
    ensures ObjectStatus(slots) == Pass || exists t :: t in slots && ObjectStatus(slots) in slots[t]
  {
  }

  /** The aggregate is the join of the object statuses, Pass if there are none, and
      Unknown as long as the objects are not known. */
  lemma AggregateIsJoin(st: ConfigState)
    ensures st.objects.None? ==> AggregateStatus(st) == Unknown
    ensures st.objects.Some? ==>
              var objects, all := st.objects.value, AggregateStatus(st);
              && (forall o :: o in objects ==> Rank(ObjectStatus(objects[o])) <= Rank(all))
              && (if objects.Keys == {} then all == Pass
                  else exists o :: o in objects && ObjectStatus(objects[o]) == all)
  {
  }

  /** Reporting the objects of a configuration object again changes nothing. */
  lemma SecondObjectReportIsIgnored(s: Store, c: ConfigAddr, first: set<Checkable>, second: set<Checkable>)
    requires ReportObjects(s, c, first).Some?
    ensures var t := ReportObjects(s, c, first).value; ReportObjects(t, c, second) == Some(t)
  {
  }
}
