/** Move endpoints as patterns over absolute addresses, and the two symbolic
    tests on pairs of patterns: chaining and nesting. */
module MovePatterns {
  import opened Addrs
  import opened Options

  /** A pattern: every instance of the declaring module, then a relative subject. */
  datatype Endpoint = Endpoint(decl: Module, rel: Moveable)

  /** Subjects come from parsed configuration, which never yields a wildcard key. */
  predicate ValidEndpoint(e: Endpoint) {
    Actual(e.rel)
  }

  // ---------------------------------------------------------------- meaning

  /** `inst` is one dynamic instance of the static module `decl`. */
  predicate InstanceOf(inst: ModuleInstance, decl: Module) {
    && |inst| == |decl|
    && ActualPath(inst)
    && forall i :: 0 <= i < |inst| ==> inst[i].name == decl[i]
  }

  /** The object that the pattern names inside one instance of its module. */
  function InModuleInstance(e: Endpoint, inst: ModuleInstance): Moveable {
    WithPath(e.rel, inst + e.rel.path)
  }

  /** `x` is one of the absolute objects that `e` names. */
  ghost predicate Denotes(e: Endpoint, x: Moveable) {
    exists inst :: InstanceOf(inst, e.decl) && x == InModuleInstance(e, inst)
  }

  /** `x` is an object that moves when `e` does: one that `e` names, or an
      instance of a module call that `e` names. */
  ghost predicate Covers(e: Endpoint, x: Moveable) {
    || (!e.rel.ModuleCall? && Denotes(e, x))
    || (&& e.rel.ModuleCall? && x.ModuleInst? && x.path != [] && Actual(x)
        && Denotes(e, CallOf(x.path)))
  }

  function CallOf(m: ModuleInstance): Moveable
    requires m != []
  {
    ModuleCall(m[..|m| - 1], m[|m| - 1].name)
  }

  /** The smallest object that directly contains `x`. */
  function Container(x: Moveable): Option<Moveable> {
    match x
    case ModuleInst(m) => if m == [] then None else Some(CallOf(m))
    case ModuleCall(m, _) => Some(ModuleInst(m))
    case AbsResource(m, _) => Some(ModuleInst(m))
    case AbsResourceInstance(m, r, _) => Some(AbsResource(m, r))
  }

  function Height(x: Moveable): nat {
    match x
    case ModuleInst(m) => 2 * |m|
    case ModuleCall(m, _) => 2 * |m| + 1
    case AbsResource(m, _) => 2 * |m| + 1
    case AbsResourceInstance(m, _, _) => 2 * |m| + 2
  }

  /** `x` lies strictly inside `y`: `y` is reached by going up at least once. */
  predicate Inside(x: Moveable, y: Moveable)
    decreases Height(x)
  {
    var c := Container(x);
    c.Some? && (c.value == y || Inside(c.value, y))
  }

  // ------------------------------------------------------------------- code

  function AnySteps(decl: Module): (r: ModuleInstance) {
    seq(|decl|, i requires 0 <= i < |decl| => Step(decl[i], AnyKey))
  }

  function Synth(e: Endpoint): ModuleInstance {
    AnySteps(e.decl) + e.rel.path
      + if e.rel.ModuleCall? then [Step(e.rel.call, AnyKey)] else []
  }

  method SynthModuleInstance(e: Endpoint) returns (inst: ModuleInstance)
    ensures inst == Synth(e)
  {
    inst := [];
    for i := 0 to |e.decl|
      invariant inst == AnySteps(e.decl)[..i]
    {
      inst := inst + [Step(e.decl[i], AnyKey)];
    }
    inst := inst + e.rel.path;
    if e.rel.ModuleCall? {
      inst := inst + [Step(e.rel.call, AnyKey)];
    }
  }

  /** One step of a pattern against one step of an address. */
  predicate StepSelects(pattern: Step, s: Step) {
    if pattern.key.AnyKey? then pattern.name == s.name else pattern == s
  }

  predicate PathSelects(pattern: ModuleInstance, m: ModuleInstance) {
    |pattern| == |m| && forall i :: 0 <= i < |m| ==> StepSelects(pattern[i], m[i])
  }

  method SelectsModule(e: Endpoint, addr: ModuleInstance) returns (b: bool)
    ensures b == PathSelects(Synth(e), addr)
  {
    var synth := SynthModuleInstance(e);
    if |synth| != |addr| {
      return false;
    }
    for i := 0 to |synth|
      invariant forall j :: 0 <= j < i ==> StepSelects(synth[j], addr[j])
    {
      if synth[i].key.AnyKey? {
        if synth[i].name != addr[i].name {
          return false;
        }
      } else if synth[i] != addr[i] {
        return false;
      }
    }
    return true;
  }

  method SelectsResource(e: Endpoint, addr: Moveable) returns (b: bool)
    requires addr.AbsResource?
    ensures b == (&& (e.rel.AbsResource? || e.rel.AbsResourceInstance?)
                  && PathSelects(Synth(e), addr.path)
                  && e.rel.resource == addr.resource)
  {
    if !e.rel.AbsResource? && !e.rel.AbsResourceInstance? {
      return false;
    }
    var inModule := SelectsModule(e, addr.path);
    return inModule && addr.resource == e.rel.resource;
  }

  predicate StepCanMatch(a: Step, b: Step) {
    if a.key.AnyKey? || b.key.AnyKey? then a.name == b.name else a == b
  }

  /** The first path can match the start of the second. */
  predicate PathCanMatch(a: ModuleInstance, b: ModuleInstance) {
    |a| <= |b| && forall i :: 0 <= i < |a| ==> StepCanMatch(a[i], b[i])
  }

  method ModuleInstanceCanMatch(a: ModuleInstance, b: ModuleInstance) returns (r: bool)
    requires |a| <= |b|
    ensures r == PathCanMatch(a, b)
  {
    for i := 0 to |a|
      invariant forall j :: 0 <= j < i ==> StepCanMatch(a[j], b[j])
    {
      if a[i].key.AnyKey? || b[i].key.AnyKey? {
        if a[i].name != b[i].name {
          return false;
        }
      } else if a[i] != b[i] {
        return false;
      }
    }
    return true;
  }

  predicate SubjectsChain(e: Moveable, o: Moveable) {
    || (ModuleKind(e) && ModuleKind(o))
    || (e.AbsResource? && o.AbsResource? && e.resource == o.resource)
    || (e.AbsResourceInstance? && o.AbsResourceInstance?
        && e.resource == o.resource && e.key == o.key)
  }

  predicate CanChainFrom(e: Endpoint, o: Endpoint) {
    && |Synth(e)| == |Synth(o)|
    && PathCanMatch(Synth(o), Synth(e))
    && SubjectsChain(e.rel, o.rel)
  }

  /** Chaining is decided exactly: two endpoints of the same kind chain when some
      absolute address belongs to both patterns. */
  method DecideCanChainFrom(e: Endpoint, o: Endpoint) returns (b: bool)
    requires ValidEndpoint(e) && ValidEndpoint(o)
    ensures b == CanChainFrom(e, o)
    ensures b <==> SameChainKind(e.rel, o.rel) && exists x :: Covers(e, x) && Covers(o, x)
  {
    CanChainFromIsOverlap(e, o);
    var eMod := SynthModuleInstance(e);
    var oMod := SynthModuleInstance(o);
    if |eMod| != |oMod| {
      return false;
    }
    var canMatch := ModuleInstanceCanMatch(oMod, eMod);
    if !canMatch {
      return false;
    }
    match o.rel {
      case ModuleCall(_, _) =>
        return e.rel.ModuleCall? || e.rel.ModuleInst?;
      case ModuleInst(_) =>
        return e.rel.ModuleCall? || e.rel.ModuleInst?;
      case AbsResource(_, r) =>
        return e.rel.AbsResource? && e.rel.resource == r;
      case AbsResourceInstance(_, r, k) =>
        return e.rel.AbsResourceInstance? && e.rel.resource == r && e.rel.key == k;
    }
  }

  predicate NestedWithin(e: Endpoint, o: Endpoint) {
    var eMod, oMod := Synth(e), Synth(o);
    && PathCanMatch(oMod, eMod)
    && match o.rel
       case ModuleCall(_, _) => !e.rel.ModuleCall? || |eMod| > |oMod|
       case ModuleInst(_) => !ModuleKind(e.rel) || |eMod| > |oMod|
       case AbsResource(_, r) =>
         |eMod| == |oMod| && e.rel.AbsResourceInstance? && e.rel.resource == r
       case AbsResourceInstance(_, _, _) => false
  }

  /** Nesting is decided exactly: some object named by `e` lies strictly inside
      some object named by `o`. */
  method DecideNestedWithin(e: Endpoint, o: Endpoint) returns (b: bool)
    requires ValidEndpoint(e) && ValidEndpoint(o)
    ensures b == NestedWithin(e, o)
    ensures b <==> exists x, y :: Denotes(e, x) && Denotes(o, y) && Inside(x, y)
  {
    NestedWithinIsContainment(e, o);
    var eMod := SynthModuleInstance(e);
    var oMod := SynthModuleInstance(o);
    if |oMod| > |eMod| {
      return false;
    }
    var canMatch := ModuleInstanceCanMatch(oMod, eMod);
    if !canMatch {
      return false;
    }
    match o.rel {
      case ModuleCall(_, _) =>
        return if e.rel.ModuleCall? then |eMod| > |oMod| else true;
      case ModuleInst(_) =>
        return if e.rel.ModuleInst? || e.rel.ModuleCall? then |eMod| > |oMod| else true;
      case AbsResource(_, r) =>
        if |eMod| != |oMod| {
          return false;
        }
        return e.rel.AbsResourceInstance? && e.rel.resource == r;
      case AbsResourceInstance(_, _, _) =>
        return false;
    }
  }

  // ----------------------------------------------------------------- proofs

  /** The module path of an object, with the call of a module call as last step. */
  function FullPath(x: Moveable, key: InstanceKey): ModuleInstance {
    x.path + if x.ModuleCall? then [Step(x.call, key)] else []
  }

  /** Replaces the module path of the subject by `w`, which includes the call step. */
  function AtPath(rel: Moveable, w: ModuleInstance): Moveable
    requires rel.ModuleCall? ==> w != []
  {
    if rel.ModuleCall? then CallOf(w) else WithPath(rel, w)
  }

  lemma DenotedPathIsSelected(e: Endpoint, x: Moveable, key: InstanceKey)
    requires ValidEndpoint(e) && Denotes(e, x)
    ensures Actual(x)
    ensures x == WithPath(e.rel, x.path)
    ensures PathSelects(Synth(e), FullPath(x, key))
  {
  }

  lemma SelectedPathIsDenoted(e: Endpoint, w: ModuleInstance)
    requires ValidEndpoint(e) && PathSelects(Synth(e), w) && ActualPath(w)
    ensures e.rel.ModuleCall? ==> w != []
    ensures Denotes(e, AtPath(e.rel, w))
  {
    var inst, n := w[..|e.decl|], |e.decl| + |e.rel.path|;
    SelectedPartsOf(e, w);
    if e.rel.ModuleCall? {
      assert StepSelects(Synth(e)[n], w[n]);
    } else {
      assert w[..n] == w;
    }
    assert AtPath(e.rel, w) == InModuleInstance(e, inst);
  }

  lemma SelectedPartsOf(e: Endpoint, w: ModuleInstance)
    requires ValidEndpoint(e) && PathSelects(Synth(e), w) && ActualPath(w)
    ensures InstanceOf(w[..|e.decl|], e.decl)
    ensures w[..|e.decl| + |e.rel.path|] == w[..|e.decl|] + e.rel.path
  {
    assert forall i :: 0 <= i < |e.decl| ==> StepSelects(Synth(e)[i], w[i]);
    forall i | 0 <= i < |e.rel.path|
      ensures w[|e.decl| + i] == e.rel.path[i]
    {
      assert StepSelects(Synth(e)[|e.decl| + i], w[|e.decl| + i]);
    }
  }

  /** A path that both patterns select, built from the keys either one fixes. */
  function Merge(a: ModuleInstance, b: ModuleInstance): ModuleInstance {
    seq(|b|, i requires 0 <= i < |b| =>
      if !b[i].key.AnyKey? then b[i]
      else if i < |a| && !a[i].key.AnyKey? then a[i]
      else Step(b[i].name, NoKey))
  }

  predicate ActualOrAny(m: ModuleInstance) {
    forall i :: 0 <= i < |m| ==> ActualKey(m[i].key) || m[i].key.AnyKey?
  }

  lemma MergeIsSelected(a: ModuleInstance, b: ModuleInstance)
    requires PathCanMatch(a, b) && ActualOrAny(a) && ActualOrAny(b)
    ensures ActualPath(Merge(a, b))
    ensures PathSelects(b, Merge(a, b))
    ensures PathSelects(a, Merge(a, b)[..|a|])
  {
  }

  lemma SelectedPrefixesCanMatch(a: ModuleInstance, b: ModuleInstance, w: ModuleInstance)
    requires |a| <= |b| == |w|
    requires PathSelects(b, w) && PathSelects(a, w[..|a|])
    ensures PathCanMatch(a, b)
  {
  }

  predicate SameChainKind(e: Moveable, o: Moveable) {
    || (ModuleKind(e) && ModuleKind(o))
    || (e.AbsResource? && o.AbsResource?)
    || (e.AbsResourceInstance? && o.AbsResourceInstance?)
  }

  /** For a module-kind endpoint, `SelectsModule` is exactly `Covers`. */
  lemma SelectsModuleIsCovers(e: Endpoint, m: ModuleInstance)
    requires ValidEndpoint(e) && ModuleKind(e.rel) && ActualPath(m)
    ensures PathSelects(Synth(e), m) <==> Covers(e, ModuleInst(m))
  {
    if PathSelects(Synth(e), m) {
      SelectedPathIsDenoted(e, m);
    }
    if Covers(e, ModuleInst(m)) {
      if e.rel.ModuleCall? {
        DenotedPathIsSelected(e, CallOf(m), m[|m| - 1].key);
        assert FullPath(CallOf(m), m[|m| - 1].key) == m;
      } else {
        DenotedPathIsSelected(e, ModuleInst(m), NoKey);
        assert FullPath(ModuleInst(m), NoKey) == m;
      }
    }
  }

  /** For a resource-kind endpoint, `SelectsResource` holds of a resource exactly
      when the endpoint names it or one of its instances. */
  lemma SelectsResourceIsDenotes(e: Endpoint, addr: Moveable)
    requires ValidEndpoint(e) && addr.AbsResource? && Actual(addr)
    ensures (&& (e.rel.AbsResource? || e.rel.AbsResourceInstance?)
             && PathSelects(Synth(e), addr.path)
             && e.rel.resource == addr.resource)
        <==> exists x :: Denotes(e, x) && (x == addr || Container(x) == Some(addr))
  {
    if (e.rel.AbsResource? || e.rel.AbsResourceInstance?)
      && PathSelects(Synth(e), addr.path) && e.rel.resource == addr.resource {
      SelectedPathIsDenoted(e, addr.path);
      var x := AtPath(e.rel, addr.path);
      assert Denotes(e, x) && (x == addr || Container(x) == Some(addr));
    }
    if x :| Denotes(e, x) && (x == addr || Container(x) == Some(addr)) {
      DenotedPathIsSelected(e, x, NoKey);
      assert FullPath(x, NoKey) == addr.path;
    }
  }

  lemma SynthIsActualOrAny(e: Endpoint)
    requires ValidEndpoint(e)
    ensures ActualOrAny(Synth(e))
  {
  }

  /** The path on which a covered object was selected. */
  lemma CoveredPathIsSelected(e: Endpoint, x: Moveable)
    requires ValidEndpoint(e) && Covers(e, x)
    ensures !x.ModuleCall? && PathSelects(Synth(e), x.path)
  {
    if ModuleKind(e.rel) {
      if !e.rel.ModuleCall? {
        DenotedPathIsSelected(e, x, NoKey);
      }
      SelectsModuleIsCovers(e, x.path);
    } else {
      DenotedPathIsSelected(e, x, NoKey);
      assert FullPath(x, NoKey) == x.path;
    }
  }

  lemma CanChainFromIsOverlap(e: Endpoint, o: Endpoint)
    requires ValidEndpoint(e) && ValidEndpoint(o)
    ensures CanChainFrom(e, o) <==>
            SameChainKind(e.rel, o.rel) && exists x :: Covers(e, x) && Covers(o, x)
  {
    if CanChainFrom(e, o) {
      var x := OverlapWitness(e, o);
      assert Covers(e, x) && Covers(o, x);
    }
    if SameChainKind(e.rel, o.rel) {
      if x :| Covers(e, x) && Covers(o, x) {
        CoveredPathIsSelected(e, x);
        CoveredPathIsSelected(o, x);
        assert x.path[..|x.path|] == x.path;
        SelectedPrefixesCanMatch(Synth(o), Synth(e), x.path);
      }
    }
  }

  lemma OverlapWitness(e: Endpoint, o: Endpoint) returns (x: Moveable)
    requires ValidEndpoint(e) && ValidEndpoint(o) && CanChainFrom(e, o)
    ensures Covers(e, x) && Covers(o, x)
  {
    SynthIsActualOrAny(e);
    SynthIsActualOrAny(o);
    var w := Merge(Synth(o), Synth(e));
    MergeIsSelected(Synth(o), Synth(e));
    assert w[..|w|] == w;
    if ModuleKind(e.rel) {
      x := ModuleInst(w);
      SelectsModuleIsCovers(e, w);
      SelectsModuleIsCovers(o, w);
    } else {
      x := AtPath(e.rel, w);
      SelectedPathIsDenoted(e, w);
      SelectedPathIsDenoted(o, w);
    }
  }

  lemma CanChainFromSymmetric(e: Endpoint, o: Endpoint)
    requires ValidEndpoint(e) && ValidEndpoint(o)
    ensures CanChainFrom(e, o) == CanChainFrom(o, e)
  {
  }

  /** `Inside` without recursion: what it says about the two module paths. */
  predicate PathInside(x: Moveable, y: Moveable) {
    match y
    case ModuleInst(n) => n <= x.path && x != y
    case ModuleCall(n, c) =>
      && |n| < |x.path| && n <= x.path && x.path[|n|].name == c
    case AbsResource(n, r) => x.AbsResourceInstance? && x.path == n && x.resource == r
    case AbsResourceInstance(_, _, _) => false
  }

  lemma {:induction false} InsideIsPathInside(x: Moveable, y: Moveable)
    ensures Inside(x, y) <==> PathInside(x, y)
    decreases Height(x)
  {
    var c := Container(x);
    if c.Some? {
      InsideIsPathInside(c.value, y);
      if x.ModuleInst? {
        var m := x.path;
        assert m == m[..|m| - 1] + [m[|m| - 1]];
      }
    }
  }

  lemma NestedWithinIsContainment(e: Endpoint, o: Endpoint)
    requires ValidEndpoint(e) && ValidEndpoint(o)
    ensures NestedWithin(e, o) <==>
            exists x, y :: Denotes(e, x) && Denotes(o, y) && Inside(x, y)
  {
    if NestedWithin(e, o) {
      var x, y := NestingWitness(e, o);
      assert Denotes(e, x) && Denotes(o, y) && Inside(x, y);
    }
    if x, y :| Denotes(e, x) && Denotes(o, y) && Inside(x, y) {
      ContainmentIsDetected(e, o, x, y);
    }
  }

  lemma NestingWitness(e: Endpoint, o: Endpoint) returns (x: Moveable, y: Moveable)
    requires ValidEndpoint(e) && ValidEndpoint(o) && NestedWithin(e, o)
    ensures Denotes(e, x) && Denotes(o, y) && Inside(x, y)
  {
    SynthIsActualOrAny(e);
    SynthIsActualOrAny(o);
    var w := Merge(Synth(o), Synth(e));
    MergeIsSelected(Synth(o), Synth(e));
    var v := w[..|Synth(o)|];
    SelectedPathIsDenoted(e, w);
    SelectedPathIsDenoted(o, v);
    x, y := AtPath(e.rel, w), AtPath(o.rel, v);
    WitnessIsInside(e, o, w);
    InsideIsPathInside(x, y);
  }

  lemma WitnessIsInside(e: Endpoint, o: Endpoint, w: ModuleInstance)
    requires NestedWithin(e, o) && |w| == |Synth(e)| && PathSelects(Synth(o), w[..|Synth(o)|])
    ensures PathInside(AtPath(e.rel, w), AtPath(o.rel, w[..|Synth(o)|]))
  {
  }

  lemma ContainmentIsDetected(e: Endpoint, o: Endpoint, x: Moveable, y: Moveable)
    requires ValidEndpoint(e) && ValidEndpoint(o)
    requires Denotes(e, x) && Denotes(o, y) && Inside(x, y)
    ensures NestedWithin(e, o)
  {
    InsideIsPathInside(x, y);
    DenotedPathIsSelected(e, x, NoKey);
    var w := FullPath(x, NoKey);
    var n := |Synth(o)|;
    var key := if y.ModuleCall? then x.path[|y.path|].key else NoKey;
    DenotedPathIsSelected(o, y, key);
    assert FullPath(y, key) == w[..n];
    SelectedPrefixesCanMatch(Synth(o), Synth(e), w);
  }
}
