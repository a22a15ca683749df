/** Unification of the two endpoints of a `moved` block, and the rewriting of
    absolute addresses by the resulting statement. */
module MoveDestination {
  import opened Addrs
  import opened MovePatterns
  import opened Options

  // ------------------------------------------------------------ unification

  /** The address types that unification chooses between. */
  datatype AddrType = InstanceType | ResourceType | ModuleInstanceType | ModuleCallType

  /** What the parser of move endpoints produces: a module instance or a resource
      instance, never a whole call or a whole resource. */
  predicate Parsed(rel: Moveable) {
    rel.ModuleInst? || rel.AbsResourceInstance?
  }

  function InternalAddrType(rel: Moveable): AddrType
    requires Parsed(rel)
  {
    match rel
    case ModuleInst(m) =>
      if m != [] && m[|m| - 1].key.NoKey? then ModuleCallType else ModuleInstanceType
    case AbsResourceInstance(_, _, k) =>
      if k.NoKey? then ResourceType else InstanceType
  }

  function WantType(from: AddrType, to: AddrType): AddrType {
    if from.InstanceType? || to.InstanceType? then InstanceType
    else if from.ResourceType? || to.ResourceType? then ResourceType
    else if from.ModuleInstanceType? || to.ModuleInstanceType? then ModuleInstanceType
    else ModuleCallType
  }

  /** Taking the call of the root module is a panic in the source; the
      precondition says that unification never asks for it. */
  function Prepare(rel: Moveable, decl: Module, want: AddrType): Option<Endpoint>
    requires Parsed(rel)
    requires want.ModuleCallType? && rel.ModuleInst? ==> rel.path != []
  {
    match rel
    case ModuleInst(m) =>
      if want.ModuleInstanceType? then Some(Endpoint(decl, rel))
      else if want.ModuleCallType? then Some(Endpoint(decl, CallOf(m)))
      else None
    case AbsResourceInstance(_, _, _) =>
      if want.InstanceType? then Some(Endpoint(decl, rel))
      else if want.ResourceType? then Some(Endpoint(decl, ContainingResource(rel)))
      else None
  }

  function Unify(decl: Module, from: Moveable, to: Moveable): Option<(Endpoint, Endpoint)>
    requires Parsed(from) && Parsed(to)
  {
    var want := WantType(InternalAddrType(from), InternalAddrType(to));
    var f, t := Prepare(from, decl, want), Prepare(to, decl, want);
    if f.None? || t.None? then None else Some((f.value, t.value))
  }

  /** The two endpoints of one statement. */
  predicate Statement(from: Endpoint, to: Endpoint) {
    from.decl == to.decl && SameType(from.rel, to.rel)
  }

  /** The endpoint could mean the object that contains it: its last key is missing. */
  predicate Unkeyed(rel: Moveable)
    requires Parsed(rel)
  {
    match rel
    case ModuleInst(m) => m != [] && m[|m| - 1].key.NoKey?
    case AbsResourceInstance(_, _, k) => k.NoKey?
  }

  /** Unification succeeds exactly when both endpoints name modules or both name
      resources. It then gives a statement over the declaring module. Both sides
      stand for the whole call or resource if both could, and otherwise for the
      instances as written. */
  lemma UnifySucceedsIffKindsAgree(decl: Module, from: Moveable, to: Moveable)
    requires Parsed(from) && Parsed(to)
    ensures Unify(decl, from, to).Some? <==> from.ModuleInst? == to.ModuleInst?
    ensures Unify(decl, from, to).Some? ==>
              var (f, t) := Unify(decl, from, to).value;
              && Statement(f, t) && f.decl == decl
              && if Unkeyed(from) && Unkeyed(to)
                 then Some(f.rel) == Container(from) && Some(t.rel) == Container(to)
                 else f.rel == from && t.rel == to
  {
  }

  // ------------------------------------------------------------ destination

  /** `Panic` stands for a failed type assertion in the source. */
  datatype Destination = Moved(addr: Moveable) | NoMatch | Panic

  datatype PrefixMatch = Mismatch | Split(prefix: ModuleInstance, rest: ModuleInstance)

  predicate NamesMatch(decl: Module, m: ModuleInstance) {
    |decl| <= |m| && forall i :: 0 <= i < |decl| ==> decl[i] == m[i].name
  }

  function MatchPrefix(decl: Module, m: ModuleInstance): PrefixMatch {
    if NamesMatch(decl, m) then Split(m[..|decl|], m[|decl|..]) else Mismatch
  }

  method MatchModuleInstancePrefix(e: Endpoint, m: ModuleInstance) returns (r: PrefixMatch)
    ensures r == MatchPrefix(e.decl, m)
  {
    if |e.decl| > |m| {
      return Mismatch;
    }
    for i := 0 to |e.decl|
      invariant forall j :: 0 <= j < i ==> e.decl[j] == m[j].name
    {
      if e.decl[i] != m[i].name {
        return Mismatch;
      }
    }
    return Split(m[..|e.decl|], m[|e.decl|..]);
  }

  /** The destination of a module instance. */
  function MoveModule(m: ModuleInstance, from: Endpoint, to: Endpoint): Destination {
    if m == [] || !ModuleKind(from.rel) then NoMatch
    else match MatchPrefix(from.decl, m)
      case Mismatch => NoMatch
      case Split(prefix, rest) =>
        match from.rel
        case ModuleInst(p) =>
          if !(p <= rest) then NoMatch
          else if !to.rel.ModuleInst? then Panic
          else Moved(ModuleInst(prefix + to.rel.path + rest[|p|..]))
        case ModuleCall(p, c) =>
          if !(p < rest) || rest[|p|].name != c then NoMatch
          else if !to.rel.ModuleCall? then Panic
          else Moved(ModuleInst(
            prefix + (to.rel.path + [Step(to.rel.call, rest[|p|].key)]) + rest[|p| + 1..]))
        case _ => NoMatch
  }

  method ModuleMoveDestination(m: ModuleInstance, from: Endpoint, to: Endpoint)
    returns (d: Destination)
    ensures d == MoveModule(m, from, to)
  {
    if m == [] || !ModuleKind(from.rel) {
      return NoMatch;
    }
    var split := MatchModuleInstancePrefix(from, m);
    if split.Mismatch? {
      return NoMatch;
    }
    var mRel := split.rest;
    var newMatch, suffix: ModuleInstance := [], [];
    var p := from.rel.path;
    if from.rel.ModuleInst? {
      if |p| > |mRel| {
        return NoMatch;
      }
      for i := 0 to |p|
        invariant p[..i] <= mRel
      {
        if p[i] != mRel[i] {
          return NoMatch;
        }
      }
      if !to.rel.ModuleInst? {
        return Panic;
      }
      newMatch := to.rel.path;
      suffix := mRel[|p|..];
    } else {
      if |p| > |mRel| - 1 {
        return NoMatch;
      }
      for i := 0 to |p|
        invariant p[..i] <= mRel
      {
        if p[i] != mRel[i] {
          return NoMatch;
        }
      }
      if mRel[|p|].name != from.rel.call {
        return NoMatch;
      }
      if !to.rel.ModuleCall? {
        return Panic;
      }
      newMatch := to.rel.path + [Step(to.rel.call, mRel[|p|].key)];
      suffix := mRel[|p| + 1..];
    }
    d := Moved(ModuleInst(split.prefix + newMatch + suffix));
  }

  /** The destination of a resource or resource instance whose own type is the
      type of the statement's subjects. */
  function MoveExact(x: Moveable, from: Endpoint, to: Endpoint): Destination {
    match MatchPrefix(from.decl, x.path)
    case Mismatch => NoMatch
    case Split(prefix, rest) =>
      if rest != from.rel.path then NoMatch
      else if !SameType(from.rel, to.rel) then Panic
      else Moved(WithPath(to.rel, prefix + to.rel.path))
  }

  /** The destination of a whole resource. */
  function MoveResource(x: Moveable, from: Endpoint, to: Endpoint): Destination
    requires x.AbsResource?
  {
    if ModuleKind(from.rel) then Relocate(MoveModule(x.path, from, to), x)
    else if !from.rel.AbsResource? || from.rel.resource != x.resource then NoMatch
    else MoveExact(x, from, to)
  }

  /** The destination of one resource instance. */
  function MoveInstance(x: Moveable, from: Endpoint, to: Endpoint): Destination
    requires x.AbsResourceInstance?
  {
    if ModuleKind(from.rel) then Relocate(MoveModule(x.path, from, to), x)
    else if from.rel.AbsResource? then
      match MoveResource(ContainingResource(x), from, to)
      case Moved(y) =>
        if y.AbsResource? then Moved(AbsResourceInstance(y.path, y.resource, x.key)) else Panic
      case NoMatch => NoMatch
      case Panic => Panic
    else if from.rel.resource != x.resource || from.rel.key != x.key then NoMatch
    else MoveExact(x, from, to)
  }

  /** `MoveDestination` of the three receiver types; a module call is not a receiver. */
  function Move(x: Moveable, from: Endpoint, to: Endpoint): Destination
    requires !x.ModuleCall?
  {
    match x
    case ModuleInst(m) => MoveModule(m, from, to)
    case AbsResource(_, _) => MoveResource(x, from, to)
    case AbsResourceInstance(_, _, _) => MoveInstance(x, from, to)
  }

  /** An object inside a moved module goes where the module goes. */
  function Relocate(d: Destination, x: Moveable): Destination {
    if d.Moved? then Moved(WithPath(x, d.addr.path)) else d
  }

  // ---------------------------------------------------------------- meaning

  /** The relation that a statement is meant to be: in one instance of the
      declaring module, the `from` subject is replaced by the `to` subject, and
      everything below it comes along unchanged. */
  ghost predicate MovesTo(x: Moveable, y: Moveable, from: Endpoint, to: Endpoint) {
    exists inst, key, suffix :: MovesWith(x, y, from, to, inst, key, suffix)
  }

  predicate MovesWith(x: Moveable, y: Moveable, from: Endpoint, to: Endpoint,
                      inst: ModuleInstance, key: InstanceKey, suffix: ModuleInstance) {
    && |inst| == |from.decl| && NamesMatch(from.decl, inst)
    && if ModuleKind(from.rel) then
         && x.path == inst + FullPath(from.rel, key) + suffix
         && y == WithPath(x, inst + FullPath(to.rel, key) + suffix)
       else if from.rel.AbsResource? && x.AbsResourceInstance? then
         && x == AbsResourceInstance(inst + from.rel.path, from.rel.resource, x.key)
         && to.rel.AbsResource?
         && y == AbsResourceInstance(inst + to.rel.path, to.rel.resource, x.key)
       else
         x == InModuleInstance(from, inst) && y == InModuleInstance(to, inst)
  }

  /** Parsed module endpoints are never the root module. */
  predicate Proper(e: Endpoint) {
    e.rel.ModuleInst? ==> e.rel.path != []
  }

  // ----------------------------------------------------------------- proofs

  /** The three parts of a module path that a module statement matches. */
  predicate PathParts(m: ModuleInstance, e: Endpoint,
                      inst: ModuleInstance, key: InstanceKey, suffix: ModuleInstance) {
    && |inst| == |e.decl| && NamesMatch(e.decl, inst)
    && m == inst + FullPath(e.rel, key) + suffix
  }

  lemma ModuleMoveIsSound(m: ModuleInstance, from: Endpoint, to: Endpoint)
    returns (inst: ModuleInstance, key: InstanceKey, suffix: ModuleInstance)
    requires Statement(from, to) && ModuleKind(from.rel) && MoveModule(m, from, to).Moved?
    ensures PathParts(m, from, inst, key, suffix)
    ensures PathParts(MoveModule(m, from, to).addr.path, to, inst, key, suffix)
  {
    inst := m[..|from.decl|];
    var rest, p := m[|from.decl|..], from.rel.path;
    assert m == inst + rest;
    var full: ModuleInstance;
    if from.rel.ModuleCall? {
      key, full, suffix := rest[|p|].key, rest[..|p| + 1], rest[|p| + 1..];
      assert full == p + [rest[|p|]];
    } else {
      key, full, suffix := NoKey, rest[..|p|], rest[|p|..];
      assert full == p == p + [] && FullPath(to.rel, key) == to.rel.path;
    }
    assert full == FullPath(from.rel, key) && rest == full + suffix;
    assert inst + (full + suffix) == inst + full + suffix;
  }

  lemma ModuleMoveIsComplete(m: ModuleInstance, from: Endpoint, to: Endpoint,
                             inst: ModuleInstance, key: InstanceKey, suffix: ModuleInstance)
    requires Statement(from, to) && Proper(from) && ModuleKind(from.rel)
    requires PathParts(m, from, inst, key, suffix)
    ensures MoveModule(m, from, to) == Moved(ModuleInst(inst + FullPath(to.rel, key) + suffix))
  {
    var full := FullPath(from.rel, key);
    var rest := full + suffix;
    assert m == inst + rest;
    assert MatchPrefix(from.decl, m) == Split(inst, rest);
    assert rest[|full|..] == suffix;
    assert rest[..|full|] == full;
    if from.rel.ModuleCall? {
      assert rest[|from.rel.path|] == full[|from.rel.path|];
    } else {
      assert full == from.rel.path && FullPath(to.rel, key) == to.rel.path;
    }
    assert m != [] && from.rel.path <= rest;
  }

  lemma MoveIsSound(x: Moveable, from: Endpoint, to: Endpoint)
    requires Statement(from, to) && !x.ModuleCall?
    ensures !Move(x, from, to).Panic?
    ensures Move(x, from, to).Moved? ==> MovesTo(x, Move(x, from, to).addr, from, to)
  {
    var d := Move(x, from, to);
    if d.Moved? {
      if ModuleKind(from.rel) {
        var inst, key, suffix := ModuleMoveIsSound(x.path, from, to);
        assert MovesWith(x, d.addr, from, to, inst, key, suffix);
      } else {
        var inst := x.path[..|from.decl|];
        assert x.path == inst + from.rel.path;
        assert MovesWith(x, d.addr, from, to, inst, NoKey, []);
      }
    }
  }

  lemma MoveIsComplete(x: Moveable, y: Moveable, from: Endpoint, to: Endpoint)
    requires Statement(from, to) && Proper(from) && !x.ModuleCall?
    requires MovesTo(x, y, from, to)
    ensures Move(x, from, to) == Moved(y)
  {
    var inst, key, suffix :| MovesWith(x, y, from, to, inst, key, suffix);
    if ModuleKind(from.rel) {
      ModuleMoveIsComplete(x.path, from, to, inst, key, suffix);
    } else {
      assert x.path == inst + from.rel.path;
      assert MatchPrefix(from.decl, x.path) == Split(inst, from.rel.path);
    }
  }

  /** `MoveDestination` computes exactly the relation, on every address and for
      every statement; no type assertion can fail. */
  lemma MoveIsMovesTo(x: Moveable, y: Moveable, from: Endpoint, to: Endpoint)
    requires Statement(from, to) && Proper(from) && !x.ModuleCall?
    ensures !Move(x, from, to).Panic?
    ensures Move(x, from, to) == Moved(y) <==> MovesTo(x, y, from, to)
  {
    MoveIsSound(x, from, to);
    if MovesTo(x, y, from, to) {
      MoveIsComplete(x, y, from, to);
    }
  }

  lemma MovesToIsSymmetric(x: Moveable, y: Moveable, from: Endpoint, to: Endpoint)
    requires Statement(from, to) && MovesTo(x, y, from, to)
    ensures MovesTo(y, x, to, from)
  {
    var inst, key, suffix :| MovesWith(x, y, from, to, inst, key, suffix);
    assert MovesWith(y, x, to, from, inst, key, suffix);
  }

  /** A statement is a partial bijection: the reversed statement undoes it. */
  lemma MoveRoundTrip(x: Moveable, from: Endpoint, to: Endpoint)
    requires Statement(from, to) && Proper(from) && Proper(to) && !x.ModuleCall?
    requires Move(x, from, to).Moved?
    ensures var y := Move(x, from, to).addr;
            !y.ModuleCall? && Move(y, to, from) == Moved(x)
  {
    var y := Move(x, from, to).addr;
    MoveIsSound(x, from, to);
    MovesToIsSymmetric(x, y, from, to);
    MoveIsComplete(y, x, to, from);
  }

  lemma MoveIsInjective(x: Moveable, x': Moveable, from: Endpoint, to: Endpoint)
    requires Statement(from, to) && Proper(from) && Proper(to)
    requires !x.ModuleCall? && !x'.ModuleCall?
    requires Move(x, from, to).Moved? && Move(x, from, to) == Move(x', from, to)
    ensures x == x'
  {
    MoveRoundTrip(x, from, to);
    MoveRoundTrip(x', from, to);
  }

  /** The whole pipeline: endpoints as parsed, unified, then applied both ways. */
  lemma UnifiedStatementIsBijection(decl: Module, relFrom: Moveable, relTo: Moveable, x: Moveable)
    requires Parsed(relFrom) && Parsed(relTo) && !x.ModuleCall?
    requires relFrom.ModuleInst? ==> relFrom.path != []
    requires relTo.ModuleInst? ==> relTo.path != []
    requires Unify(decl, relFrom, relTo).Some?
    ensures var (f, t) := Unify(decl, relFrom, relTo).value;
            && !Move(x, f, t).Panic?
            && (Move(x, f, t).Moved? ==>
                  && !Move(x, f, t).addr.ModuleCall?
                  && Move(Move(x, f, t).addr, t, f) == Moved(x))
  {
    UnifySucceedsIffKindsAgree(decl, relFrom, relTo);
    var (f, t) := Unify(decl, relFrom, relTo).value;
    MoveIsSound(x, f, t);
    if Move(x, f, t).Moved? {
      MoveRoundTrip(x, f, t);
    }
  }

  lemma PartsAreSelected(m: ModuleInstance, e: Endpoint,
                         inst: ModuleInstance, key: InstanceKey, suffix: ModuleInstance)
    requires ModuleKind(e.rel) && ValidEndpoint(e) && PathParts(m, e, inst, key, suffix)
    ensures |Synth(e)| <= |m| && PathSelects(Synth(e), m[..|Synth(e)|])
  {
    assert m[..|Synth(e)|] == inst + FullPath(e.rel, key);
  }

  lemma SelectedHasParts(m: ModuleInstance, e: Endpoint, n: nat, key: InstanceKey)
    requires ModuleKind(e.rel) && ValidEndpoint(e) && n == |Synth(e)| <= |m| && PathSelects(Synth(e), m[..n])
    requires e.rel.ModuleCall? ==> key == m[n - 1].key
    ensures PathParts(m, e, m[..|e.decl|], key, m[n..])
  {
    assert m[..n] == m[..|e.decl|] + FullPath(e.rel, key) by {
      assert forall i :: 0 <= i < n ==> StepSelects(Synth(e)[i], m[..n][i]);
    }
  }

  /** A module statement matches exactly when `SelectsModule` holds of the prefix
      that is as long as the pattern. */
  lemma ModuleMoveMatchesSelectedPrefix(m: ModuleInstance, from: Endpoint, to: Endpoint)
    requires Statement(from, to) && Proper(from) && ValidEndpoint(from) && ModuleKind(from.rel)
    ensures MoveModule(m, from, to).Moved?
       <==> |Synth(from)| <= |m| && PathSelects(Synth(from), m[..|Synth(from)|])
  {
    var n := |Synth(from)|;
    if MoveModule(m, from, to).Moved? {
      var inst, key, suffix := ModuleMoveIsSound(m, from, to);
      PartsAreSelected(m, from, inst, key, suffix);
    } else if n <= |m| && PathSelects(Synth(from), m[..n]) {
      var key := if from.rel.ModuleCall? then m[n - 1].key else NoKey;
      SelectedHasParts(m, from, n, key);
      ModuleMoveIsComplete(m, from, to, m[..|from.decl|], key, m[n..]);
      assert false;
    }
  }

  /** Extending a module instance extends its destination by the same suffix. */
  lemma ModuleMoveExtends(m: ModuleInstance, suffix: ModuleInstance, from: Endpoint, to: Endpoint)
    requires Statement(from, to) && Proper(from) && MoveModule(m, from, to).Moved?
    ensures MoveModule(m + suffix, from, to)
         == Moved(ModuleInst(MoveModule(m, from, to).addr.path + suffix))
  {
    var inst, key, tail := ModuleMoveIsSound(m, from, to);
    assert forall p: ModuleInstance :: p + tail + suffix == p + (tail + suffix);
    ModuleMoveIsComplete(m + suffix, from, to, inst, key, tail + suffix);
  }

  /** For statements about modules or whole resources, moving an instance and
      then taking its resource is moving its resource. */
  lemma MoveCommutesWithContainingResource(x: Moveable, from: Endpoint, to: Endpoint)
    requires x.AbsResourceInstance? && Statement(from, to) && !from.rel.AbsResourceInstance?
    ensures var d, c := Move(x, from, to), Move(ContainingResource(x), from, to);
            && d.Moved? == c.Moved?
            && (d.Moved? ==>
                  && d.addr.AbsResourceInstance? && d.addr.key == x.key
                  && c.addr == ContainingResource(d.addr))
  {
  }
}
