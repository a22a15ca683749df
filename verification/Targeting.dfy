/** Containment between target addresses. */
module Targeting {
  import opened Addrs
  import opened AddressText
  import MovePatterns

  datatype Target =
    | Abs(x: Moveable)
    | StaticModule(m: Module)
    | ConfigResource(m: Module, resource: Resource)

  function Unkeyed(m: Module): ModuleInstance {
    seq(|m|, i requires 0 <= i < |m| => Step(m[i], NoKey))
  }

  /** A static resource prints like the resource with no keys in its path. */
  function ConfigText(m: Module, r: Resource, isPrint: char -> bool): string {
    AddrText(AbsResource(Unkeyed(m), r), isPrint)
  }

  /** The steps of `m` match the start of `o`. The last step of `m`, if it has no
      key, also stands for every instance of its call. */
  predicate PathContains(m: ModuleInstance, o: ModuleInstance) {
    && |m| <= |o|
    && forall i :: 0 <= i < |m| ==> StepContains(m[i], o[i], i == |m| - 1)
  }

  predicate StepContains(s: Step, o: Step, last: bool) {
    s.name == o.name && (s.key == o.key || (last && s.key.NoKey?))
  }

  method ModuleInstanceContains(m: ModuleInstance, o: ModuleInstance) returns (b: bool)
    ensures b == PathContains(m, o)
  {
    if |o| < |m| {
      return false;
    }
    for i := 0 to |m|
      invariant forall j :: 0 <= j < i ==> StepContains(m[j], o[j], j == |m| - 1)
    {
      if m[i].name != o[i].name {
        return false;
      }
      if i == |m| - 1 {
        if m[i].key.NoKey? {
          return true;
        }
      }
      if m[i].key != o[i].key {
        return false;
      }
    }
    return true;
  }

  predicate ModuleInstanceContainsStatic(m: ModuleInstance, to: Module) {
    && |m| <= |to|
    && forall i :: 0 <= i < |m| ==> m[i].key.NoKey? && m[i].name == to[i]
  }

  /** `TargetContains` of the five target types. */
  predicate Contains(t: Target, other: Target, isPrint: char -> bool) {
    match t
    case Abs(ModuleInst(m)) =>
      (match other
       case Abs(ModuleCall(_, _)) => false
       case Abs(x) => PathContains(m, x.path)
       case StaticModule(to) => ModuleInstanceContainsStatic(m, to)
       case ConfigResource(to, _) => ModuleInstanceContainsStatic(m, to))
    case Abs(AbsResource(m, r)) =>
      (match other
       case Abs(AbsResource(_, _)) => AddrText(other.x, isPrint) == AddrText(t.x, isPrint)
       case Abs(AbsResourceInstance(_, _, _)) =>
         AddrText(ContainingResource(other.x), isPrint) == AddrText(t.x, isPrint)
       case ConfigResource(to, q) => ConfigText(to, q, isPrint) == AddrText(t.x, isPrint)
       case _ => false)
    case Abs(AbsResourceInstance(m, r, k)) =>
      (match other
       case Abs(AbsResourceInstance(_, _, _)) => AddrText(other.x, isPrint) == AddrText(t.x, isPrint)
       case Abs(AbsResource(_, _)) => AddrText(other.x, isPrint) == AddrText(t.x, isPrint)
       case ConfigResource(to, q) => ConfigText(to, q, isPrint) == AddrText(t.x, isPrint)
       case _ => false)
    case Abs(ModuleCall(_, _)) => false
    case StaticModule(m) =>
      (match other
       case Abs(ModuleCall(_, _)) => false
       case Abs(x) => m <= StaticPath(x.path)
       case StaticModule(to) => m <= to
       case ConfigResource(to, _) => m <= to)
    case ConfigResource(m, r) =>
      (match other
       case Abs(AbsResource(n, q)) => ConfigText(StaticPath(n), q, isPrint) == ConfigText(m, r, isPrint)
       case Abs(AbsResourceInstance(n, q, _)) => ConfigText(StaticPath(n), q, isPrint) == ConfigText(m, r, isPrint)
       case ConfigResource(n, q) => ConfigText(n, q, isPrint) == ConfigText(m, r, isPrint)
       case _ => false)
  }

  /** A module call is not a target. */
  predicate Targetable(t: Target) {
    t.Abs? ==> !t.x.ModuleCall?
  }

  lemma ContainsReflexive(t: Target, isPrint: char -> bool)
    requires Targetable(t)
    ensures Contains(t, t, isPrint)
  {
  }

  /** The resource that prints like a static resource. */
  function AsAbsolute(t: Target): Moveable
    requires t.ConfigResource?
  {
    AbsResource(Unkeyed(t.m), t.resource)
  }

  predicate PrintableTarget(t: Target) {
    match t
    case Abs(x) => Printable(x)
    case StaticModule(_) => true
    case ConfigResource(_, _) => Printable(AsAbsolute(t))
  }

  /** The resource that an address with no key of its own stands for. */
  predicate StandsFor(x: Moveable, r: Moveable) {
    x == r || (x.AbsResourceInstance? && x.key.NoKey? && ContainingResource(x) == r)
  }

  predicate ResourceCovers(x: Moveable, other: Target) {
    match other
    case Abs(y) =>
      || x == y
      || (y.AbsResource? && StandsFor(x, y))
      || (x.AbsResource? && y.AbsResourceInstance? && ContainingResource(y) == x)
    case StaticModule(_) => false
    case ConfigResource(_, _) => StandsFor(x, AsAbsolute(other))
  }

  /** `Contains` without texts: what the comparisons of strings amount to. */
  predicate Covers(t: Target, other: Target) {
    match t
    case Abs(ModuleInst(m)) =>
      (match other
       case Abs(ModuleCall(_, _)) => false
       case Abs(x) => PathContains(m, x.path)
       case StaticModule(to) => ModuleInstanceContainsStatic(m, to)
       case ConfigResource(to, _) => ModuleInstanceContainsStatic(m, to))
    case Abs(ModuleCall(_, _)) => false
    case Abs(x) => ResourceCovers(x, other)
    case StaticModule(m) =>
      (match other
       case Abs(y) => !y.ModuleCall? && m <= StaticPath(y.path)
       case StaticModule(to) => m <= to
       case ConfigResource(to, _) => m <= to)
    case ConfigResource(m, r) =>
      (match other
       case Abs(y) => !ModuleKind(y) && StaticPath(y.path) == m && y.resource == r
       case StaticModule(_) => false
       case ConfigResource(n, q) => n == m && q == r)
  }

  /** An instance prints like a resource exactly if it has no key and is an
      instance of that resource. */
  lemma InstanceTextIsResourceText(x: Moveable, r: Moveable, isPrint: char -> bool)
    requires x.AbsResourceInstance? && r.AbsResource? && Printable(x) && Printable(r) && isPrint('{')
    ensures AddrText(x, isPrint) == AddrText(r, isPrint) <==> StandsFor(x, r)
  {
    var unkeyed := AbsResourceInstance(r.path, r.resource, NoKey);
    assert ResourceText(r.resource) + KeyText(NoKey, isPrint) == ResourceText(r.resource);
    assert AddrText(unkeyed, isPrint) == AddrText(r, isPrint);
    AddrTextInjective(x, unkeyed, isPrint);
  }

  lemma UnkeyedInjective(m: Module, n: Module)
    requires Unkeyed(m) == Unkeyed(n)
    ensures m == n
  {
    assert m == StaticPath(Unkeyed(m)) && n == StaticPath(Unkeyed(n));
  }

  lemma ConfigTextInjective(m: Module, r: Resource, n: Module, q: Resource, isPrint: char -> bool)
    requires Printable(AbsResource(Unkeyed(m), r)) && Printable(AbsResource(Unkeyed(n), q)) && isPrint('{')
    ensures ConfigText(m, r, isPrint) == ConfigText(n, q, isPrint) <==> m == n && r == q
  {
    AddrTextInjective(AbsResource(Unkeyed(m), r), AbsResource(Unkeyed(n), q), isPrint);
    if Unkeyed(m) == Unkeyed(n) {
      UnkeyedInjective(m, n);
    }
  }

  lemma StaticPathPrintable(x: Moveable)
    requires !ModuleKind(x) && Printable(x)
    ensures Printable(AbsResource(Unkeyed(StaticPath(x.path)), x.resource))
  {
  }

  /** The comparisons of strings decide equality of addresses, for all pairs of
      target types. */
  lemma ContainsIsCovers(t: Target, other: Target, isPrint: char -> bool)
    requires Targetable(t) && Targetable(other) && isPrint('{')
    requires PrintableTarget(t) && PrintableTarget(other)
    ensures Contains(t, other, isPrint) <==> Covers(t, other)
  {
    if t.Abs? && !t.x.ModuleInst? {
      if other.Abs? && !other.x.ModuleInst? {
        TextsCompared(t.x, other.x, isPrint);
      } else if other.ConfigResource? {
        TextsCompared(t.x, AsAbsolute(other), isPrint);
      }
    } else if t.ConfigResource? {
      if other.Abs? && !other.x.ModuleInst? {
        StaticPathPrintable(other.x);
        ConfigTextInjective(StaticPath(other.x.path), other.x.resource, t.m, t.resource, isPrint);
      } else if other.ConfigResource? {
        ConfigTextInjective(other.m, other.resource, t.m, t.resource, isPrint);
      }
    }
  }

  lemma TextsCompared(x: Moveable, y: Moveable, isPrint: char -> bool)
    requires !ModuleKind(x) && !ModuleKind(y) && Printable(x) && Printable(y) && isPrint('{')
    ensures Contains(Abs(x), Abs(y), isPrint) <==> Covers(Abs(x), Abs(y))
  {
    if x.AbsResource? {
      var r := if y.AbsResource? then y else ContainingResource(y);
      AddrTextInjective(r, x, isPrint);
    } else if y.AbsResource? {
      InstanceTextIsResourceText(x, y, isPrint);
    } else {
      AddrTextInjective(y, x, isPrint);
    }
  }

  /** What a module target covers, in terms of containment: the instance and all
      inside it, and if its last key is missing everything inside its call. */
  lemma ModuleTargetCoversInside(m: ModuleInstance, x: Moveable, isPrint: char -> bool)
    requires !x.ModuleCall?
    ensures Contains(Abs(ModuleInst(m)), Abs(x), isPrint) <==>
              || x == ModuleInst(m)
              || MovePatterns.Inside(x, ModuleInst(m))
              || (m != [] && m[|m| - 1].key.NoKey? && MovePatterns.Inside(x, MovePatterns.CallOf(m)))
  {
    MovePatterns.InsideIsPathInside(x, ModuleInst(m));
    if m != [] {
      var last := |m| - 1;
      MovePatterns.InsideIsPathInside(x, MovePatterns.CallOf(m));
      if PathContains(m, x.path) {
        assert StepContains(m[last], x.path[last], true);
        assert forall i :: 0 <= i < last ==> StepContains(m[i], x.path[i], false);
        assert m[..last] <= x.path;
        if m[last].key == x.path[last].key {
          assert m == m[..last] + [m[last]] == x.path[..|m|];
        }
      }
      if m <= x.path {
        assert forall i :: 0 <= i < |m| ==> m[i] == x.path[i];
      }
    }
  }

  /** `n` is one dynamic instance of the static module `m`. */
  predicate IsInstanceOf(n: ModuleInstance, m: Module) {
    |n| == |m| && forall i :: 0 <= i < |m| ==> n[i].name == m[i]
  }

  /** The object itself, or something inside it. */
  predicate AtOrInside(x: Moveable, y: Moveable) {
    x == y || MovePatterns.Inside(x, y)
  }

  /** A static module target covers all instances of the module and all inside them. */
  lemma StaticTargetCoversInside(m: Module, x: Moveable, isPrint: char -> bool)
    requires !x.ModuleCall?
    ensures Contains(StaticModule(m), Abs(x), isPrint) <==>
              exists n :: IsInstanceOf(n, m) && AtOrInside(x, ModuleInst(n))
  {
    if n :| IsInstanceOf(n, m) && AtOrInside(x, ModuleInst(n)) {
      MovePatterns.InsideIsPathInside(x, ModuleInst(n));
      assert n <= x.path;
    }
    if Contains(StaticModule(m), Abs(x), isPrint) {
      var n := x.path[..|m|];
      assert forall i :: 0 <= i < |m| ==> StaticPath(x.path)[i] == m[i];
      assert IsInstanceOf(n, m);
      MovePatterns.InsideIsPathInside(x, ModuleInst(n));
    }
  }

  /** A module instance target covers a static module exactly if it has no keys and
      the module lies at or below it; likewise the resources of the module. */
  lemma ModuleTargetCoversStatic(m: ModuleInstance, to: Module, r: Resource, isPrint: char -> bool)
    ensures Contains(Abs(ModuleInst(m)), StaticModule(to), isPrint) <==> m <= Unkeyed(to)
    ensures Contains(Abs(ModuleInst(m)), ConfigResource(to, r), isPrint) <==> m <= Unkeyed(to)
    ensures IsInstanceOf(Unkeyed(to), to) && forall i :: 0 <= i < |to| ==> Unkeyed(to)[i].key == NoKey
  {
  }

  /** A static resource target covers all instances of the resource. */
  lemma ConfigTargetCoversInside(m: Module, r: Resource, x: Moveable, isPrint: char -> bool)
    requires PrintableTarget(ConfigResource(m, r)) && Printable(x) && !x.ModuleCall? && isPrint('{')
    ensures Contains(ConfigResource(m, r), Abs(x), isPrint) <==>
              exists n :: IsInstanceOf(n, m) && AtOrInside(x, AbsResource(n, r))
  {
    ContainsIsCovers(ConfigResource(m, r), Abs(x), isPrint);
    MovePatterns.InsideIsPathInside(x, AbsResource(x.path, r));
    if n :| IsInstanceOf(n, m) && AtOrInside(x, AbsResource(n, r)) {
      MovePatterns.InsideIsPathInside(x, AbsResource(n, r));
      assert StaticPath(n) == m;
    }
    if Contains(ConfigResource(m, r), Abs(x), isPrint) {
      assert IsInstanceOf(x.path, m) && AtOrInside(x, AbsResource(x.path, r));
    }
  }

  /** A resource target covers itself and its instances; an instance target covers
      itself, and if it has no key the resource as well. */
  lemma ResourceTargetCoversInside(y: Moveable, x: Moveable, isPrint: char -> bool)
    requires !ModuleKind(y) && !x.ModuleCall? && Printable(x) && Printable(y) && isPrint('{')
    ensures Contains(Abs(y), Abs(x), isPrint) <==>
              || AtOrInside(x, y)
              || (y.AbsResourceInstance? && y.key.NoKey? && x == ContainingResource(y))
  {
    ContainsIsCovers(Abs(y), Abs(x), isPrint);
    MovePatterns.InsideIsPathInside(x, y);
  }

  predicate UnkeyedUpTo(m: ModuleInstance, n: int) {
    forall i :: 0 <= i < |m| && i < n ==> m[i].key.NoKey?
  }

  /** When a chain of two containments is also one. Two things break it: going up
      from an unkeyed instance to its resource and down to a keyed instance, and
      going from an absolute address through a static one to an address with keys
      that the static one does not show. */
  predicate ChainHolds(x: Target, y: Target, z: Target) {
    if !x.Abs? || !z.Abs? then true
    else if y.Abs? then
      !(x.x.AbsResourceInstance? && y.x.AbsResource? && z.x.AbsResourceInstance? && !z.x.key.NoKey?)
    else if x.x.ModuleInst? then UnkeyedUpTo(z.x.path, |x.x.path| - 1)
    else
      && UnkeyedUpTo(z.x.path, |z.x.path|)
      && (x.x.AbsResourceInstance? && z.x.AbsResourceInstance? ==> z.x.key.NoKey?)
  }

  /** Transitivity, exactly: for all targets of all five types. */
  lemma ContainsTransitiveIff(x: Target, y: Target, z: Target, isPrint: char -> bool)
    requires Targetable(x) && Targetable(y) && Targetable(z) && isPrint('{')
    requires PrintableTarget(x) && PrintableTarget(y) && PrintableTarget(z)
    requires Contains(x, y, isPrint) && Contains(y, z, isPrint)
    ensures Contains(x, z, isPrint) <==> ChainHolds(x, y, z)
  {
    ContainsIsCovers(x, y, isPrint);
    ContainsIsCovers(y, z, isPrint);
    ContainsIsCovers(x, z, isPrint);
    CoversTransitiveIff(x, y, z);
  }

  lemma CoversTransitiveIff(x: Target, y: Target, z: Target)
    requires Targetable(x) && Targetable(y) && Targetable(z) && Covers(x, y) && Covers(y, z)
    ensures Covers(x, z) <==> ChainHolds(x, y, z)
  {
  }

  /** How far down the object lies: module instance, resource, instance. */
  function Level(x: Moveable): nat {
    match x
    case ModuleInst(_) => 0
    case ModuleCall(_, _) => 0
    case AbsResource(_, _) => 1
    case AbsResourceInstance(_, _, _) => 2
  }

  /** In particular, containment is transitive along chains that go down. */
  lemma ContainsTransitive(x: Moveable, y: Moveable, z: Moveable, isPrint: char -> bool)
    requires Printable(x) && Printable(y) && Printable(z) && isPrint('{')
    requires !x.ModuleCall? && !y.ModuleCall? && !z.ModuleCall?
    requires Level(x) <= Level(y) <= Level(z)
    requires Contains(Abs(x), Abs(y), isPrint) && Contains(Abs(y), Abs(z), isPrint)
    ensures Contains(Abs(x), Abs(z), isPrint)
  {
    ContainsTransitiveIff(Abs(x), Abs(y), Abs(z), isPrint);
  }

  /** A chain that goes up can fail: the unkeyed instance contains its resource by
      text, the resource contains every instance, the instances differ. */
  lemma UpwardChainBreaksTransitivity(m: ModuleInstance, r: Resource, isPrint: char -> bool)
    requires Printable(AbsResource(m, r)) && isPrint('{')
    ensures var x, y, z := Abs(AbsResourceInstance(m, r, NoKey)), Abs(AbsResource(m, r)),
                           Abs(AbsResourceInstance(m, r, IntKey(0)));
            && Contains(x, y, isPrint) && Contains(y, z, isPrint) && !Contains(x, z, isPrint)
  {
  }

  /** So can a chain through a static module. */
  lemma StaticChainBreaksTransitivity(a: string, b: string, isPrint: char -> bool)
    ensures var x := Abs(ModuleInst([Step(a, NoKey), Step(b, NoKey)]));
            var y := StaticModule([a, b]);
            var z := Abs(ModuleInst([Step(a, IntKey(0)), Step(b, NoKey)]));
            && Contains(x, y, isPrint) && Contains(y, z, isPrint) && !Contains(x, z, isPrint)
  {
    var m, o := [Step(a, NoKey), Step(b, NoKey)], [Step(a, IntKey(0)), Step(b, NoKey)];
    assert StaticPath(o) == [a, b];
    assert !StepContains(m[0], o[0], false);
  }
}
