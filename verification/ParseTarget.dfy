/** The parser from traversals to target addresses, and the traversal that
    spells each address. */
module ParseTarget {
  import opened Addrs
  import opened Options

  /** The value inside an index bracket. A number need not be a whole one. */
  datatype IndexValue = StringIndex(s: string) | NumberIndex(r: real) | OtherIndex

  datatype Part = Root(name: string) | Attr(name: string) | Index(value: IndexValue) | Splat

  type Traversal = seq<Part>

  predicate Named(p: Part) {
    p.Root? || p.Attr?
  }

  /** The shape of every absolute traversal: a root name, then no further root. */
  predicate Absolute(t: Traversal) {
    t != [] && t[0].Root? && forall i :: 0 < i < |t| ==> !t[i].Root?
  }

  // ------------------------------------------------------------------- code

  function ParseKey(v: IndexValue): Option<InstanceKey> {
    match v
    case StringIndex(s) => Some(StringKey(s))
    case NumberIndex(r) =>
      var n := r.Floor;
      if n as real == r && -0x8000_0000_0000_0000 <= n < 0x8000_0000_0000_0000
      then Some(IntKey(n)) else None
    case OtherIndex => None
  }

  datatype ModuleName = NotModule | BadModule | IsModule(name: string)

  function GetModuleName(remain: Traversal): ModuleName {
    if remain == [] then NotModule
    else if !Named(remain[0]) then BadModule
    else if remain[0].name != "module" then NotModule
    else if |remain| == 1 || !remain[1].Attr? then BadModule
    else IsModule(remain[1].name)
  }

  /** The key at the front of `remain`, if there is one, and what follows it. */
  function ParseOptionalKey(remain: Traversal, allowRanges: bool): Option<(InstanceKey, Traversal)> {
    if remain == [] then Some((NoKey, remain))
    else if remain[0].Index? then
      var key := ParseKey(remain[0].value);
      if key.Some? then Some((key.value, remain[1..])) else None
    else if remain[0].Splat? && allowRanges then Some((WildcardKey(UnknownKeyType), remain[1..]))
    else Some((NoKey, remain))
  }

  /** The leading module steps of a traversal, and the rest of it. */
  function ParsePrefix(t: Traversal, allowRanges: bool): Option<(ModuleInstance, Traversal)>
    decreases |t|
  {
    match GetModuleName(t)
    case NotModule => Some(([], t))
    case BadModule => None
    case IsModule(name) =>
      var key := ParseOptionalKey(t[2..], allowRanges);
      if key.None? || !(|key.value.1| <= |t| - 2) then None
      else Prepend([Step(name, key.value.0)], ParsePrefix(key.value.1, allowRanges))
  }

  function Prepend(m: ModuleInstance, r: Option<(ModuleInstance, Traversal)>)
    : Option<(ModuleInstance, Traversal)>
  {
    if r.None? then None else Some((m + r.value.0, r.value.1))
  }

  method ParseModuleInstancePrefix(t: Traversal, allowRanges: bool)
    returns (result: Option<(ModuleInstance, Traversal)>)
    ensures result == ParsePrefix(t, allowRanges)
  {
    var remain := t;
    var mi: ModuleInstance := [];
    var failed := false;
    PrependNothing(ParsePrefix(t, allowRanges));
    while |remain| > 0
      invariant ParsePrefix(t, allowRanges) == if failed then None else Prepend(mi, ParsePrefix(remain, allowRanges))
      decreases |remain|
    {
      var moduleName := GetModuleName(remain);
      failed := failed || moduleName.BadModule?;
      if !moduleName.IsModule? || failed {
        break;
      }
      ghost var before, seen := remain, mi;
      remain := remain[2..];
      var key := NoKey;
      if |remain| > 0 {
        if remain[0].Index? {
          var parsed := ParseKey(remain[0].value);
          if parsed.Some? {
            key := parsed.value;
          } else {
            failed := true;
          }
          remain := remain[1..];
        } else if remain[0].Splat? && allowRanges {
          key := WildcardKey(UnknownKeyType);
          remain := remain[1..];
        }
      }
      mi := mi + [Step(moduleName.name, key)];
      if !failed {
        assert ParsePrefix(before, allowRanges)
            == Prepend([Step(moduleName.name, key)], ParsePrefix(remain, allowRanges));
        PrependTwice(seen, [Step(moduleName.name, key)], ParsePrefix(remain, allowRanges));
      }
    }
    if failed {
      return None;
    }
    assert mi + [] == mi;
    return Some((mi, remain));
  }

  lemma PrependNothing(r: Option<(ModuleInstance, Traversal)>)
    ensures Prepend([], r) == r
  {
    if r.Some? {
      assert [] + r.value.0 == r.value.0;
    }
  }

  lemma PrependTwice(a: ModuleInstance, b: ModuleInstance, r: Option<(ModuleInstance, Traversal)>)
    ensures Prepend(a, Prepend(b, r)) == Prepend(a + b, r)
  {
    if r.Some? {
      assert a + (b + r.value.0) == a + b + r.value.0;
    }
  }

  /** The resource part of an address; the traversal is not empty and starts
      with a name, as the prefix parser leaves it. */
  function ParseResourceInstance(path: ModuleInstance, remain: Traversal, allowRanges: bool): Option<Moveable>
    requires remain != [] && Named(remain[0])
  {
    var mode := if remain[0].name == "data" then Data
                else if remain[0].name == "ephemeral" then Ephemeral
                else Managed;
    var rest := if mode.Managed? then remain else remain[1..];
    if |rest| < 2 || !Named(rest[0]) || !rest[1].Attr? then None
    else
      var resource := Resource(mode, rest[0].name, rest[1].name);
      var key := ParseOptionalKey(rest[2..], allowRanges);
      if key.None? || key.value.1 != [] then None
      else Some(AbsResourceInstance(path, resource, key.value.0))
  }

  /** The address that a traversal targets. A resource instance with no key
      stands for its whole resource. */
  function Parse(t: Traversal, allowRanges: bool): Option<Moveable> {
    var prefix := ParsePrefix(t, allowRanges);
    if prefix.None? then None
    else
      var (path, remain) := prefix.value;
      if remain == [] then Some(ModuleInst(path))
      else if !Named(remain[0]) then None
      else
        var r := ParseResourceInstance(path, remain, allowRanges);
        if r.Some? && r.value.key.NoKey? then Some(ContainingResource(r.value)) else r
  }

  // ------------------------------------------------- the spelling of an address

  predicate SpellableKey(k: InstanceKey, allowRanges: bool) {
    ActualKey(k) || (allowRanges && k == WildcardKey(UnknownKeyType))
  }

  function KeyParts(k: InstanceKey): Traversal {
    match k
    case NoKey => []
    case IntKey(i) => [Index(NumberIndex(i as real))]
    case StringKey(s) => [Index(StringIndex(s))]
    case WildcardKey(_) => [Splat]
    case AnyKey => [Splat]
  }

  function StepParts(s: Step): Traversal {
    [Attr("module"), Attr(s.name)] + KeyParts(s.key)
  }

  function PathParts(m: ModuleInstance): Traversal {
    if m == [] then [] else StepParts(m[0]) + PathParts(m[1..])
  }

  function ModeKeyword(mode: ResourceMode): string
    requires !mode.Managed?
  {
    match mode
    case Data => "data"
    case Ephemeral => "ephemeral"
    case InvalidMode => "<invalid>"
  }

  function ModeParts(mode: ResourceMode): Traversal {
    if mode.Managed? then [] else [Attr(ModeKeyword(mode))]
  }

  function ResourceParts(r: Resource): Traversal {
    ModeParts(r.mode) + [Attr(r.typeName), Attr(r.name)]
  }

  /** The parts of an address, each as an attribute access or an index. */
  function Parts(x: Moveable): Traversal {
    match x
    case ModuleInst(m) => PathParts(m)
    case ModuleCall(m, c) => PathParts(m) + StepParts(Step(c, NoKey))
    case AbsResource(m, r) => PathParts(m) + ResourceParts(r)
    case AbsResourceInstance(m, r, k) => PathParts(m) + (ResourceParts(r) + KeyParts(k))
  }

  /** An absolute traversal starts with a root name instead of an attribute. */
  function Rooted(t: Traversal): Traversal {
    if t != [] && t[0].Attr? then [Root(t[0].name)] + t[1..] else t
  }

  function SpellAddress(x: Moveable): Traversal {
    Rooted(Parts(x))
  }

  predicate Spellable(x: Moveable, allowRanges: bool) {
    && !x.ModuleCall?
    && (forall i :: 0 <= i < |x.path| ==> SpellableKey(x.path[i].key, allowRanges))
    && (x.ModuleInst? ==> x.path != [])
    && (!x.ModuleInst? ==> !x.resource.mode.InvalidMode?)
    && (x.AbsResourceInstance? ==> !x.key.NoKey? && SpellableKey(x.key, allowRanges))
  }

  /** A managed resource whose type name is a keyword of the address syntax. */
  predicate ReservedType(x: Moveable) {
    && !ModuleKind(x) && x.resource.mode.Managed?
    && x.resource.typeName in {"module", "data", "ephemeral"}
  }

  // ----------------------------------------------------------------- proofs

  lemma ParseOptionalKeyOfParts(k: InstanceKey, rest: Traversal, allowRanges: bool)
    requires SpellableKey(k, allowRanges)
    requires rest == [] || Named(rest[0])
    ensures ParseOptionalKey(KeyParts(k) + rest, allowRanges) == Some((k, rest))
  {
    var t := KeyParts(k) + rest;
    if k.NoKey? {
      assert t == rest;
    } else {
      assert t[1..] == rest;
    }
  }

  /** The prefix parser takes off exactly the module steps in front. */
  lemma {:induction false} ParsePrefixOfPath(m: ModuleInstance, rest: Traversal, allowRanges: bool)
    requires forall i :: 0 <= i < |m| ==> SpellableKey(m[i].key, allowRanges)
    requires rest == [] || Named(rest[0])
    ensures ParsePrefix(PathParts(m) + rest, allowRanges) == Prepend(m, ParsePrefix(rest, allowRanges))
  {
    if m == [] {
      assert PathParts(m) + rest == rest;
      PrependNothing(ParsePrefix(rest, allowRanges));
    } else {
      var tail := PathParts(m[1..]) + rest;
      PathPartsCons(m[0], m[1..], rest);
      assert [m[0]] + m[1..] == m;
      ParsePrefixOfStep(m[0], tail, allowRanges);
      ParsePrefixOfPath(m[1..], rest, allowRanges);
      PrependTwice([m[0]], m[1..], ParsePrefix(rest, allowRanges));
    }
  }

  lemma PathPartsCons(s: Step, m: ModuleInstance, rest: Traversal)
    ensures PathParts([s] + m) + rest == StepParts(s) + (PathParts(m) + rest)
  {
  }

  lemma ParsePrefixOfStep(s: Step, tail: Traversal, allowRanges: bool)
    requires SpellableKey(s.key, allowRanges) && (tail == [] || Named(tail[0]))
    ensures ParsePrefix(StepParts(s) + tail, allowRanges) == Prepend([s], ParsePrefix(tail, allowRanges))
  {
  }

  /** Nothing in the parser tells a root name from an attribute in front. */
  lemma ParseIgnoresRooting(t: Traversal, allowRanges: bool)
    ensures t != [] && t[0].Attr? ==> Parse(Rooted(t), allowRanges) == Parse(t, allowRanges)
  {
    if t != [] && t[0].Attr? {
      var u := Rooted(t);
      assert GetModuleName(u) == GetModuleName(t);
      if |t| >= 2 {
        assert u[2..] == t[2..];
      }
      assert u[1..] == t[1..];
    }
  }

  lemma ParseResourceOfParts(m: ModuleInstance, r: Resource, k: InstanceKey, allowRanges: bool)
    requires !r.mode.InvalidMode? && SpellableKey(k, allowRanges)
    requires r.mode.Managed? ==> r.typeName != "data" && r.typeName != "ephemeral"
    ensures ParseResourceInstance(m, ResourceParts(r) + KeyParts(k), allowRanges)
         == Some(AbsResourceInstance(m, r, k))
  {
  }

  /** A reserved type makes the parser take the resource for something else. */
  lemma ParseReservedType(m: ModuleInstance, r: Resource, k: InstanceKey, allowRanges: bool)
    requires r.mode.Managed? && r.typeName in {"module", "data", "ephemeral"}
    requires SpellableKey(k, allowRanges)
    ensures var t := ResourceParts(r) + KeyParts(k);
            if r.typeName == "module"
            then ParsePrefix(t, allowRanges) == Some(([Step(r.name, k)], []))
            else ParsePrefix(t, allowRanges) == Some(([], t)) && ParseResourceInstance(m, t, allowRanges) == None
  {
    var t := ResourceParts(r) + KeyParts(k);
    assert t == [Attr(r.typeName), Attr(r.name)] + KeyParts(k);
    if r.typeName == "module" {
      assert t[2..] == KeyParts(k) + [];
      ParseOptionalKeyOfParts(k, [], allowRanges);
      assert ParsePrefix(t, allowRanges) == Prepend([Step(r.name, k)], ParsePrefix([], allowRanges));
      assert [Step(r.name, k)] + [] == [Step(r.name, k)];
    }
  }

  lemma {:induction false} ParseOfResource(m: ModuleInstance, r: Resource, k: InstanceKey, allowRanges: bool)
    requires forall i :: 0 <= i < |m| ==> SpellableKey(m[i].key, allowRanges)
    requires !r.mode.InvalidMode? && SpellableKey(k, allowRanges)
    ensures var x := if k.NoKey? then AbsResource(m, r) else AbsResourceInstance(m, r, k);
            !ReservedType(x) <==>
              Parse(PathParts(m) + (ResourceParts(r) + KeyParts(k)), allowRanges) == Some(x)
  {
    var tail := ResourceParts(r) + KeyParts(k);
    ParsePrefixOfPath(m, tail, allowRanges);
    if r.mode.Managed? && r.typeName in {"module", "data", "ephemeral"} {
      ParseReservedType(m, r, k, allowRanges);
    } else {
      assert ParsePrefix(tail, allowRanges) == Some(([], tail));
      assert m + [] == m;
      ParseResourceOfParts(m, r, k, allowRanges);
    }
  }

  /** Parsing the spelling of an address gives that address back, exactly unless
      it is a managed resource of a reserved type. */
  lemma ParseSpelling(x: Moveable, allowRanges: bool)
    requires Spellable(x, allowRanges)
    ensures Parse(SpellAddress(x), allowRanges) == Some(x) <==> !ReservedType(x)
  {
    ParseIgnoresRooting(Parts(x), allowRanges);
    match x {
      case ModuleInst(m) =>
        ParsePrefixOfPath(m, [], allowRanges);
        assert PathParts(m) + [] == PathParts(m) && m + [] == m;
      case AbsResource(m, r) =>
        ParseOfResource(m, r, NoKey, allowRanges);
        assert ResourceParts(r) + KeyParts(NoKey) == ResourceParts(r);
      case AbsResourceInstance(m, r, k) =>
        ParseOfResource(m, r, k, allowRanges);
    }
  }

  predicate NoRoot(t: Traversal) {
    forall i :: 0 <= i < |t| ==> !t[i].Root?
  }

  /** The first module step of a traversal, taken apart. */
  lemma FirstStepSpells(t: Traversal, allowRanges: bool)
    requires NoRoot(t) && GetModuleName(t).IsModule? && ParseOptionalKey(t[2..], allowRanges).Some?
    ensures var (k, rest) := ParseOptionalKey(t[2..], allowRanges).value;
            && t == StepParts(Step(t[1].name, k)) + rest
            && SpellableKey(k, allowRanges) && NoRoot(rest)
  {
  }

  lemma {:induction false} ParsedPrefixSpells(t: Traversal, allowRanges: bool)
    requires NoRoot(t) && ParsePrefix(t, allowRanges).Some?
    ensures var (m, rest) := ParsePrefix(t, allowRanges).value;
            && t == PathParts(m) + rest
            && (forall i :: 0 <= i < |m| ==> SpellableKey(m[i].key, allowRanges))
            && NoRoot(rest) && GetModuleName(rest).NotModule?
    decreases |t|
  {
    if GetModuleName(t).IsModule? {
      FirstStepSpells(t, allowRanges);
      var (k, rest) := ParseOptionalKey(t[2..], allowRanges).value;
      ParsedPrefixSpells(rest, allowRanges);
      var (m, tail) := ParsePrefix(rest, allowRanges).value;
      PathPartsCons(Step(t[1].name, k), m, tail);
    } else {
      assert PathParts([]) + t == t;
    }
  }

  lemma ParsedResourceSpells(m: ModuleInstance, t: Traversal, allowRanges: bool)
    requires t != [] && NoRoot(t) && Named(t[0]) && ParseResourceInstance(m, t, allowRanges).Some?
    ensures var x := ParseResourceInstance(m, t, allowRanges).value;
            && x.AbsResourceInstance? && x.path == m
            && t == ResourceParts(x.resource) + KeyParts(x.key)
            && !x.resource.mode.InvalidMode? && SpellableKey(x.key, allowRanges)
            && (x.resource.mode.Managed? ==> x.resource.typeName == t[0].name)
  {
  }

  /** Whatever the parser accepts is the spelling of the address it returns, so
      the parser accepts nothing else and no two traversals share an address. */
  lemma ParsedIsSpelling(t: Traversal, allowRanges: bool)
    requires Absolute(t) && Parse(t, allowRanges).Some?
    ensures var x := Parse(t, allowRanges).value;
            Spellable(x, allowRanges) && !ReservedType(x) && SpellAddress(x) == t
  {
    var u := [Attr(t[0].name)] + t[1..];
    assert Rooted(u) == t;
    ParseIgnoresRooting(u, allowRanges);
    ParsedUnrootedIsSpelling(u, allowRanges);
  }

  lemma ParsedUnrootedIsSpelling(u: Traversal, allowRanges: bool)
    requires u != [] && NoRoot(u) && Parse(u, allowRanges).Some?
    ensures var x := Parse(u, allowRanges).value;
            Spellable(x, allowRanges) && !ReservedType(x) && Parts(x) == u
  {
    ParsedPrefixSpells(u, allowRanges);
    var (m, rest) := ParsePrefix(u, allowRanges).value;
    if rest == [] {
      assert PathParts(m) + rest == PathParts(m);
    } else {
      ParsedResourceSpells(m, rest, allowRanges);
      var x := ParseResourceInstance(m, rest, allowRanges).value;
      if x.key.NoKey? {
        assert ResourceParts(x.resource) + KeyParts(NoKey) == ResourceParts(x.resource);
      }
    }
  }
}
