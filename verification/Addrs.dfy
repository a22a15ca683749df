/** Address types shared by the whole model: instance keys, module paths,
    resources, and the four kinds of object that a `moved` block can name. */
module Addrs {

  /** Go's `int` on a 64-bit platform, the representation of an integer key. */
  type GoInt = n: int | -0x8000_0000_0000_0000 <= n < 0x8000_0000_0000_0000

  datatype KeyType = NoKeyType | IntKeyType | StringKeyType | UnknownKeyType

  /** `AnyKey` is the unexported wildcard that only the move algebra creates;
      `WildcardKey` is the placeholder written `[*]`. */
  datatype InstanceKey =
    | NoKey
    | IntKey(i: GoInt)
    | StringKey(s: string)
    | WildcardKey(expected: KeyType)
    | AnyKey

  datatype Step = Step(name: string, key: InstanceKey)

  type Module = seq<string>
  type ModuleInstance = seq<Step>

  datatype ResourceMode = InvalidMode | Managed | Data | Ephemeral

  datatype Resource = Resource(mode: ResourceMode, typeName: string, name: string)

  datatype Moveable =
    | ModuleInst(path: ModuleInstance)
    | ModuleCall(path: ModuleInstance, call: string)
    | AbsResource(path: ModuleInstance, resource: Resource)
    | AbsResourceInstance(path: ModuleInstance, resource: Resource, key: InstanceKey)

  /** A key that a real instance can have. */
  predicate ActualKey(k: InstanceKey) {
    k.NoKey? || k.IntKey? || k.StringKey?
  }

  predicate ActualPath(m: ModuleInstance) {
    forall i :: 0 <= i < |m| ==> ActualKey(m[i].key)
  }

  /** An address with no wildcard of either sort in it. */
  predicate Actual(x: Moveable) {
    ActualPath(x.path) && (x.AbsResourceInstance? ==> ActualKey(x.key))
  }

  /** An endpoint or address about modules rather than resources. */
  predicate ModuleKind(x: Moveable) {
    x.ModuleInst? || x.ModuleCall?
  }

  /** The same one of the four address types. */
  predicate SameType(x: Moveable, y: Moveable) {
    || (x.ModuleInst? && y.ModuleInst?)
    || (x.ModuleCall? && y.ModuleCall?)
    || (x.AbsResource? && y.AbsResource?)
    || (x.AbsResourceInstance? && y.AbsResourceInstance?)
  }

  /** The static module that a module instance belongs to. */
  function StaticPath(m: ModuleInstance): Module {
    seq(|m|, i requires 0 <= i < |m| => m[i].name)
  }

  function WithPath(x: Moveable, m: ModuleInstance): Moveable {
    x.(path := m)
  }

  function ContainingResource(x: Moveable): Moveable
    requires x.AbsResourceInstance?
  {
    AbsResource(x.path, x.resource)
  }
}
