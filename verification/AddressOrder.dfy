/** The sort order of addresses. Go compares strings by bytes, which for UTF-8
    is the order of code points. */
module AddressOrder {
  import opened Addrs

  predicate StringLess(a: string, b: string) {
    if b == "" then false
    else if a == "" then true
    else if a[0] != b[0] then a[0] < b[0]
    else StringLess(a[1..], b[1..])
  }

  /** The numeric values of the key type constants. */
  function KeyTypeRank(t: KeyType): nat {
    match t
    case NoKeyType => 0
    case IntKeyType => 'I' as int
    case StringKeyType => 'S' as int
    case UnknownKeyType => '?' as int
  }

  function TypeOfKey(k: InstanceKey): KeyType {
    match k
    case NoKey => NoKeyType
    case IntKey(_) => IntKeyType
    case StringKey(_) => StringKeyType
    case WildcardKey(t) => t
    case AnyKey => NoKeyType
  }

  /** What a comparison answers; it panics on a failing type assertion. */
  datatype Comparison = Before | NotBefore | Panics

  function Answer(less: bool): Comparison {
    if less then Before else NotBefore
  }

  function KeyOrder(i: InstanceKey, j: InstanceKey): Comparison {
    var iType, jType := TypeOfKey(i), TypeOfKey(j);
    if i == j then NotBefore
    else if i.NoKey? then Before
    else if j.NoKey? then NotBefore
    else if iType != jType then Answer(KeyTypeRank(iType) < KeyTypeRank(jType))
    else if iType.IntKeyType? then
      (if i.IntKey? && j.IntKey? then Answer(i.i < j.i) else Panics)
    else if iType.StringKeyType? then
      (if i.StringKey? && j.StringKey? then Answer(StringLess(i.s, j.s)) else Panics)
    else NotBefore
  }

  function StepOrder(s: Step, t: Step): Comparison {
    if s.name != t.name then Answer(StringLess(s.name, t.name)) else KeyOrder(s.key, t.key)
  }

  function StepsOrder(m: ModuleInstance, o: ModuleInstance): Comparison
    requires |m| == |o|
  {
    if m == [] then NotBefore
    else if m[0] != o[0] then StepOrder(m[0], o[0])
    else StepsOrder(m[1..], o[1..])
  }

  function PathOrder(m: ModuleInstance, o: ModuleInstance): Comparison {
    if |m| != |o| then Answer(|m| < |o|) else StepsOrder(m, o)
  }

  method ModuleInstanceLess(m: ModuleInstance, o: ModuleInstance) returns (less: Comparison)
    ensures less == PathOrder(m, o)
  {
    if |m| != |o| {
      return Answer(|m| < |o|);
    }
    for i := 0 to |m|
      invariant StepsOrder(m, o) == StepsOrder(m[i..], o[i..])
    {
      assert m[i..][1..] == m[i + 1..] && o[i..][1..] == o[i + 1..];
      if m[i].name != o[i].name {
        less := Answer(StringLess(m[i].name, o[i].name));
        return;
      }
      if m[i].key != o[i].key {
        less := KeyOrder(m[i].key, o[i].key);
        return;
      }
    }
    return NotBefore;
  }

  predicate ModeLess(a: ResourceMode, b: ResourceMode) {
    match a
    case Managed => false
    case Data => b.Managed?
    case Ephemeral => b.Managed? || b.Data?
    case InvalidMode => false
  }

  predicate ResourceLess(r: Resource, o: Resource) {
    if r.mode != o.mode then ModeLess(r.mode, o.mode)
    else if r.typeName != o.typeName then StringLess(r.typeName, o.typeName)
    else if r.name != o.name then StringLess(r.name, o.name)
    else false
  }

  /** Fewer modules first, then ephemeral before data before managed resources,
      then no key before integers in numeric order before strings. */
  function InstanceOrder(x: Moveable, y: Moveable): Comparison
    requires x.AbsResourceInstance? && y.AbsResourceInstance?
  {
    if x.path != y.path then PathOrder(x.path, y.path)
    else if x.resource != y.resource then Answer(ResourceLess(x.resource, y.resource))
    else if x.key != y.key then KeyOrder(x.key, y.key)
    else NotBefore
  }

  // ------------------------------------------------- what cannot be ordered

  /** Different keys of one type that are not both real: a placeholder against a
      key of the type it expects, or the two sorts of wildcard. */
  predicate KeysClash(i: InstanceKey, j: InstanceKey) {
    && i != j && TypeOfKey(i) == TypeOfKey(j)
    && (!ActualKey(i) || !ActualKey(j))
    && !i.NoKey? && !j.NoKey?
  }

  predicate StepsClash(s: Step, t: Step) {
    s.name == t.name && KeysClash(s.key, t.key)
  }

  predicate FirstDifference(m: ModuleInstance, o: ModuleInstance, i: nat) {
    i < |m| == |o| && m[i] != o[i] && forall j :: 0 <= j < i ==> m[j] == o[j]
  }

  /** The paths first differ in keys that clash. */
  predicate PathsClash(m: ModuleInstance, o: ModuleInstance) {
    exists i: nat :: i < |m| && FirstDifference(m, o, i) && StepsClash(m[i], o[i])
  }

  /** A clash of keys for which the comparison has a type assertion. */
  predicate KeysPanic(i: InstanceKey, j: InstanceKey) {
    KeysClash(i, j) && (TypeOfKey(i).IntKeyType? || TypeOfKey(i).StringKeyType?)
  }

  predicate PathsPanic(m: ModuleInstance, o: ModuleInstance) {
    exists i: nat :: i < |m| && FirstDifference(m, o, i) && m[i].name == o[i].name && KeysPanic(m[i].key, o[i].key)
  }

  predicate ModesClash(r: Resource, o: Resource) {
    r.mode != o.mode && (r.mode.InvalidMode? || o.mode.InvalidMode?)
  }

  /** Read off the first difference of two instances: they cannot be ordered. */
  predicate InstancesClash(x: Moveable, y: Moveable)
    requires x.AbsResourceInstance? && y.AbsResourceInstance?
  {
    if x.path != y.path then PathsClash(x.path, y.path)
    else ModesClash(x.resource, y.resource) || (x.resource == y.resource && KeysClash(x.key, y.key))
  }

  predicate InstancesPanic(x: Moveable, y: Moveable)
    requires x.AbsResourceInstance? && y.AbsResourceInstance?
  {
    if x.path != y.path then PathsPanic(x.path, y.path)
    else x.resource == y.resource && KeysPanic(x.key, y.key)
  }

  // ----------------------------------------------------------------- proofs

  lemma {:induction false} StringLessTotal(a: string, b: string)
    ensures StringLess(a, b) <==> a != b && !StringLess(b, a)
  {
    if a != "" && b != "" && a[0] == b[0] {
      StringLessTotal(a[1..], b[1..]);
      assert a == [a[0]] + a[1..] && b == [b[0]] + b[1..];
    }
  }

  lemma {:induction false} StringLessTransitive(a: string, b: string, c: string)
    requires StringLess(a, b) && StringLess(b, c)
    ensures StringLess(a, c)
  {
    if a != "" && a[0] == b[0] == c[0] {
      StringLessTransitive(a[1..], b[1..], c[1..]);
    }
  }

  /** For all keys, placeholders included: one sorts before the other exactly unless
      they are equal or clash, and the comparison panics exactly on a clash of
      integer or string type. */
  lemma KeyOrderTotal(i: InstanceKey, j: InstanceKey)
    ensures KeyOrder(i, j).Before? ==> !KeyOrder(j, i).Before?
    ensures KeyOrder(i, j).Before? || KeyOrder(j, i).Before? <==> i != j && !KeysClash(i, j)
    ensures KeyOrder(i, j).Panics? <==> KeysPanic(i, j)
  {
    if i.StringKey? && j.StringKey? {
      StringLessTotal(i.s, j.s);
    }
  }

  lemma KeyOrderTransitive(i: InstanceKey, j: InstanceKey, k: InstanceKey)
    requires KeyOrder(i, j).Before? && KeyOrder(j, k).Before?
    ensures KeyOrder(i, k).Before?
  {
    if i.StringKey? && j.StringKey? && k.StringKey? {
      StringLessTransitive(i.s, j.s, k.s);
      StringLessTotal(i.s, k.s);
    }
  }

  /** The first difference decides. */
  lemma {:induction false} StepsOrderAt(m: ModuleInstance, o: ModuleInstance, i: nat)
    requires FirstDifference(m, o, i)
    ensures StepsOrder(m, o) == StepOrder(m[i], o[i])
  {
    if i > 0 {
      StepsOrderAt(m[1..], o[1..], i - 1);
    }
  }

  lemma {:induction false} SomeFirstDifference(m: ModuleInstance, o: ModuleInstance) returns (i: nat)
    requires |m| == |o| && m != o
    ensures FirstDifference(m, o, i)
  {
    if m[0] != o[0] {
      i := 0;
    } else {
      assert m == [m[0]] + m[1..] && o == [o[0]] + o[1..];
      var rest := SomeFirstDifference(m[1..], o[1..]);
      i := rest + 1;
      assert forall j :: 0 < j < |m| ==> m[j] == m[1..][j - 1] && o[j] == o[1..][j - 1];
    }
  }

  lemma {:induction false} StepsOrderOfEqual(m: ModuleInstance)
    ensures StepsOrder(m, m).NotBefore?
  {
    if m != [] {
      StepsOrderOfEqual(m[1..]);
    }
  }

  lemma StepOrderTotal(s: Step, t: Step)
    requires s != t
    ensures StepOrder(s, t).Before? ==> !StepOrder(t, s).Before?
    ensures StepOrder(s, t).Before? || StepOrder(t, s).Before? <==> !StepsClash(s, t)
    ensures StepOrder(s, t).Panics? <==> s.name == t.name && KeysPanic(s.key, t.key)
  {
    StringLessTotal(s.name, t.name);
    KeyOrderTotal(s.key, t.key);
  }

  lemma StepsOrderTotal(m: ModuleInstance, o: ModuleInstance)
    requires |m| == |o|
    ensures StepsOrder(m, o).Before? ==> !StepsOrder(o, m).Before?
    ensures StepsOrder(m, o).Before? || StepsOrder(o, m).Before? <==> m != o && !PathsClash(m, o)
    ensures StepsOrder(m, o).Panics? <==> PathsPanic(m, o)
  {
    if m == o {
      StepsOrderOfEqual(m);
    } else {
      var i := SomeFirstDifference(m, o);
      assert forall j: nat :: j < |m| && FirstDifference(m, o, j) ==> j == i;
      StepsOrderAt(m, o, i);
      StepsOrderAt(o, m, i);
      StepOrderTotal(m[i], o[i]);
    }
  }

  lemma {:induction false} StepsOrderTransitive(a: ModuleInstance, b: ModuleInstance, c: ModuleInstance)
    requires |a| == |b| == |c|
    requires StepsOrder(a, b).Before? && StepsOrder(b, c).Before?
    ensures StepsOrder(a, c).Before?
  {
    var x, y, z := a[0], b[0], c[0];
    if x == y == z {
      StepsOrderTransitive(a[1..], b[1..], c[1..]);
    } else if x != y && y != z {
      StepOrderTransitive(x, y, z);
    }
  }

  lemma StepOrderTransitive(x: Step, y: Step, z: Step)
    requires StepOrder(x, y).Before? && StepOrder(y, z).Before?
    ensures StepOrder(x, z).Before? && x != z
  {
    StringLessTotal(x.name, z.name);
    KeyOrderTotal(x.key, z.key);
    if x.name == y.name == z.name {
      KeyOrderTransitive(x.key, y.key, z.key);
    } else if x.name != y.name && y.name != z.name {
      StringLessTransitive(x.name, y.name, z.name);
    }
  }

  /** Resources are ordered exactly unless one of two different modes is invalid. */
  lemma ResourceLessTotal(r: Resource, o: Resource)
    ensures ResourceLess(r, o) ==> !ResourceLess(o, r)
    ensures ResourceLess(r, o) || ResourceLess(o, r) <==> r != o && !ModesClash(r, o)
  {
    StringLessTotal(r.typeName, o.typeName);
    StringLessTotal(r.name, o.name);
  }

  lemma ResourceLessTransitive(a: Resource, b: Resource, c: Resource)
    requires ResourceLess(a, b) && ResourceLess(b, c)
    ensures ResourceLess(a, c)
  {
    StringLessTotal(a.typeName, c.typeName);
    StringLessTotal(a.name, c.name);
    if a.mode == b.mode == c.mode {
      if a.typeName == b.typeName == c.typeName {
        StringLessTransitive(a.name, b.name, c.name);
      } else if a.typeName != b.typeName && b.typeName != c.typeName {
        StringLessTransitive(a.typeName, b.typeName, c.typeName);
      }
    }
  }

  /** For any two instances at most one sorts before the other, and one does exactly
      unless they are equal or clash where they first differ. The comparison panics
      exactly if that is a clash of integer or string type. */
  lemma InstanceOrderTotal(x: Moveable, y: Moveable)
    requires x.AbsResourceInstance? && y.AbsResourceInstance?
    ensures InstanceOrder(x, y).Before? ==> !InstanceOrder(y, x).Before?
    ensures InstanceOrder(x, y).Before? || InstanceOrder(y, x).Before? <==> x != y && !InstancesClash(x, y)
    ensures InstanceOrder(x, y).Panics? <==> InstancesPanic(x, y)
  {
    if |x.path| == |y.path| {
      StepsOrderTotal(x.path, y.path);
    }
    ResourceLessTotal(x.resource, y.resource);
    KeyOrderTotal(x.key, y.key);
  }

  lemma PathOrderTransitive(a: ModuleInstance, b: ModuleInstance, c: ModuleInstance)
    requires PathOrder(a, b).Before? && PathOrder(b, c).Before?
    ensures PathOrder(a, c).Before? && a != c
  {
    if |a| == |b| == |c| {
      StepsOrderTransitive(a, b, c);
      StepsOrderTotal(a, c);
    }
  }

  lemma InstanceOrderTransitive(x: Moveable, y: Moveable, z: Moveable)
    requires x.AbsResourceInstance? && y.AbsResourceInstance? && z.AbsResourceInstance?
    requires InstanceOrder(x, y).Before? && InstanceOrder(y, z).Before?
    ensures InstanceOrder(x, z).Before?
  {
    ResourceLessTotal(x.resource, z.resource);
    KeyOrderTotal(x.key, z.key);
    if x.path == y.path == z.path {
      if x.resource == y.resource == z.resource {
        KeyOrderTransitive(x.key, y.key, z.key);
      } else if x.resource != y.resource && y.resource != z.resource {
        ResourceLessTransitive(x.resource, y.resource, z.resource);
      }
    } else if x.path != y.path && y.path != z.path {
      PathOrderTransitive(x.path, y.path, z.path);
    }
  }

  // ------------------------------------------------------ which sorts first

  /** The first position where two texts differ, or where the first one ends. */
  predicate TextBefore(a: string, b: string) {
    exists i :: 0 <= i <= |a| && TextBeforeAt(a, b, i)
  }

  predicate TextBeforeAt(a: string, b: string, i: nat) {
    && i <= |a| && i < |b|
    && (forall j :: 0 <= j < i ==> a[j] == b[j])
    && (i < |a| ==> a[i] < b[i])
  }

  /** What a key is about: nothing, something unknown, a number, a text. */
  const KEY_TYPES := [NoKeyType, UnknownKeyType, IntKeyType, StringKeyType]

  /** A key of this type, or the placeholder for one. */
  predicate IsOfType(k: InstanceKey, t: KeyType) {
    || k == WildcardKey(t)
    || (t.NoKeyType? && (k.NoKey? || k.AnyKey?))
    || (t.IntKeyType? && k.IntKey?)
    || (t.StringKeyType? && k.StringKey?)
  }

  predicate KeyBefore(i: InstanceKey, j: InstanceKey) {
    && !j.NoKey?
    && (|| i.NoKey?
        || (exists p, q :: 0 <= p < q < 4 && IsOfType(i, KEY_TYPES[p]) && IsOfType(j, KEY_TYPES[q]))
        || (i.IntKey? && j.IntKey? && i.i < j.i)
        || (i.StringKey? && j.StringKey? && TextBefore(i.s, j.s)))
  }

  predicate StepBefore(s: Step, t: Step) {
    TextBefore(s.name, t.name) || (s.name == t.name && KeyBefore(s.key, t.key))
  }

  predicate ModeBefore(a: ResourceMode, b: ResourceMode) {
    (a, b) in {(Ephemeral, Data), (Ephemeral, Managed), (Data, Managed)}
  }

  predicate ResourceBefore(r: Resource, o: Resource) {
    || ModeBefore(r.mode, o.mode)
    || (r.mode == o.mode && TextBefore(r.typeName, o.typeName))
    || (r.mode == o.mode && r.typeName == o.typeName && TextBefore(r.name, o.name))
  }

  /** Fewer modules first; then the first difference of the paths decides, then the
      resource, then the key. Names go by text; keys go none, unknown, numbers in
      their order, texts in theirs; modes go ephemeral, data, managed. */
  predicate InstanceBefore(x: Moveable, y: Moveable)
    requires x.AbsResourceInstance? && y.AbsResourceInstance?
  {
    || |x.path| < |y.path|
    || (exists i: nat :: i < |x.path| && FirstDifference(x.path, y.path, i) && StepBefore(x.path[i], y.path[i]))
    || (x.path == y.path && ResourceBefore(x.resource, y.resource))
    || (x.path == y.path && x.resource == y.resource && KeyBefore(x.key, y.key))
  }

  lemma {:induction false} StringLessIsTextBefore(a: string, b: string)
    ensures StringLess(a, b) <==> TextBefore(a, b)
  {
    if a != "" && b != "" && a[0] == b[0] {
      var a', b' := a[1..], b[1..];
      StringLessIsTextBefore(a', b');
      if TextBefore(a', b') {
        var i :| 0 <= i <= |a'| && TextBeforeAt(a', b', i);
        assert TextBeforeAt(a, b, i + 1);
      }
      if TextBefore(a, b) {
        var i :| 0 <= i <= |a| && TextBeforeAt(a, b, i);
        assert TextBeforeAt(a', b', i - 1);
      }
    } else if b != "" && (a == "" || a[0] < b[0]) {
      assert TextBeforeAt(a, b, 0);
    }
  }

  lemma KeyOrderIsKeyBefore(i: InstanceKey, j: InstanceKey)
    ensures KeyOrder(i, j).Before? <==> KeyBefore(i, j)
  {
    if i.StringKey? && j.StringKey? {
      StringLessIsTextBefore(i.s, j.s);
    }
    assert KEY_TYPES[0] == NoKeyType && KEY_TYPES[1] == UnknownKeyType;
    assert KEY_TYPES[2] == IntKeyType && KEY_TYPES[3] == StringKeyType;
  }

  lemma StepOrderIsStepBefore(s: Step, t: Step)
    requires s != t
    ensures StepOrder(s, t).Before? <==> StepBefore(s, t)
  {
    StringLessIsTextBefore(s.name, t.name);
    KeyOrderIsKeyBefore(s.key, t.key);
    StringLessTotal(s.name, s.name);
  }

  lemma ResourceLessIsResourceBefore(r: Resource, o: Resource)
    ensures ResourceLess(r, o) <==> ResourceBefore(r, o)
  {
    StringLessIsTextBefore(r.typeName, o.typeName);
    StringLessIsTextBefore(r.name, o.name);
    StringLessTotal(r.typeName, r.typeName);
    StringLessTotal(r.name, r.name);
  }

  /** Which of two instances sorts first. */
  lemma InstanceOrderIsInstanceBefore(x: Moveable, y: Moveable)
    requires x.AbsResourceInstance? && y.AbsResourceInstance?
    ensures InstanceOrder(x, y).Before? <==> InstanceBefore(x, y)
  {
    ResourceLessIsResourceBefore(x.resource, y.resource);
    KeyOrderIsKeyBefore(x.key, y.key);
    if |x.path| == |y.path| && x.path != y.path {
      var i := SomeFirstDifference(x.path, y.path);
      assert forall j: nat :: j < |x.path| && FirstDifference(x.path, y.path, j) ==> j == i;
      StepsOrderAt(x.path, y.path, i);
      StepOrderIsStepBefore(x.path[i], y.path[i]);
    }
  }
}
