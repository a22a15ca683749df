/** Override values for resource instances, held in a trie of instance keys with
    wildcard backtracking, against a plain list of the calls that filled it. */
module OverrideTries {
  import opened Addrs
  import opened Options

  type Keys = seq<InstanceKey>

  const WILD := WildcardKey(UnknownKeyType)

  /** A missing key in an override is stored as a wildcard. */
  function StoredKey(k: InstanceKey): InstanceKey {
    if k.NoKey? then WILD else k
  }

  function StoredKeys(ks: Keys): (r: Keys)
    ensures |r| == |ks| && forall i :: 0 <= i < |ks| ==> r[i] == StoredKey(ks[i])
  {
    seq(|ks|, i requires 0 <= i < |ks| => StoredKey(ks[i]))
  }

  type Address = x: Moveable | x.AbsResourceInstance?
    witness AbsResourceInstance([], Resource(Managed, "", ""), NoKey)

  /** The keys along an address, the resource's own key last. */
  function KeyList(addr: Address): Keys {
    seq(|addr.path|, i requires 0 <= i < |addr.path| => addr.path[i].key) + [addr.key]
  }

  /** One call of `Set`: the address, the value and the source range. */
  datatype Call<T> = Call(addr: Address, value: T, src: int)

  /** A call as the trie sees it. */
  datatype Entry<T> = Entry(keys: Keys, value: T, src: int)

  function EntryOf<T>(c: Call<T>): Entry<T> {
    Entry(KeyList(c.addr), c.value, c.src)
  }

  function Entries<T>(calls: seq<Call<T>>): seq<Entry<T>> {
    seq(|calls|, i requires 0 <= i < |calls| => EntryOf(calls[i]))
  }

  // ---------------------------------------------------------------- the trie

  datatype Node<T> = Node(children: map<InstanceKey, Node<T>>, value: Option<T>)

  function ChildOf<T>(n: Node<T>, k: InstanceKey): Option<Node<T>> {
    if k in n.children then Some(n.children[k]) else None
  }

  function Insert<T>(n: Node<T>, keys: Keys, v: T): Node<T>
    decreases |keys|
  {
    if keys == [] then n.(value := Some(v))
    else
      var k := StoredKey(keys[0]);
      var child := if k in n.children then n.children[k] else Node(map[], None);
      n.(children := n.children[k := Insert(child, keys[1..], v)])
  }

  function Build<T>(log: seq<Entry<T>>): Node<T> {
    if log == [] then Node(map[], None)
    else
      var e := log[|log| - 1];
      Insert(Build(log[..|log| - 1]), e.keys, e.value)
  }

  /** What the check of one query key says: the query has a wildcard there, or it mixes
      two styles of addressing, or the check looks outside the evidence table. */
  datatype KeyCheck = Fine | Wildcard | Mixed | Panics

  datatype Found<T> = Stopped(why: KeyCheck) | Found(value: Option<T>)

  /** The recursive lookup, given what the key check says at each position. */
  function Search<T>(n: Option<Node<T>>, q: Keys, checks: seq<KeyCheck>): Found<T>
    requires |q| == |checks|
    decreases |q|
  {
    if n.None? then Found(None)
    else if q == [] then Found(n.value.value)
    else if !checks[0].Fine? then Stopped(checks[0])
    else
      var exact := Search(ChildOf(n.value, q[0]), q[1..], checks[1..]);
      if exact.Stopped? || exact.value.Some? then exact
      else Search(ChildOf(n.value, WILD), q[1..], checks[1..])
  }

  // -------------------------------------------------------- the records of keys

  type Evidence = Option<seq<seq<int>>>

  /** Records that the key at position `i` of `n` was missing. The table is made for
      the first address with a missing key, with one list for each of its keys. */
  function NoteMissing(ev: Evidence, i: nat, n: nat, src: int): Evidence {
    var lists := if ev.Some? then ev.value else seq(n, j => []);
    Some(if i < |lists| then lists[i := lists[i] + [src]] else lists)
  }

  /** The table after the first `i` keys of one address. */
  function NoteKeys(ev: Evidence, keys: Keys, i: nat, src: int): Evidence
    requires i <= |keys|
  {
    if i == 0 then ev
    else
      var before := NoteKeys(ev, keys, i - 1, src);
      if keys[i - 1].NoKey? then NoteMissing(before, i - 1, |keys|, src) else before
  }

  function EvidenceOf<T>(log: seq<Entry<T>>): Evidence {
    if log == [] then None
    else
      var e := log[|log| - 1];
      NoteKeys(EvidenceOf(log[..|log| - 1]), e.keys, |e.keys|, e.src)
  }

  predicate HasMissing(keys: Keys) {
    exists i :: 0 <= i < |keys| && keys[i].NoKey?
  }

  /** How many keys the first entry with a missing key has. */
  function TableSize<T>(log: seq<Entry<T>>): Option<nat> {
    if log == [] then None
    else
      var size, e := TableSize(log[..|log| - 1]), log[|log| - 1];
      if size.None? && HasMissing(e.keys) then Some(|e.keys|) else size
  }

  function SizeOf(ev: Evidence): Option<nat> {
    if ev.Some? then Some(|ev.value|) else None
  }

  /** No key is missing beyond the size of the table. */
  predicate Fits(size: Option<nat>, keys: Keys) {
    size.Some? ==> forall i :: 0 <= i < |keys| && keys[i].NoKey? ==> i < size.value
  }

  /** A list of calls of which none panics. */
  predicate Legal<T>(log: seq<Entry<T>>) {
    forall j :: 0 <= j < |log| ==> Fits(TableSize(log[..j]), log[j].keys)
  }

  predicate HasWildcard(keys: Keys) {
    exists i :: 0 <= i < |keys| && keys[i].WildcardKey?
  }

  predicate Modern<T>(log: seq<Entry<T>>) {
    exists j :: 0 <= j < |log| && HasWildcard(log[j].keys)
  }

  /** The key check at one position, while nothing has been refused yet. */
  function CheckOf(key: InstanceKey, i: nat, ev: Evidence, modern: bool): KeyCheck {
    if key.WildcardKey? then Wildcard
    else if ev.None? || !modern || key.NoKey? then Fine
    else if i >= |ev.value| then Panics
    else if ev.value[i] != [] then Mixed
    else Fine
  }

  function ChecksOf(q: Keys, ev: Evidence, modern: bool): (r: seq<KeyCheck>)
    ensures |r| == |q| && forall i :: 0 <= i < |q| ==> r[i] == CheckOf(q[i], i, ev, modern)
  {
    seq(|q|, i requires 0 <= i < |q| => CheckOf(q[i], i, ev, modern))
  }

  class OverrideTrie<T> {
    var trie: Node<T>
    var usesModernAddresses: bool
    var noKeyEvidence: Evidence
    var refuse: bool

    ghost var calls: seq<Call<T>>

    /** The fields hold what the calls of `Set` put there. */
    ghost predicate Valid()
      reads this
    {
      var log := Entries(calls);
      && Legal(log)
      && trie == Build(log)
      && usesModernAddresses == Modern(log)
      && noKeyEvidence == EvidenceOf(log)
    }

    constructor ()
      ensures calls == [] && !refuse && Valid()
    {
      trie := Node(map[], None);
      usesModernAddresses, noKeyEvidence, refuse := false, None, false;
      calls := [];
    }

    /** Adds one override, or panics if a key is missing beyond the table. */
    method Set(addr: Address, val: T, src: int) returns (panics: bool)
      requires Valid()
      modifies this
      ensures panics <==> !Fits(TableSize(Entries(old(calls))), KeyList(addr))
      ensures refuse == old(refuse)
      ensures !panics ==> Valid() && calls == old(calls) + [Call(addr, val, src)]
    {
      var keys := KeyList(addr);
      EvidenceSize(Entries(calls));
      panics := RecordKeys(keys, src);
      if panics {
        return;
      }
      trie := Insert(trie, keys, val);
      calls := calls + [Call(addr, val, src)];
      OneMoreCall(old(calls), Call(addr, val, src));
    }

    /** The records of one address: where a key is missing, and whether `[*]` is used. */
    method RecordKeys(keys: Keys, src: int) returns (panics: bool)
      modifies this`noKeyEvidence, this`usesModernAddresses
      ensures panics <==> !Fits(SizeOf(old(noKeyEvidence)), keys)
      ensures !panics ==>
                && noKeyEvidence == NoteKeys(old(noKeyEvidence), keys, |keys|, src)
                && usesModernAddresses == (old(usesModernAddresses) || HasWildcard(keys))
    {
      for i := 0 to |keys|
        invariant Fits(SizeOf(old(noKeyEvidence)), keys[..i])
        invariant noKeyEvidence == NoteKeys(old(noKeyEvidence), keys, i, src)
        invariant usesModernAddresses == (old(usesModernAddresses) || HasWildcard(keys[..i]))
      {
        NoteKeysSize(old(noKeyEvidence), keys, i, src);
        WildcardStep(keys, i);
        if keys[i] == NoKey {
          panics := SetNoKeyEvidence(i, |keys|, src);
          if panics {
            return;
          }
        }
        usesModernAddresses := usesModernAddresses || keys[i].WildcardKey?;
      }
      assert keys[..|keys|] == keys;
      return false;
    }

    method SetNoKeyEvidence(i: nat, n: nat, src: int) returns (panics: bool)
      requires i < n
      modifies this`noKeyEvidence
      ensures panics <==> old(noKeyEvidence).Some? && i >= |old(noKeyEvidence).value|
      ensures !panics ==> noKeyEvidence == NoteMissing(old(noKeyEvidence), i, n, src)
    {
      if noKeyEvidence.None? {
        noKeyEvidence := Some(seq(n, j => []));
      }
      if i >= |noKeyEvidence.value| {
        return true;
      }
      noKeyEvidence := Some(noKeyEvidence.value[i := noKeyEvidence.value[i] + [src]]);
      return false;
    }

    /** The value for an address, an error or a panic. An error about mixed
        addressing is reported once: every later call finds nothing. */
    method Get(addr: Address) returns (r: Found<T>)
      requires Valid()
      modifies this`refuse
      ensures r == if old(refuse) then Found(None) else Lookup(Entries(calls), KeyList(addr))
      ensures refuse == (old(refuse) || r == Stopped(Mixed))
    {
      if refuse {
        return Found(None);
      }
      var keys := KeyList(addr);
      r := RecursiveGet(Some(trie), 0, keys);
      assert keys[0..] == keys;
      var checks := ChecksOf(keys, noKeyEvidence, usesModernAddresses);
      assert checks[0..] == checks;
    }

    method RecursiveGet(n: Option<Node<T>>, i: nat, keys: Keys) returns (r: Found<T>)
      requires i <= |keys| && !refuse
      modifies this`refuse
      ensures var checks := ChecksOf(keys, noKeyEvidence, usesModernAddresses);
              r == Search(n, keys[i..], checks[i..])
      ensures refuse == (r == Stopped(Mixed))
      decreases |keys| - i
    {
      ghost var checks := ChecksOf(keys, noKeyEvidence, usesModernAddresses);
      if n.None? {
        return Found(None);
      }
      if i == |keys| {
        return Found(n.value.value);
      }
      var check := CheckKey(i, keys);
      if !check.Fine? {
        return Stopped(check);
      }
      assert keys[i..][1..] == keys[i + 1..] && checks[i..][1..] == checks[i + 1..];
      r := RecursiveGet(ChildOf(n.value, keys[i]), i + 1, keys);
      if r.Stopped? || r.value.Some? {
        return r;
      }
      r := RecursiveGet(ChildOf(n.value, WILD), i + 1, keys);
    }

    method CheckKey(i: nat, keys: Keys) returns (check: KeyCheck)
      requires i < |keys| && !refuse
      modifies this`refuse
      ensures check == CheckOf(keys[i], i, noKeyEvidence, usesModernAddresses)
      ensures refuse == check.Mixed?
    {
      if keys[i].WildcardKey? {
        return Wildcard;
      }
      if noKeyEvidence.None? || !usesModernAddresses {
        return Fine;
      }
      if keys[i] != NoKey {
        if i >= |noKeyEvidence.value| {
          return Panics;
        }
        if |noKeyEvidence.value[i]| > 0 && !refuse {
          refuse := true;
          return Mixed;
        }
      }
      return Fine;
    }
  }

  lemma {:induction false} NoteKeysSize(ev: Evidence, keys: Keys, i: nat, src: int)
    requires i <= |keys|
    ensures var r := NoteKeys(ev, keys, i, src);
            if ev.Some? then r.Some? && |r.value| == |ev.value|
            else (r.Some? <==> HasMissing(keys[..i])) && (r.Some? ==> |r.value| == |keys|)
  {
    if i > 0 {
      NoteKeysSize(ev, keys, i - 1, src);
      MissingStep(keys, i - 1);
    }
  }

  lemma MissingStep(keys: Keys, i: nat)
    requires i < |keys|
    ensures HasMissing(keys[..i + 1]) <==> HasMissing(keys[..i]) || keys[i].NoKey?
  {
  }

  /** The table is there once a key was missing, and its size never changes. */
  lemma {:induction false} EvidenceSize<T>(log: seq<Entry<T>>)
    ensures SizeOf(EvidenceOf(log)) == TableSize(log)
  {
    if log != [] {
      var before, e := log[..|log| - 1], log[|log| - 1];
      EvidenceSize(before);
      NoteKeysSize(EvidenceOf(before), e.keys, |e.keys|, e.src);
      assert e.keys[..|e.keys|] == e.keys;
    }
  }

  lemma LegalStep<T>(log: seq<Entry<T>>, e: Entry<T>)
    ensures Legal(log + [e]) <==> Legal(log) && Fits(TableSize(log), e.keys)
  {
    var longer := log + [e];
    assert longer[..|log|] == log;
    assert forall j :: 0 <= j < |log| ==> longer[..j] == log[..j] && longer[j] == log[j];
  }

  /** What one more call adds to what the calls mean. */
  lemma OneMoreCall<T>(calls: seq<Call<T>>, c: Call<T>)
    ensures var log, longer, keys := Entries(calls), Entries(calls + [c]), KeyList(c.addr);
            && Build(longer) == Insert(Build(log), keys, c.value)
            && EvidenceOf(longer) == NoteKeys(EvidenceOf(log), keys, |keys|, c.src)
            && (Modern(longer) <==> Modern(log) || HasWildcard(keys))
            && (Legal(longer) <==> Legal(log) && Fits(TableSize(log), keys))
  {
    var log, e := Entries(calls), EntryOf(c);
    assert Entries(calls + [c]) == log + [e];
    assert (log + [e])[..|log|] == log;
    ModernStep(log, e);
    LegalStep(log, e);
  }

  lemma WildcardStep(keys: Keys, i: nat)
    requires i < |keys|
    ensures HasWildcard(keys[..i + 1]) <==> HasWildcard(keys[..i]) || keys[i].WildcardKey?
  {
  }

  lemma ModernStep<T>(log: seq<Entry<T>>, e: Entry<T>)
    ensures Modern(log + [e]) <==> Modern(log) || HasWildcard(e.keys)
  {
    var longer := log + [e];
    if HasWildcard(e.keys) {
      assert HasWildcard(longer[|log|].keys);
    }
    if j :| 0 <= j < |log| && HasWildcard(log[j].keys) {
      assert HasWildcard(longer[j].keys);
    }
    if j :| 0 <= j < |longer| && HasWildcard(longer[j].keys) {
      if j < |log| {
        assert HasWildcard(log[j].keys);
      }
    }
  }

  // --------------------------------------------------- proofs: trie and list

  /** The value at a path of stored keys, and whether the path exists at all. */
  function ValueAt<T>(n: Node<T>, p: Keys): Option<T> {
    if p == [] then n.value
    else if p[0] in n.children then ValueAt(n.children[p[0]], p[1..]) else None
  }

  predicate Exists<T>(n: Node<T>, p: Keys) {
    p == [] || (p[0] in n.children && Exists(n.children[p[0]], p[1..]))
  }

  lemma {:induction false} InsertValue<T>(n: Node<T>, keys: Keys, v: T, p: Keys)
    ensures ValueAt(Insert(n, keys, v), p) == if p == StoredKeys(keys) then Some(v) else ValueAt(n, p)
    ensures Exists(Insert(n, keys, v), p) <==> Exists(n, p) || p <= StoredKeys(keys)
    decreases |keys|
  {
    if keys != [] && p != [] {
      var k := StoredKey(keys[0]);
      assert StoredKeys(keys)[1..] == StoredKeys(keys[1..]);
      assert StoredKeys(keys) == [k] + StoredKeys(keys[1..]);
      assert p == [p[0]] + p[1..];
      if p[0] == k {
        var child := if k in n.children then n.children[k] else Node(map[], None);
        InsertValue(child, keys[1..], v, p[1..]);
        assert p <= StoredKeys(keys) <==> p[1..] <= StoredKeys(keys[1..]);
        if k !in n.children && p[1..] == [] {
          assert p[1..] <= StoredKeys(keys[1..]);
        }
      }
    }
  }

  /** The value of the last call that stored under these keys. */
  function Latest<T>(log: seq<Entry<T>>, p: Keys): Option<T> {
    if log == [] then None
    else if StoredKeys(log[|log| - 1].keys) == p then Some(log[|log| - 1].value)
    else Latest(log[..|log| - 1], p)
  }

  lemma {:induction false} BuildValue<T>(log: seq<Entry<T>>, p: Keys)
    ensures ValueAt(Build(log), p) == Latest(log, p)
    ensures Exists(Build(log), p) <==> p == [] || exists j :: 0 <= j < |log| && p <= StoredKeys(log[j].keys)
  {
    if log != [] {
      var before, e := log[..|log| - 1], log[|log| - 1];
      BuildValue(before, p);
      InsertValue(Build(before), e.keys, e.value, p);
      if j :| 0 <= j < |before| && p <= StoredKeys(before[j].keys) {
        assert p <= StoredKeys(log[j].keys);
      }
      if j :| 0 <= j < |log| && p <= StoredKeys(log[j].keys) {
        if j < |before| {
          assert p <= StoredKeys(before[j].keys);
        }
      }
    }
  }

  // ----------------------------------------------------- proofs: the lookup

  /** A path of stored keys matches a query key by key. */
  predicate Matches(p: Keys, q: Keys) {
    |p| == |q| && forall i :: 0 <= i < |p| ==> p[i] == q[i] || p[i] == WILD
  }

  lemma MatchesCons(p: Keys, q: Keys)
    requires p != [] && q != []
    ensures Matches(p, q) <==> (p[0] == q[0] || p[0] == WILD) && Matches(p[1..], q[1..])
  {
  }

  /** Lexicographic preference: at the first difference, `a` has the exact key. */
  predicate Prefers(a: Keys, b: Keys, q: Keys)
    requires |a| == |b| == |q|
  {
    if a == [] then false
    else if a[0] != b[0] then a[0] == q[0]
    else Prefers(a[1..], b[1..], q[1..])
  }

  /** `best` holds a value, matches, and is preferred to every other match. */
  ghost predicate IsBest<T>(n: Node<T>, best: Keys, q: Keys) {
    && Matches(best, q) && ValueAt(n, best).Some?
    && forall p :: Matches(p, q) && ValueAt(n, p).Some? && p != best ==> Prefers(best, p, q)
  }

  ghost predicate NoMatch<T>(n: Node<T>, q: Keys) {
    forall p :: Matches(p, q) ==> ValueAt(n, p).None?
  }

  /** A position where the key check fails is reached by some stored path. */
  ghost predicate ReachesBad<T>(n: Node<T>, q: Keys, checks: seq<KeyCheck>)
    requires |q| == |checks|
  {
    exists p :: ReachesBadAt(n, q, checks, p)
  }

  predicate ReachesBadAt<T>(n: Node<T>, q: Keys, checks: seq<KeyCheck>, p: Keys)
    requires |q| == |checks|
  {
    |p| < |q| && !checks[|p|].Fine? && Exists(n, p) && Matches(p, q[..|p|])
  }

  lemma {:induction false} ExistsAboveValue<T>(n: Node<T>, p: Keys, i: nat)
    requires ValueAt(n, p).Some? && i <= |p|
    ensures Exists(n, p[..i])
  {
    if i > 0 {
      ExistsAboveValue(n.children[p[0]], p[1..], i - 1);
      assert p[..i][1..] == p[1..][..i - 1];
    }
  }

  /** Going through one child: the bad positions that it reaches. */
  lemma ReachesBadThroughChild<T>(n: Node<T>, q: Keys, checks: seq<KeyCheck>, k: InstanceKey)
    requires |q| == |checks| > 0 && k in n.children && (k == q[0] || k == WILD)
    requires ReachesBad(n.children[k], q[1..], checks[1..])
    ensures ReachesBad(n, q, checks)
  {
    var p :| ReachesBadAt(n.children[k], q[1..], checks[1..], p);
    var r := [k] + p;
    assert r[1..] == p;
    assert q[..|r|][1..] == q[1..][..|p|];
    MatchesCons(r, q[..|r|]);
    assert ReachesBadAt(n, q, checks, r);
  }

  /** The lookup is refused exactly when some stored path leads it to a position
      where the key check fails. */
  lemma {:induction false} SearchStopsIff<T>(n: Node<T>, q: Keys, checks: seq<KeyCheck>)
    requires |q| == |checks|
    ensures Search(Some(n), q, checks).Stopped? <==> ReachesBad(n, q, checks)
    decreases |q|
  {
    if q != [] {
      if !checks[0].Fine? {
        assert q[..0] == [];
        assert ReachesBadAt(n, q, checks, []);
      } else {
        SearchChild(n, q, checks, q[0]);
        SearchChild(n, q, checks, WILD);
        var exact := Search(ChildOf(n, q[0]), q[1..], checks[1..]);
        if p :| ReachesBadAt(n, q, checks, p) {
          BadPathIsNoticed(n, q, checks, p);
        }
      }
    }
  }

  /** What the lookup below one child says about that child. */
  lemma SearchChild<T>(n: Node<T>, q: Keys, checks: seq<KeyCheck>, k: InstanceKey)
    requires |q| == |checks| > 0 && (k == q[0] || k == WILD)
    ensures var r := Search(ChildOf(n, k), q[1..], checks[1..]);
            && (r.Stopped? <==> k in n.children && ReachesBad(n.children[k], q[1..], checks[1..]))
            && (r.Stopped? ==> ReachesBad(n, q, checks))
    decreases |q|, 0
  {
    if k in n.children {
      SearchStopsIff(n.children[k], q[1..], checks[1..]);
      if ReachesBad(n.children[k], q[1..], checks[1..]) {
        ReachesBadThroughChild(n, q, checks, k);
      }
    }
  }

  /** If any stored path reaches a bad position, the lookup does not succeed
      before it gets there: a found value would pass that position too. */
  lemma BadPathIsNoticed<T>(n: Node<T>, q: Keys, checks: seq<KeyCheck>, p: Keys)
    requires |q| == |checks| > 0 && checks[0].Fine? && ReachesBadAt(n, q, checks, p)
    ensures Search(Some(n), q, checks).Stopped?
    decreases |q|, 1
  {
    var tail, rest, restChecks := p[1..], q[1..], checks[1..];
    MatchesCons(p, q[..|p|]);
    assert q[..|p|][1..] == rest[..|tail|];
    assert ReachesBadAt(n.children[p[0]], rest, restChecks, tail);
    SearchStopsIff(n.children[p[0]], rest, restChecks);
    var exact := Search(ChildOf(n, q[0]), rest, restChecks);
    if p[0] != q[0] && exact.Found? && exact.value.Some? {
      var child := n.children[q[0]];
      SearchStopsIff(child, rest, restChecks);
      SearchFindsBest(child, rest, restChecks);
      var best :| IsBest(child, best, rest);
      ExistsAboveValue(child, best, |tail|);
      assert ReachesBadAt(child, rest, restChecks, best[..|tail|]);
      assert false;
    }
  }

  /** A lookup that is not refused finds the value at the preferred match, and
      nothing exactly when nothing matches. */
  lemma {:induction false} SearchFindsBest<T>(n: Node<T>, q: Keys, checks: seq<KeyCheck>)
    requires |q| == |checks| && Search(Some(n), q, checks).Found?
    ensures var v := Search(Some(n), q, checks).value;
            if v.None? then NoMatch(n, q)
            else exists best :: IsBest(n, best, q) && ValueAt(n, best) == v
    decreases |q|
  {
    var v := Search(Some(n), q, checks).value;
    if q == [] {
      if v.Some? {
        assert IsBest(n, [], q);
      }
    } else {
      var rest, restChecks := q[1..], checks[1..];
      var exact := Search(ChildOf(n, q[0]), rest, restChecks);
      if q[0] in n.children {
        SearchFindsBest(n.children[q[0]], rest, restChecks);
      }
      if exact.value.Some? {
        var best :| IsBest(n.children[q[0]], best, rest) && ValueAt(n.children[q[0]], best) == v;
        BestBelowExactKey(n, q, best);
      } else {
        if WILD in n.children {
          SearchFindsBest(n.children[WILD], rest, restChecks);
        }
        if v.Some? {
          var best :| IsBest(n.children[WILD], best, rest) && ValueAt(n.children[WILD], best) == v;
          BestBelowWildcard(n, q, best);
        } else {
          NoMatchBelow(n, q);
        }
      }
    }
  }

  lemma BestBelowExactKey<T>(n: Node<T>, q: Keys, best: Keys)
    requires q != [] && q[0] in n.children && IsBest(n.children[q[0]], best, q[1..])
    ensures var b := [q[0]] + best; IsBest(n, b, q) && ValueAt(n, b) == ValueAt(n.children[q[0]], best)
  {
  }

  lemma BestBelowWildcard<T>(n: Node<T>, q: Keys, best: Keys)
    requires q != [] && WILD in n.children && IsBest(n.children[WILD], best, q[1..])
    requires q[0] in n.children ==> NoMatch(n.children[q[0]], q[1..])
    ensures var b := [WILD] + best; IsBest(n, b, q) && ValueAt(n, b) == ValueAt(n.children[WILD], best)
  {
  }

  lemma NoMatchBelow<T>(n: Node<T>, q: Keys)
    requires q != []
    requires q[0] in n.children ==> NoMatch(n.children[q[0]], q[1..])
    requires WILD in n.children ==> NoMatch(n.children[WILD], q[1..])
    ensures NoMatch(n, q)
  {
  }

  // ------------------------------------------------------------ main results

  /** An entry of the list matches a query: each key is equal, missing or `[*]`. */
  predicate EntryMatches<T>(e: Entry<T>, q: Keys) {
    && |e.keys| == |q|
    && forall i :: 0 <= i < |q| ==> e.keys[i] == q[i] || e.keys[i].NoKey? || e.keys[i] == WILD
  }

  /** The first `i` keys of an entry match those of a query. */
  predicate EntryMatchesUpTo<T>(e: Entry<T>, q: Keys, i: nat) {
    && i <= |e.keys| && i <= |q|
    && forall k :: 0 <= k < i ==> e.keys[k] == q[k] || e.keys[k].NoKey? || e.keys[k] == WILD
  }

  lemma MatchesIsEntryMatches<T>(e: Entry<T>, q: Keys, i: nat)
    requires i <= |e.keys| && i <= |q|
    ensures Matches(StoredKeys(e.keys)[..i], q[..i]) <==> EntryMatchesUpTo(e, q, i)
  {
  }

  predicate MissingAt<T>(log: seq<Entry<T>>, i: nat) {
    exists j :: 0 <= j < |log| && i < |log[j].keys| && log[j].keys[i].NoKey?
  }

  predicate HasEvidence(ev: Evidence, i: nat) {
    ev.Some? && i < |ev.value| && ev.value[i] != []
  }

  lemma {:induction false} NoteKeysEvidence(ev: Evidence, keys: Keys, i: nat, src: int, at: nat)
    requires i <= |keys|
    requires Fits(SizeOf(ev), keys)
    ensures HasEvidence(NoteKeys(ev, keys, i, src), at) <==> HasEvidence(ev, at) || (at < i && keys[at].NoKey?)
  {
    if i > 0 {
      NoteKeysEvidence(ev, keys, i - 1, src, at);
      NoteKeysSize(ev, keys, i - 1, src);
    }
  }

  /** The evidence table lists exactly the positions with a missing key. */
  lemma {:induction false} EvidenceIsMissing<T>(log: seq<Entry<T>>, at: nat)
    requires Legal(log)
    ensures HasEvidence(EvidenceOf(log), at) <==> MissingAt(log, at)
  {
    if log != [] {
      var before, e := log[..|log| - 1], log[|log| - 1];
      assert log == before + [e];
      LegalStep(before, e);
      EvidenceIsMissing(before, at);
      EvidenceSize(before);
      NoteKeysEvidence(EvidenceOf(before), e.keys, |e.keys|, e.src, at);
      if MissingAt(before, at) {
        var j :| 0 <= j < |before| && at < |before[j].keys| && before[j].keys[at].NoKey?;
        assert log[j].keys[at].NoKey?;
      }
      if MissingAt(log, at) {
        var j :| 0 <= j < |log| && at < |log[j].keys| && log[j].keys[at].NoKey?;
        if j < |before| {
          assert before[j].keys[at].NoKey?;
        }
      }
    }
  }

  /** The key check in terms of the calls. A query must not have a wildcard, nor a
      key where some override has none although others use `[*]`. A key that lies
      beyond the first override with a missing key cannot be checked. */
  function PositionCheck<T>(log: seq<Entry<T>>, q: Keys, i: nat): KeyCheck
    requires i < |q|
  {
    if q[i].WildcardKey? then Wildcard
    else if !Modern(log) || q[i].NoKey? then Fine
    else if MissingAt(log, i) then Mixed
    else if TableSize(log).Some? && i >= TableSize(log).value then Panics
    else Fine
  }

  lemma CheckOfIsPositionCheck<T>(log: seq<Entry<T>>, q: Keys, i: nat)
    requires Legal(log) && i < |q|
    ensures CheckOf(q[i], i, EvidenceOf(log), Modern(log)) == PositionCheck(log, q, i)
  {
    EvidenceIsMissing(log, i);
    EvidenceSize(log);
  }

  /** The lookup gets as far as position `i`. */
  predicate Reached<T>(log: seq<Entry<T>>, q: Keys, i: nat) {
    i == 0 || exists j :: 0 <= j < |log| && EntryMatchesUpTo(log[j], q, i)
  }

  function Lookup<T>(log: seq<Entry<T>>, q: Keys): Found<T> {
    Search(Some(Build(log)), q, ChecksOf(q, EvidenceOf(log), Modern(log)))
  }

  /** The first position of the query that the check does not let pass. */
  predicate FirstBad<T>(log: seq<Entry<T>>, q: Keys, i: nat) {
    && i < |q| && !PositionCheck(log, q, i).Fine?
    && forall k :: 0 <= k < i ==> PositionCheck(log, q, k).Fine?
  }

  lemma {:induction false} FirstBadUpTo<T>(log: seq<Entry<T>>, q: Keys, i: nat) returns (first: nat)
    requires i < |q| && !PositionCheck(log, q, i).Fine?
    ensures first <= i && FirstBad(log, q, first)
  {
    first := i;
    if k: nat :| k < i && !PositionCheck(log, q, k).Fine? {
      first := FirstBadUpTo(log, q, k);
    }
  }

  /** A lookup fails exactly when it gets as far as the first bad position, and it
      fails the way the check there does. */
  lemma LookupStopsIff<T>(log: seq<Entry<T>>, q: Keys)
    requires Legal(log)
    ensures Lookup(log, q).Stopped? <==> exists i: nat :: i < |q| && FirstBad(log, q, i) && Reached(log, q, i)
    ensures forall i: nat :: i < |q| && FirstBad(log, q, i) && Lookup(log, q).Stopped? ==>
              Lookup(log, q) == Stopped(PositionCheck(log, q, i))
  {
    var n, checks := Build(log), ChecksOf(q, EvidenceOf(log), Modern(log));
    SearchStopsIff(n, q, checks);
    forall i | 0 <= i < |q|
      ensures checks[i] == PositionCheck(log, q, i)
    {
      CheckOfIsPositionCheck(log, q, i);
    }
    if ReachesBad(n, q, checks) {
      var p :| ReachesBadAt(n, q, checks, p);
      PathIsReached(log, q, p);
      var first := FirstBadUpTo(log, q, |p|);
      ReachedBefore(log, q, first, |p|);
    }
    forall i: nat | i < |q| && FirstBad(log, q, i)
      ensures Reached(log, q, i) ==> ReachesBad(n, q, checks)
      ensures Lookup(log, q).Stopped? ==> Lookup(log, q) == Stopped(PositionCheck(log, q, i))
    {
      if Reached(log, q, i) {
        var p := ReachedPath(log, q, i);
        assert ReachesBadAt(n, q, checks, p);
      }
      SearchStopsAtFirst(Some(n), q, checks, i);
    }
  }

  lemma ReachedBefore<T>(log: seq<Entry<T>>, q: Keys, i: nat, k: nat)
    requires i <= k && Reached(log, q, k)
    ensures Reached(log, q, i)
  {
    if i > 0 {
      var j :| 0 <= j < |log| && EntryMatchesUpTo(log[j], q, k);
      assert EntryMatchesUpTo(log[j], q, i);
    }
  }

  /** A lookup that stops does so at the first check that is not fine. */
  lemma {:induction false} SearchStopsAtFirst<T>(n: Option<Node<T>>, q: Keys, checks: seq<KeyCheck>, i: nat)
    requires |q| == |checks| && i < |q| && !checks[i].Fine? && forall k :: 0 <= k < i ==> checks[k].Fine?
    ensures Search(n, q, checks).Stopped? ==> Search(n, q, checks) == Stopped(checks[i])
    decreases |q|
  {
    if n.Some? && i > 0 {
      SearchStopsAtFirst(ChildOf(n.value, q[0]), q[1..], checks[1..], i - 1);
      SearchStopsAtFirst(ChildOf(n.value, WILD), q[1..], checks[1..], i - 1);
    }
  }

  lemma PathIsReached<T>(log: seq<Entry<T>>, q: Keys, p: Keys)
    requires |p| < |q| && Exists(Build(log), p) && Matches(p, q[..|p|])
    ensures Reached(log, q, |p|)
  {
    BuildValue(log, p);
    if p != [] {
      var j :| 0 <= j < |log| && p <= StoredKeys(log[j].keys);
      assert p == StoredKeys(log[j].keys)[..|p|];
      MatchesIsEntryMatches(log[j], q, |p|);
    }
  }

  lemma ReachedPath<T>(log: seq<Entry<T>>, q: Keys, i: nat) returns (p: Keys)
    requires i < |q| && Reached(log, q, i)
    ensures |p| == i && Exists(Build(log), p) && Matches(p, q[..i])
  {
    if i == 0 {
      p := [];
    } else {
      var j :| 0 <= j < |log| && EntryMatchesUpTo(log[j], q, i);
      p := StoredKeys(log[j].keys)[..i];
      MatchesIsEntryMatches(log[j], q, i);
      BuildValue(log, p);
    }
  }

  /** The entry that the documentation says applies: it matches, and every other
      match is an earlier call for the same keys or is less specific. */
  predicate Applies<T>(log: seq<Entry<T>>, q: Keys, j: nat) {
    && j < |log| && EntryMatches(log[j], q)
    && forall l :: 0 <= l < |log| && EntryMatches(log[l], q) ==>
         || (StoredKeys(log[l].keys) == StoredKeys(log[j].keys) && l <= j)
         || Prefers(StoredKeys(log[j].keys), StoredKeys(log[l].keys), q)
  }

  lemma {:induction false} LatestEntry<T>(log: seq<Entry<T>>, p: Keys)
    ensures Latest(log, p).None? <==> forall j :: 0 <= j < |log| ==> StoredKeys(log[j].keys) != p
    ensures Latest(log, p).Some? ==>
              exists j :: 0 <= j < |log| && IsLatest(log, p, j) && Latest(log, p) == Some(log[j].value)
  {
    if log != [] {
      var before, last := log[..|log| - 1], |log| - 1;
      LatestEntry(before, p);
      if StoredKeys(log[last].keys) == p {
        assert IsLatest(log, p, last);
      } else if Latest(before, p).Some? {
        var j :| 0 <= j < |before| && IsLatest(before, p, j) && Latest(before, p) == Some(before[j].value);
        assert IsLatest(log, p, j);
      }
    }
  }

  predicate IsLatest<T>(log: seq<Entry<T>>, p: Keys, j: nat) {
    && j < |log| && StoredKeys(log[j].keys) == p
    && forall l :: j < l < |log| ==> StoredKeys(log[l].keys) != p
  }

  lemma WholeMatch<T>(e: Entry<T>, q: Keys)
    ensures Matches(StoredKeys(e.keys), q) <==> EntryMatches(e, q)
  {
  }

  /** A lookup that does not fail returns the value of the applicable entry, and
      nothing exactly when no entry matches. */
  lemma LookupFindsApplicable<T>(log: seq<Entry<T>>, q: Keys)
    requires Lookup(log, q).Found?
    ensures var v := Lookup(log, q).value;
            && (v.None? <==> forall j :: 0 <= j < |log| ==> !EntryMatches(log[j], q))
            && (v.Some? ==> exists j :: 0 <= j < |log| && Applies(log, q, j) && v == Some(log[j].value))
  {
    var n := Build(log);
    var v := Lookup(log, q).value;
    SearchFindsBest(n, q, ChecksOf(q, EvidenceOf(log), Modern(log)));
    forall j | 0 <= j < |log|
      ensures Matches(StoredKeys(log[j].keys), q) <==> EntryMatches(log[j], q)
      ensures ValueAt(n, StoredKeys(log[j].keys)).Some?
    {
      WholeMatch(log[j], q);
      BuildValue(log, StoredKeys(log[j].keys));
      LatestEntry(log, StoredKeys(log[j].keys));
    }
    if v.Some? {
      var best :| IsBest(n, best, q) && ValueAt(n, best) == v;
      BuildValue(log, best);
      LatestEntry(log, best);
      var j :| 0 <= j < |log| && IsLatest(log, best, j) && v == Some(log[j].value);
      assert Applies(log, q, j);
    }
  }

  /** With one style of addressing in all overrides, a query without wildcards
      never fails. */
  lemma UnmixedLookupNeverFails<T>(log: seq<Entry<T>>, q: Keys)
    requires Legal(log) && !HasWildcard(q)
    requires !Modern(log) || TableSize(log).None?
    ensures Lookup(log, q).Found?
  {
    LookupStopsIff(log, q);
    forall i | 0 <= i < |q|
      ensures PositionCheck(log, q, i).Fine?
    {
      EvidenceIsMissing(log, i);
      EvidenceSize(log);
    }
  }

  predicate SameDepth<T>(log: seq<Entry<T>>, n: nat) {
    forall j :: 0 <= j < |log| ==> |log[j].keys| == n
  }

  lemma {:induction false} SameDepthTable<T>(log: seq<Entry<T>>, n: nat)
    requires SameDepth(log, n)
    ensures TableSize(log) == None || TableSize(log) == Some(n)
  {
    if log != [] {
      SameDepthTable(log[..|log| - 1], n);
    }
  }

  /** The callers keep one trie for each resource of the configuration, so that all
      addresses have equally many keys: then nothing panics. */
  lemma SameDepthNeverPanics<T>(log: seq<Entry<T>>, q: Keys)
    requires SameDepth(log, |q|)
    ensures Legal(log) && Fits(TableSize(log), q)
    ensures Lookup(log, q) != Stopped(Panics)
  {
    forall j | 0 <= j < |log|
      ensures Fits(TableSize(log[..j]), log[j].keys)
    {
      SameDepthTable(log[..j], |q|);
    }
    SameDepthTable(log, |q|);
    LookupStopsIff(log, q);
    if i: nat :| i < |q| && FirstBad(log, q, i) {
      assert !PositionCheck(log, q, i).Panics?;
    }
  }

  // --------------------------------------------------- the lookup on addresses

  /** A key of an override that stands for every key. */
  predicate General(k: InstanceKey) {
    k.NoKey? || k == WILD
  }

  predicate KeyMatches(k: InstanceKey, j: InstanceKey) {
    k == j || General(k)
  }

  /** The override is about this address: as many modules, and every key of it equal,
      missing or `[*]`, the own key of the resource included. */
  predicate AddressMatches(o: Address, q: Address) {
    && |o.path| == |q.path|
    && (forall i :: 0 <= i < |q.path| ==> KeyMatches(o.path[i].key, q.path[i].key))
    && KeyMatches(o.key, q.key)
  }

  /** Equally general in the first `n` modules. */
  predicate AlikeUpTo(a: Address, b: Address, n: nat)
    requires n <= |a.path| && n <= |b.path|
  {
    forall i :: 0 <= i < n ==> General(a.path[i].key) == General(b.path[i].key)
  }

  /** Where the two first differ, `a` names a key and `b` does not; the modules count
      from the outside in, and before the resource. */
  predicate MoreSpecific(a: Address, b: Address)
    requires |a.path| == |b.path|
  {
    || (exists i: nat :: i < |a.path| && MoreSpecificAt(a, b, i))
    || (AlikeUpTo(a, b, |a.path|) && !General(a.key) && General(b.key))
  }

  predicate MoreSpecificAt(a: Address, b: Address, i: nat)
    requires |a.path| == |b.path|
  {
    i < |a.path| && AlikeUpTo(a, b, i) && !General(a.path[i].key) && General(b.path[i].key)
  }

  /** The call that decides: it is about the address, and every other such call is an
      earlier one for the same keys or is less specific. */
  predicate Decides<T>(calls: seq<Call<T>>, q: Address, j: nat) {
    && j < |calls| && AddressMatches(calls[j].addr, q)
    && forall l :: 0 <= l < |calls| && AddressMatches(calls[l].addr, q) ==>
         var a, b := calls[j].addr, calls[l].addr;
         || (AlikeUpTo(a, b, |q.path|) && General(a.key) == General(b.key) && l <= j)
         || MoreSpecific(a, b)
  }

  lemma KeysMatchIffAddressMatches<T>(c: Call<T>, q: Address)
    ensures EntryMatches(EntryOf(c), KeyList(q)) <==> AddressMatches(c.addr, q)
  {
    var ks, qs := KeyList(c.addr), KeyList(q);
    var n := |q.path|;
    if |c.addr.path| == n {
      assert ks[n] == c.addr.key && qs[n] == q.key;
      assert forall i :: 0 <= i < n ==> ks[i] == c.addr.path[i].key && qs[i] == q.path[i].key;
    }
  }

  lemma {:induction false} PrefersAt(a: Keys, b: Keys, q: Keys) returns (i: nat)
    requires |a| == |b| == |q| && Prefers(a, b, q)
    ensures i < |q| && a[i] != b[i] && a[i] == q[i] && forall k :: 0 <= k < i ==> a[k] == b[k]
  {
    if a[0] != b[0] {
      i := 0;
    } else {
      var rest := PrefersAt(a[1..], b[1..], q[1..]);
      i := rest + 1;
      assert forall k :: 0 < k < |q| ==> a[k] == a[1..][k - 1] && b[k] == b[1..][k - 1];
    }
  }

  lemma PreferredIsMoreSpecific(a: Address, b: Address, q: Address)
    requires AddressMatches(a, q) && AddressMatches(b, q)
    requires Prefers(StoredKeys(KeyList(a)), StoredKeys(KeyList(b)), KeyList(q))
    ensures MoreSpecific(a, b)
  {
    var i := PrefersAt(StoredKeys(KeyList(a)), StoredKeys(KeyList(b)), KeyList(q));
    assert forall k :: 0 <= k < |q.path| ==>
      StoredKeys(KeyList(a))[k] == StoredKey(a.path[k].key) && StoredKeys(KeyList(b))[k] == StoredKey(b.path[k].key);
    if i < |q.path| {
      assert MoreSpecificAt(a, b, i);
    } else {
      assert AlikeUpTo(a, b, |q.path|);
    }
  }

  lemma SameStoredKeysAreAlike(a: Address, b: Address)
    requires StoredKeys(KeyList(a)) == StoredKeys(KeyList(b)) && |a.path| == |b.path|
    ensures AlikeUpTo(a, b, |a.path|) && General(a.key) == General(b.key)
  {
    var n := |a.path|;
    assert forall k :: 0 <= k < n ==>
      StoredKeys(KeyList(a))[k] == StoredKey(a.path[k].key) && StoredKeys(KeyList(b))[k] == StoredKey(b.path[k].key);
    assert StoredKeys(KeyList(a))[n] == StoredKey(a.key) && StoredKeys(KeyList(b))[n] == StoredKey(b.key);
  }

  /** What `Get` finds, in terms of the addresses given to `Set`: the value of the
      deciding call, and nothing exactly if no call is about the address. */
  lemma LookupFindsDecidingCall<T>(calls: seq<Call<T>>, q: Address)
    requires Lookup(Entries(calls), KeyList(q)).Found?
    ensures var v := Lookup(Entries(calls), KeyList(q)).value;
            && (v.None? <==> forall j :: 0 <= j < |calls| ==> !AddressMatches(calls[j].addr, q))
            && (v.Some? ==> exists j :: 0 <= j < |calls| && Decides(calls, q, j) && v == Some(calls[j].value))
  {
    var log := Entries(calls);
    var v := Lookup(log, KeyList(q)).value;
    LookupFindsApplicable(log, KeyList(q));
    forall j | 0 <= j < |calls|
      ensures EntryMatches(log[j], KeyList(q)) <==> AddressMatches(calls[j].addr, q)
    {
      KeysMatchIffAddressMatches(calls[j], q);
    }
    if v.Some? {
      var j :| 0 <= j < |log| && Applies(log, KeyList(q), j) && v == Some(log[j].value);
      AppliesDecides(calls, q, j);
    }
  }

  lemma AppliesDecides<T>(calls: seq<Call<T>>, q: Address, j: nat)
    requires Applies(Entries(calls), KeyList(q), j)
    ensures Decides(calls, q, j)
  {
    KeysMatchIffAddressMatches(calls[j], q);
    forall l | 0 <= l < |calls| && AddressMatches(calls[l].addr, q)
      ensures
        var a, b := calls[j].addr, calls[l].addr;
        || (AlikeUpTo(a, b, |q.path|) && General(a.key) == General(b.key) && l <= j)
        || MoreSpecific(a, b)
    {
      KeysMatchIffAddressMatches(calls[l], q);
      assert EntryMatches(Entries(calls)[l], KeyList(q));
      var a, b := calls[j].addr, calls[l].addr;
      if StoredKeys(KeyList(a)) == StoredKeys(KeyList(b)) && l <= j {
        SameStoredKeysAreAlike(a, b);
      } else {
        PreferredIsMoreSpecific(a, b, q);
      }
    }
  }
}
