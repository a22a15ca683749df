/** The text of addresses. It is used as a map key and as an equality test, so
    distinct addresses of one type must have distinct texts. */
module AddressText {
  import opened Addrs
  import opened Options
  import opened Quoting
  import opened ParseTarget

  // ---------------------------------------------------------------- decimals

  function Digit(n: int): char
    requires 0 <= n < 10
  {
    "0123456789"[n]
  }

  function Decimal(n: nat): string {
    if n < 10 then [Digit(n)] else Decimal(n / 10) + [Digit(n % 10)]
  }

  function IntText(i: int): string {
    if i < 0 then "-" + Decimal(-i) else Decimal(i)
  }

  function ReadDecimal(t: string): Option<nat> {
    if t == "" then None
    else
      var c := t[|t| - 1];
      if !('0' <= c <= '9') then None
      else if |t| == 1 then Some(c as int - '0' as int)
      else
        var high := ReadDecimal(t[..|t| - 1]);
        if high.None? then None else Some(high.value * 10 + (c as int - '0' as int))
  }

  function ReadInt(t: string, signs: bool): Option<int> {
    if signs && t != "" && t[0] == '-' then
      var n := ReadDecimal(t[1..]);
      if n.None? then None else var i: int := n.value; Some(-i)
    else
      ReadDecimal(t)
  }

  // ------------------------------------------------------------------- texts

  /** The text of a key; the printers below never ask for the text of `NoKey`. */
  function KeyText(k: InstanceKey, isPrint: char -> bool): string {
    match k
    case NoKey => ""
    case IntKey(i) => "[" + IntText(i) + "]"
    case StringKey(s) => "[" + Quote(s, isPrint) + "]"
    case WildcardKey(_) => "[*]"
    case AnyKey => "[*]"
  }

  function StepText(s: Step, isPrint: char -> bool): string {
    "module." + s.name + KeyText(s.key, isPrint)
  }

  /** The steps of a module path, `sep` before the first and a dot before the rest. */
  function JoinSteps(m: ModuleInstance, sep: string, isPrint: char -> bool): string {
    if m == [] then "" else sep + StepText(m[0], isPrint) + JoinSteps(m[1..], ".", isPrint)
  }

  function PathText(m: ModuleInstance, isPrint: char -> bool): string {
    JoinSteps(m, "", isPrint)
  }

  method ModuleInstanceString(m: ModuleInstance, isPrint: char -> bool) returns (r: string)
    ensures r == PathText(m, isPrint)
  {
    r := "";
    var sep := "";
    for i := 0 to |m|
      invariant r + JoinSteps(m[i..], sep, isPrint) == PathText(m, isPrint)
    {
      assert m[i..][1..] == m[i + 1..];
      var step := "module." + m[i].name;
      if m[i].key != NoKey {
        var key := KeyText(m[i].key, isPrint);
        step := step + key;
      }
      assert step == StepText(m[i], isPrint);
      Associative(r, sep + step, JoinSteps(m[i + 1..], ".", isPrint));
      r := r + (sep + step);
      sep := ".";
    }
  }

  function ResourceText(r: Resource): string {
    var typeAndName := r.typeName + "." + r.name;
    if r.mode.Managed? then typeAndName else ModeKeyword(r.mode) + "." + typeAndName
  }

  /** A local address under a module path. */
  function UnderPath(m: ModuleInstance, local: string, isPrint: char -> bool): string {
    if m == [] then local else PathText(m, isPrint) + "." + local
  }

  /** The `String` method of the four address types. */
  function AddrText(x: Moveable, isPrint: char -> bool): string {
    match x
    case ModuleInst(m) => PathText(m, isPrint)
    case ModuleCall(m, c) => UnderPath(m, "module." + c, isPrint)
    case AbsResource(m, r) => UnderPath(m, ResourceText(r), isPrint)
    case AbsResourceInstance(m, r, k) => UnderPath(m, ResourceText(r) + KeyText(k, isPrint), isPrint)
  }

  // ----------------------------------------------------------------- reading

  /** What a reader accepts, a minus sign in front of an index and which names, and
      what it makes of a quoted string. */
  datatype Reader = Reader(signs: bool, isName: string -> bool, normal: string -> string)

  /** Reads all that the printers write. */
  const LENIENT := Reader(true, (n: string) => true, (s: string) => s)

  /** The tables of characters that start and continue an identifier, and the Unicode
      normal form in which HCL keeps strings. */
  datatype Lexicon = Lexicon(idStart: char -> bool, idContinue: char -> bool, normal: string -> string)

  predicate Identifier(n: string, lex: Lexicon) {
    && n != "" && lex.idStart(n[0])
    && forall i :: 0 < i < |n| ==> lex.idContinue(n[i]) || n[i] == '-'
  }

  /** The HCL traversal syntax: names are identifiers, an index has no sign, and strings
      are normalised. */
  function Hcl(lex: Lexicon): Reader {
    Reader(false, (n: string) => Identifier(n, lex), lex.normal)
  }

  predicate EndsName(c: char) {
    c == '.' || c == '['
  }

  function NameLength(t: string): nat {
    if t == "" || EndsName(t[0]) then 0 else 1 + NameLength(t[1..])
  }

  function BracketLength(t: string): nat {
    if t == "" || t[0] == ']' then 0 else 1 + BracketLength(t[1..])
  }

  /** The index after an opening bracket, and the text after the closing one. */
  function ReadIndex(t: string, reader: Reader): Option<(Part, string)> {
    if t != "" && t[0] == '\"' then
      var q := ReadQuoted(t);
      if q.None? || q.value.1 == "" || q.value.1[0] != ']' then None
      else Some((Index(StringIndex(reader.normal(q.value.0))), q.value.1[1..]))
    else
      var n := BracketLength(t);
      if n >= |t| then None
      else
        var i := ReadInt(t[..n], reader.signs);
        if i.None? then None
        else Some((Index(NumberIndex(i.value as real)), t[n + 1..]))
  }

  /** One part of an address: a dotted name or a bracketed index. */
  function ReadPart(t: string, reader: Reader): Option<(Part, string)>
    requires t != ""
  {
    if t[0] == '.' then
      var n := NameLength(t[1..]);
      if n + 1 > |t| || !reader.isName(t[1..n + 1]) then None else Some((Attr(t[1..n + 1]), t[n + 1..]))
    else if t[0] == '[' then ReadIndex(t[1..], reader)
    else None
  }

  function ReadParts(t: string, reader: Reader): Option<Traversal>
    decreases |t|
  {
    if t == "" then Some([])
    else
      var first := ReadPart(t, reader);
      if first.None? || |first.value.1| >= |t| then None
      else
        var rest := ReadParts(first.value.1, reader);
        if rest.None? then None else Some([first.value.0] + rest.value)
  }

  /** Reads an address: the first name has no dot in front of it. */
  function ReadAddress(t: string, reader: Reader): Option<Moveable> {
    var parts := ReadParts("." + t, reader);
    if parts.None? then None else Parse(Rooted(parts.value), false)
  }

  // ------------------------------------------------------- what can be printed

  predicate CleanName(n: string) {
    forall i :: 0 <= i < |n| ==> !EndsName(n[i])
  }

  /** The names are free of the two characters that end a name, and the keys are
      keys of real instances. */
  predicate Printable(x: Moveable) {
    && Actual(x)
    && (forall i :: 0 <= i < |x.path| ==> CleanName(x.path[i].name))
    && (x.ModuleCall? ==> CleanName(x.call))
    && (!ModuleKind(x) ==> CleanName(x.resource.typeName) && CleanName(x.resource.name))
  }

  predicate NameReadable(n: string, reader: Reader) {
    CleanName(n) && reader.isName(n)
  }

  predicate KeyReadable(k: InstanceKey, reader: Reader) {
    && ActualKey(k)
    && (k.IntKey? && k.i < 0 ==> reader.signs)
    && (k.StringKey? ==> reader.normal(k.s) == k.s)
  }

  predicate StepReadable(s: Step, reader: Reader) {
    NameReadable(s.name, reader) && KeyReadable(s.key, reader)
  }

  predicate PathReadable(m: ModuleInstance, reader: Reader) {
    forall i :: 0 <= i < |m| ==> StepReadable(m[i], reader)
  }

  /** The reader accepts the names and the keys of the address. */
  predicate Readable(x: Moveable, reader: Reader) {
    && PathReadable(x.path, reader)
    && (x.ModuleCall? ==> NameReadable(x.call, reader))
    && (!ModuleKind(x) ==> NameReadable(x.resource.typeName, reader) && NameReadable(x.resource.name, reader))
    && (x.AbsResourceInstance? ==> KeyReadable(x.key, reader))
  }

  /** The reader accepts the words that the printers add. */
  predicate KeywordsReadable(x: Moveable, reader: Reader) {
    && NameReadable("module", reader)
    && (!ModuleKind(x) && !x.resource.mode.Managed? ==> NameReadable(ModeKeyword(x.resource.mode), reader))
  }

  // -------------------------------------------------- proofs: reading the parts

  lemma {:induction false} DecimalProperties(n: nat)
    ensures Decimal(n) != "" && ReadDecimal(Decimal(n)) == Some(n)
    ensures forall i :: 0 <= i < |Decimal(n)| ==> '0' <= Decimal(n)[i] <= '9'
  {
    if n >= 10 {
      DecimalProperties(n / 10);
      assert Decimal(n)[..|Decimal(n)| - 1] == Decimal(n / 10);
    }
  }

  /** The text of an integer is canonical: it has a sign only if it is negative, and no
      leading zero unless it is zero. */
  lemma {:induction false} DecimalIsCanonical(n: nat)
    ensures Decimal(n)[0] == '0' <==> n == 0
    ensures n == 0 ==> Decimal(n) == "0"
  {
    if n >= 10 {
      DecimalIsCanonical(n / 10);
      DecimalProperties(n / 10);
    }
  }

  lemma IntTextIsCanonical(i: int)
    ensures IntText(i)[0] == '-' <==> i < 0
    ensures var digits := if i < 0 then IntText(i)[1..] else IntText(i);
            digits != "" && (digits[0] == '0' ==> i == 0 && digits == "0")
  {
    var n: nat := if i < 0 then -i else i;
    DecimalProperties(n);
    DecimalIsCanonical(n);
    if i < 0 {
      assert IntText(i)[1..] == Decimal(n);
    }
  }

  lemma IntTextProperties(i: int)
    ensures IntText(i) != "" && ReadInt(IntText(i), true) == Some(i)
    ensures i >= 0 ==> ReadInt(IntText(i), false) == Some(i)
    ensures forall j :: 0 <= j < |IntText(i)| ==> IntText(i)[j] != ']' && IntText(i)[j] != '\"'
  {
    var n: nat := if i < 0 then -i else i;
    DecimalProperties(n);
    if i < 0 {
      assert IntText(i)[1..] == Decimal(n);
    }
  }

  lemma {:induction false} NameLengthOf(n: string, t: string)
    requires CleanName(n) && (t == "" || EndsName(t[0]))
    ensures NameLength(n + t) == |n|
  {
    if n == "" {
      assert n + t == t;
    } else {
      assert (n + t)[1..] == n[1..] + t;
      NameLengthOf(n[1..], t);
    }
  }

  lemma {:induction false} BracketLengthOf(n: string, t: string)
    requires forall i :: 0 <= i < |n| ==> n[i] != ']'
    requires t != "" && t[0] == ']'
    ensures BracketLength(n + t) == |n|
  {
    if n == "" {
      assert n + t == t;
    } else {
      assert (n + t)[1..] == n[1..] + t;
      BracketLengthOf(n[1..], t);
    }
  }

  function PartText(p: Part, isPrint: char -> bool): string {
    match p
    case Root(n) => "." + n
    case Attr(n) => "." + n
    case Index(StringIndex(s)) => "[" + Quote(s, isPrint) + "]"
    case Index(NumberIndex(r)) => "[" + IntText(r.Floor) + "]"
    case _ => "[*]"
  }

  function PartsText(ps: Traversal, isPrint: char -> bool): string {
    if ps == [] then "" else PartText(ps[0], isPrint) + PartsText(ps[1..], isPrint)
  }

  predicate PartReadable(p: Part, reader: Reader) {
    match p
    case Attr(n) => NameReadable(n, reader)
    case Index(StringIndex(s)) => reader.normal(s) == s
    case Index(NumberIndex(r)) => r.Floor as real == r && (r < 0.0 ==> reader.signs)
    case _ => false
  }

  predicate PartsReadable(ps: Traversal, reader: Reader) {
    forall i :: 0 <= i < |ps| ==> PartReadable(ps[i], reader)
  }

  lemma ReadPartOfText(p: Part, rest: string, reader: Reader, isPrint: char -> bool)
    requires PartReadable(p, reader) && isPrint('{')
    requires rest == "" || EndsName(rest[0])
    ensures ReadPart(PartText(p, isPrint) + rest, reader) == Some((p, rest))
  {
    match p {
      case Attr(n) =>
        var t := "." + n + rest;
        assert t[1..] == n + rest;
        NameLengthOf(n, rest);
        assert t[1..|n| + 1] == n;
      case Index(StringIndex(s)) =>
        ReadStringIndex(s, rest, reader, isPrint);
      case Index(NumberIndex(r)) =>
        ReadNumberIndex(r.Floor, rest, reader);
    }
  }

  lemma ReadStringIndex(s: string, rest: string, reader: Reader, isPrint: char -> bool)
    requires isPrint('{') && reader.normal(s) == s
    ensures ReadPart("[" + Quote(s, isPrint) + "]" + rest, reader) == Some((Index(StringIndex(s)), rest))
  {
    var t, q, after := "[" + Quote(s, isPrint) + "]" + rest, Quote(s, isPrint), "]" + rest;
    assert t[1..] == q + after;
    QuoteRoundTrip(s, isPrint, after);
    assert after[1..] == rest;
  }

  lemma ReadNumberIndex(i: int, rest: string, reader: Reader)
    requires i < 0 ==> reader.signs
    ensures ReadPart("[" + IntText(i) + "]" + rest, reader) == Some((Index(NumberIndex(i as real)), rest))
  {
    var n, after := IntText(i), "]" + rest;
    var t := "[" + n + "]" + rest;
    assert t[1..] == n + after;
    IntTextProperties(i);
    BracketLengthOf(n, after);
    assert (n + after)[..|n|] == n && (n + after)[|n| + 1..] == rest;
  }

  lemma PartsTextStart(ps: Traversal, isPrint: char -> bool)
    ensures PartsText(ps, isPrint) == "" || EndsName(PartsText(ps, isPrint)[0])
  {
  }

  lemma ReadPartsStep(t: string, p: Part, rest: string, ps: Traversal, reader: Reader)
    requires t != "" && ReadPart(t, reader) == Some((p, rest)) && |rest| < |t|
    requires ReadParts(rest, reader) == Some(ps)
    ensures ReadParts(t, reader) == Some([p] + ps)
  {
  }

  lemma {:induction false} ReadPartsOfText(ps: Traversal, reader: Reader, isPrint: char -> bool)
    requires PartsReadable(ps, reader) && isPrint('{')
    ensures ReadParts(PartsText(ps, isPrint), reader) == Some(ps)
  {
    if ps != [] {
      var first, rest := PartText(ps[0], isPrint), PartsText(ps[1..], isPrint);
      ReadPartsOfText(ps[1..], reader, isPrint);
      PartsTextStart(ps[1..], isPrint);
      assert PartReadable(ps[0], reader);
      ReadPartOfText(ps[0], rest, reader, isPrint);
      ReadPartsStep(first + rest, ps[0], rest, ps[1..], reader);
      assert ps == [ps[0]] + ps[1..];
    }
  }

  // ----------------------------------------- proofs: what a reader can return

  lemma {:induction false} NameIsClean(t: string)
    ensures NameLength(t) <= |t| && CleanName(t[..NameLength(t)])
  {
    if t != "" && !EndsName(t[0]) {
      NameIsClean(t[1..]);
      assert t[..NameLength(t)] == [t[0]] + t[1..][..NameLength(t[1..])];
    }
  }

  ghost predicate Normalises(reader: Reader) {
    forall s :: reader.normal(reader.normal(s)) == reader.normal(s)
  }

  lemma ReadPartIsReadable(t: string, reader: Reader)
    requires t != "" && ReadPart(t, reader).Some? && Normalises(reader)
    ensures PartReadable(ReadPart(t, reader).value.0, reader)
    ensures t[0] == '.' ==> ReadPart(t, reader).value.0.Attr?
  {
    if t[0] == '.' {
      NameIsClean(t[1..]);
      assert t[1..NameLength(t[1..]) + 1] == t[1..][..NameLength(t[1..])];
    }
  }

  lemma {:induction false} ReadPartsAreReadable(t: string, reader: Reader)
    requires ReadParts(t, reader).Some? && Normalises(reader)
    ensures PartsReadable(ReadParts(t, reader).value, reader)
    ensures t != "" ==> ReadParts(t, reader).value != []
    decreases |t|
  {
    if t != "" {
      ReadPartIsReadable(t, reader);
      ReadPartsAreReadable(ReadPart(t, reader).value.1, reader);
    }
  }

  // -------------------------------------------------- proofs: text of the parts

  lemma {:induction false} PartsTextConcat(a: Traversal, b: Traversal, isPrint: char -> bool)
    ensures PartsText(a + b, isPrint) == PartsText(a, isPrint) + PartsText(b, isPrint)
  {
    if a == [] {
      assert a + b == b;
    } else {
      assert (a + b)[1..] == a[1..] + b;
      PartsTextConcat(a[1..], b, isPrint);
      Associative(PartText(a[0], isPrint), PartsText(a[1..], isPrint), PartsText(b, isPrint));
    }
  }

  lemma PartsTextOne(p: Part, isPrint: char -> bool)
    ensures PartsText([p], isPrint) == PartText(p, isPrint)
  {
  }

  lemma PartsTextTwo(p: Part, q: Part, isPrint: char -> bool)
    ensures PartsText([p, q], isPrint) == PartText(p, isPrint) + PartText(q, isPrint)
  {
    assert [p, q][1..] == [q];
    PartsTextOne(q, isPrint);
  }

  lemma KeyPartsText(k: InstanceKey, isPrint: char -> bool)
    ensures PartsText(KeyParts(k), isPrint) == KeyText(k, isPrint)
  {
  }

  lemma StepPartsText(s: Step, isPrint: char -> bool)
    ensures PartsText(StepParts(s), isPrint) == "." + StepText(s, isPrint)
  {
    PartsTextConcat([Attr("module"), Attr(s.name)], KeyParts(s.key), isPrint);
    PartsTextTwo(Attr("module"), Attr(s.name), isPrint);
    KeyPartsText(s.key, isPrint);
    DotBetween("module", s.name);
    ModuleDot(s.name);
    Associative(".", "module." + s.name, KeyText(s.key, isPrint));
  }

  lemma ModuleDot(name: string)
    ensures "module" + "." + name == "module." + name
  {
  }

  lemma {:induction false} PathPartsText(m: ModuleInstance, isPrint: char -> bool)
    ensures PartsText(PathParts(m), isPrint) == JoinSteps(m, ".", isPrint)
  {
    if m != [] {
      PartsTextConcat(StepParts(m[0]), PathParts(m[1..]), isPrint);
      StepPartsText(m[0], isPrint);
      PathPartsText(m[1..], isPrint);
    }
  }

  lemma DottedPathText(m: ModuleInstance, isPrint: char -> bool)
    requires m != []
    ensures PartsText(PathParts(m), isPrint) == "." + PathText(m, isPrint)
  {
    PathPartsText(m, isPrint);
    DotInFront(StepText(m[0], isPrint), JoinSteps(m[1..], ".", isPrint));
  }

  lemma DotInFront(a: string, b: string)
    ensures "." + a + b == "." + ("" + a + b)
  {
  }

  lemma DotBetween(a: string, b: string)
    ensures ("." + a) + ("." + b) == "." + (a + "." + b)
  {
  }

  lemma ResourcePartsText(r: Resource, isPrint: char -> bool)
    ensures PartsText(ResourceParts(r), isPrint) == "." + ResourceText(r)
  {
    var typeAndName := r.typeName + "." + r.name;
    var tail := [Attr(r.typeName), Attr(r.name)];
    PartsTextConcat(ModeParts(r.mode), tail, isPrint);
    PartsTextTwo(tail[0], tail[1], isPrint);
    DotBetween(r.typeName, r.name);
    if r.mode.Managed? {
      assert ModeParts(r.mode) + tail == tail;
    } else {
      PartsTextOne(ModeParts(r.mode)[0], isPrint);
      DotBetween(ModeKeyword(r.mode), typeAndName);
    }
  }

  lemma UnderPathText(m: ModuleInstance, ps: Traversal, local: string, isPrint: char -> bool)
    requires PartsText(ps, isPrint) == "." + local
    ensures PartsText(PathParts(m) + ps, isPrint) == "." + UnderPath(m, local, isPrint)
  {
    if m == [] {
      assert PathParts(m) + ps == ps;
    } else {
      PartsTextConcat(PathParts(m), ps, isPrint);
      DottedPathText(m, isPrint);
      DotBetween(PathText(m, isPrint), local);
    }
  }

  /** The text of an address is the text of its parts, without the first dot. */
  lemma AddrTextIsPartsText(x: Moveable, isPrint: char -> bool)
    requires x != ModuleInst([])
    ensures PartsText(Parts(x), isPrint) == "." + AddrText(x, isPrint)
  {
    match x {
      case ModuleInst(m) =>
        DottedPathText(m, isPrint);
      case ModuleCall(m, c) =>
        StepPartsText(Step(c, NoKey), isPrint);
        assert "module." + c + "" == "module." + c;
        UnderPathText(m, StepParts(Step(c, NoKey)), "module." + c, isPrint);
      case AbsResource(m, r) =>
        ResourcePartsText(r, isPrint);
        UnderPathText(m, ResourceParts(r), ResourceText(r), isPrint);
      case AbsResourceInstance(m, r, k) =>
        ResourcePartsText(r, isPrint);
        KeyPartsText(k, isPrint);
        PartsTextConcat(ResourceParts(r), KeyParts(k), isPrint);
        Associative(".", ResourceText(r), KeyText(k, isPrint));
        UnderPathText(m, ResourceParts(r) + KeyParts(k), ResourceText(r) + KeyText(k, isPrint), isPrint);
    }
  }

  lemma ReadableConcat(a: Traversal, b: Traversal, reader: Reader)
    ensures PartsReadable(a + b, reader) <==> PartsReadable(a, reader) && PartsReadable(b, reader)
  {
    assert forall i :: 0 <= i < |a| ==> a[i] == (a + b)[i];
    assert forall i :: 0 <= i < |b| ==> b[i] == (a + b)[|a| + i];
  }

  lemma KeyPartsReadable(k: InstanceKey, reader: Reader)
    ensures PartsReadable(KeyParts(k), reader) <==> KeyReadable(k, reader)
  {
    if k != NoKey {
      assert PartsReadable(KeyParts(k), reader) <==> PartReadable(KeyParts(k)[0], reader);
    }
  }

  lemma NamesReadable(a: string, b: string, reader: Reader)
    ensures PartsReadable([Attr(a), Attr(b)], reader) <==> NameReadable(a, reader) && NameReadable(b, reader)
  {
    var ps := [Attr(a), Attr(b)];
    assert ps[0] == Attr(a) && ps[1] == Attr(b);
  }

  lemma StepPartsReadable(s: Step, reader: Reader)
    requires NameReadable("module", reader)
    ensures PartsReadable(StepParts(s), reader) <==> StepReadable(s, reader)
  {
    NamesReadable("module", s.name, reader);
    KeyPartsReadable(s.key, reader);
    ReadableConcat([Attr("module"), Attr(s.name)], KeyParts(s.key), reader);
  }

  lemma {:induction false} PathPartsReadable(m: ModuleInstance, reader: Reader)
    requires NameReadable("module", reader)
    ensures PartsReadable(PathParts(m), reader) <==> PathReadable(m, reader)
  {
    if m != [] {
      PathPartsReadable(m[1..], reader);
      StepPartsReadable(m[0], reader);
      ReadableConcat(StepParts(m[0]), PathParts(m[1..]), reader);
      assert PathReadable(m, reader) <==> StepReadable(m[0], reader) && PathReadable(m[1..], reader);
    }
  }

  lemma ResourcePartsReadable(r: Resource, reader: Reader)
    requires !r.mode.Managed? ==> NameReadable(ModeKeyword(r.mode), reader)
    ensures PartsReadable(ResourceParts(r), reader)
       <==> NameReadable(r.typeName, reader) && NameReadable(r.name, reader)
  {
    NamesReadable(r.typeName, r.name, reader);
    ReadableConcat(ModeParts(r.mode), [Attr(r.typeName), Attr(r.name)], reader);
  }

  /** The reader accepts the parts of an address exactly if it accepts its names
      and keys. */
  lemma AddressPartsReadable(x: Moveable, reader: Reader)
    requires KeywordsReadable(x, reader)
    ensures PartsReadable(Parts(x), reader) <==> Readable(x, reader)
  {
    PathPartsReadable(x.path, reader);
    match x {
      case ModuleInst(_) =>
      case ModuleCall(m, c) =>
        StepPartsReadable(Step(c, NoKey), reader);
        ReadableConcat(PathParts(m), StepParts(Step(c, NoKey)), reader);
      case AbsResource(m, r) =>
        ResourcePartsReadable(r, reader);
        ReadableConcat(PathParts(m), ResourceParts(r), reader);
      case AbsResourceInstance(m, r, k) =>
        ResourcePartsReadable(r, reader);
        KeyPartsReadable(k, reader);
        ReadableConcat(ResourceParts(r), KeyParts(k), reader);
        ReadableConcat(PathParts(m), ResourceParts(r) + KeyParts(k), reader);
    }
  }

  /** Reading the text of an address gives its parts. */
  lemma ReadPartsOfAddress(x: Moveable, reader: Reader, isPrint: char -> bool)
    requires Readable(x, reader) && KeywordsReadable(x, reader) && isPrint('{') && x != ModuleInst([])
    ensures ReadParts("." + AddrText(x, isPrint), reader) == Some(Parts(x))
  {
    AddrTextIsPartsText(x, isPrint);
    AddressPartsReadable(x, reader);
    ReadPartsOfText(Parts(x), reader, isPrint);
  }

  /** An address that was read is one whose names and keys the reader accepts. */
  lemma ReadAddressIsReadable(t: string, reader: Reader)
    requires ReadAddress(t, reader).Some? && Normalises(reader)
    ensures var x := ReadAddress(t, reader).value;
            KeywordsReadable(x, reader) ==> Readable(x, reader) && !ReservedType(x)
  {
    var dotted := "." + t;
    ReadPartsAreReadable(dotted, reader);
    var ps := ReadParts(dotted, reader).value;
    ParseIgnoresRooting(ps, false);
    ParsedUnrootedIsSpelling(ps, false);
    var x := ReadAddress(t, reader).value;
    if KeywordsReadable(x, reader) {
      AddressPartsReadable(x, reader);
    }
  }

  predicate KnowsKeywords(lex: Lexicon) {
    Identifier("module", lex) && Identifier("data", lex) && Identifier("ephemeral", lex)
  }

  lemma HclKeywords(x: Moveable, lex: Lexicon)
    requires Spellable(x, false) && KnowsKeywords(lex)
    ensures KeywordsReadable(x, Hcl(lex))
  {
  }

  lemma ReadableRoundTrip(x: Moveable, reader: Reader, isPrint: char -> bool)
    requires Spellable(x, false) && KeywordsReadable(x, reader) && Normalises(reader) && isPrint('{')
    ensures ReadAddress(AddrText(x, isPrint), reader) == Some(x) <==> !ReservedType(x) && Readable(x, reader)
  {
    if Readable(x, reader) {
      ReadPartsOfAddress(x, reader, isPrint);
      ParseSpelling(x, false);
    } else if ReadAddress(AddrText(x, isPrint), reader) == Some(x) {
      ReadAddressIsReadable(AddrText(x, isPrint), reader);
      assert false;
    }
  }

  /** The documented promise of `String`, that reading the text as an HCL traversal
      and parsing it as a target gives the address back: it is kept exactly if the
      type is not reserved, the names are identifiers, no integer key is negative and
      all string keys are in normal form. */
  lemma AddressTextRoundTrip(x: Moveable, lex: Lexicon, isPrint: char -> bool)
    requires Spellable(x, false) && KnowsKeywords(lex) && Normalises(Hcl(lex)) && isPrint('{')
    ensures ReadAddress(AddrText(x, isPrint), Hcl(lex)) == Some(x)
       <==> !ReservedType(x) && Readable(x, Hcl(lex))
  {
    HclKeywords(x, lex);
    ReadableRoundTrip(x, Hcl(lex), isPrint);
  }

  // ------------------------------------------------------ proofs: injectivity

  lemma PathPartsInjective(m: ModuleInstance, n: ModuleInstance)
    requires ActualPath(m) && ActualPath(n) && PathParts(m) == PathParts(n)
    ensures m == n
  {
    ParsePrefixOfPath(m, [], false);
    ParsePrefixOfPath(n, [], false);
    assert PathParts(m) + [] == PathParts(m) && PathParts(n) + [] == PathParts(n);
    assert m + [] == m && n + [] == n;
  }

  function CountNames(ps: Traversal): nat {
    if ps == [] then 0 else (if ps[0].Attr? then 1 else 0) + CountNames(ps[1..])
  }

  lemma {:induction false} CountNamesConcat(a: Traversal, b: Traversal)
    ensures CountNames(a + b) == CountNames(a) + CountNames(b)
  {
    if a == [] {
      assert a + b == b;
    } else {
      assert (a + b)[1..] == a[1..] + b;
      CountNamesConcat(a[1..], b);
    }
  }

  /** A module path always spells an even number of names. */
  lemma {:induction false} CountNamesOfPath(m: ModuleInstance)
    ensures CountNames(PathParts(m)) == 2 * |m|
  {
    if m != [] {
      CountNamesConcat(StepParts(m[0]), PathParts(m[1..]));
      CountNamesOfPath(m[1..]);
      CountNamesConcat([Attr("module"), Attr(m[0].name)], KeyParts(m[0].key));
      assert [Attr("module"), Attr(m[0].name)][1..] == [Attr(m[0].name)];
      if m[0].key != NoKey {
        assert KeyParts(m[0].key)[1..] == [];
      }
    }
  }

  lemma CountNamesOfModePath(m: ModuleInstance, a: ResourceMode)
    ensures CountNames(PathParts(m) + ModeParts(a)) == 2 * |m| + if a.Managed? then 0 else 1
  {
    CountNamesOfPath(m);
    CountNamesConcat(PathParts(m), ModeParts(a));
    assert CountNames(ModeParts(a)) == |ModeParts(a)|;
  }

  lemma SplitLast(a: Traversal, b: Traversal, p: Part, q: Part)
    requires a + [p] == b + [q]
    ensures a == b && p == q
  {
    assert |a| == |b|;
    assert a == (a + [p])[..|a|] && b == (b + [q])[..|b|];
    assert p == (a + [p])[|a|] && q == (b + [q])[|b|];
  }

  /** A path and a mode keyword determine each other: the parity of the names
      tells whether there is a keyword at all. */
  lemma ModePathInjective(m: ModuleInstance, n: ModuleInstance, a: ResourceMode, b: ResourceMode)
    requires ActualPath(m) && ActualPath(n)
    requires PathParts(m) + ModeParts(a) == PathParts(n) + ModeParts(b)
    ensures m == n && a == b
  {
    CountNamesOfModePath(m, a);
    CountNamesOfModePath(n, b);
    assert a.Managed? == b.Managed?;
    if a.Managed? {
      assert PathParts(m) + ModeParts(a) == PathParts(m) && PathParts(n) + ModeParts(b) == PathParts(n);
    } else {
      SplitLast(PathParts(m), PathParts(n), ModeParts(a)[0], ModeParts(b)[0]);
    }
    PathPartsInjective(m, n);
  }

  lemma ResourcePartsSplit(path: Traversal, r: Resource)
    ensures path + ResourceParts(r) == path + ModeParts(r.mode) + [Attr(r.typeName)] + [Attr(r.name)]
  {
  }

  lemma ResourcePartsInjective(m: ModuleInstance, n: ModuleInstance, r: Resource, q: Resource)
    requires ActualPath(m) && ActualPath(n)
    requires PathParts(m) + ResourceParts(r) == PathParts(n) + ResourceParts(q)
    ensures m == n && r == q
  {
    var a, b := PathParts(m) + ModeParts(r.mode), PathParts(n) + ModeParts(q.mode);
    ResourcePartsSplit(PathParts(m), r);
    ResourcePartsSplit(PathParts(n), q);
    SplitLast(a + [Attr(r.typeName)], b + [Attr(q.typeName)], Attr(r.name), Attr(q.name));
    SplitLast(a, b, Attr(r.typeName), Attr(q.typeName));
    ModePathInjective(m, n, r.mode, q.mode);
  }

  lemma InstancePartsInjective(x: Moveable, y: Moveable)
    requires x.AbsResourceInstance? && y.AbsResourceInstance? && Actual(x) && Actual(y)
    requires Parts(x) == Parts(y)
    ensures x == y
  {
    var a, b := PathParts(x.path) + ResourceParts(x.resource), PathParts(y.path) + ResourceParts(y.resource);
    assert Parts(x) == a + KeyParts(x.key) && Parts(y) == b + KeyParts(y.key);
    assert a[|a| - 1] == Attr(x.resource.name) && b[|b| - 1] == Attr(y.resource.name);
    if x.key.NoKey? || y.key.NoKey? {
      assert a + [] == a && b + [] == b;
      if !x.key.NoKey? {
        assert false;
      }
      if !y.key.NoKey? {
        assert false;
      }
    } else {
      SplitLast(a, b, KeyParts(x.key)[0], KeyParts(y.key)[0]);
    }
    ResourcePartsInjective(x.path, y.path, x.resource, y.resource);
  }

  lemma PartsInjective(x: Moveable, y: Moveable)
    requires Actual(x) && Actual(y) && SameType(x, y) && Parts(x) == Parts(y)
    ensures x == y
  {
    match x {
      case ModuleInst(m) =>
        PathPartsInjective(m, y.path);
      case ModuleCall(m, c) =>
        SplitLast(PathParts(m) + [Attr("module")], PathParts(y.path) + [Attr("module")], Attr(c), Attr(y.call)) by {
          assert Parts(x) == PathParts(m) + [Attr("module")] + [Attr(c)];
          assert Parts(y) == PathParts(y.path) + [Attr("module")] + [Attr(y.call)];
        }
        SplitLast(PathParts(m), PathParts(y.path), Attr("module"), Attr("module"));
        PathPartsInjective(m, y.path);
      case AbsResource(m, r) =>
        ResourcePartsInjective(m, y.path, r, y.resource);
      case AbsResourceInstance(_, _, _) =>
        InstancePartsInjective(x, y);
    }
  }

  lemma LenientReads(x: Moveable, isPrint: char -> bool)
    requires Printable(x) && isPrint('{') && x != ModuleInst([])
    ensures ReadParts("." + AddrText(x, isPrint), LENIENT) == Some(Parts(x))
  {
    assert Readable(x, LENIENT) && KeywordsReadable(x, LENIENT);
    ReadPartsOfAddress(x, LENIENT, isPrint);
  }

  /** Unique keys are texts: within one address type, equal texts mean equal
      addresses. No type name is reserved here. */
  lemma AddrTextInjective(x: Moveable, y: Moveable, isPrint: char -> bool)
    requires Printable(x) && Printable(y) && isPrint('{') && SameType(x, y)
    ensures AddrText(x, isPrint) == AddrText(y, isPrint) <==> x == y
  {
    if AddrText(x, isPrint) == AddrText(y, isPrint) {
      if x == ModuleInst([]) || y == ModuleInst([]) {
        assert AddrText(x, isPrint) == "";
      } else {
        LenientReads(x, isPrint);
        LenientReads(y, isPrint);
        PartsInjective(x, y);
      }
    }
  }
}
