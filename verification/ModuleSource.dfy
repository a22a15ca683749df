/** Module source addresses: the normal form of local paths, and the resolution
    of one source relative to another. Go's `path.Clean` is a stack of segments. */
module ModuleSource {
  import opened Options

  // ------------------------------------------------------------------- paths

  /** A path cut at its slashes; there is always at least one segment. */
  function Segments(p: string): (segs: seq<string>)
    ensures segs != []
  {
    if p == "" then [""] else Prepend(p[0], Segments(p[1..]))
  }

  function Prepend(c: char, segs: seq<string>): (r: seq<string>)
    requires segs != []
    ensures r != []
  {
    if c == '/' then [""] + segs else [[c] + segs[0]] + segs[1..]
  }

  function Join(segs: seq<string>): string {
    if segs == [] then ""
    else if |segs| == 1 then segs[0]
    else segs[0] + "/" + Join(segs[1..])
  }

  function Push(stack: seq<string>, seg: string, rooted: bool): seq<string> {
    if seg == "" || seg == "." then stack
    else if seg != ".." then stack + [seg]
    else if stack != [] && stack[|stack| - 1] != ".." then stack[..|stack| - 1]
    else if rooted then stack
    else stack + [".."]
  }

  function PushAll(stack: seq<string>, segs: seq<string>, rooted: bool): seq<string> {
    if segs == [] then stack
    else Push(PushAll(stack, segs[..|segs| - 1], rooted), segs[|segs| - 1], rooted)
  }

  predicate IsRooted(p: string) {
    p != "" && p[0] == '/'
  }

  function Render(stack: seq<string>): string {
    if stack == [] then "." else Join(stack)
  }

  function Clean(p: string): string {
    var stack := PushAll([], Segments(p), IsRooted(p));
    if IsRooted(p) then "/" + Join(stack) else Render(stack)
  }

  /** `path.Join` of two elements, which skips empty ones. */
  function JoinPath(a: string, b: string): string {
    if a == "" && b == "" then ""
    else if a == "" then Clean(b)
    else if b == "" then Clean(a)
    else Clean(a + "/" + b)
  }

  /** `fs.ValidPath` on text that is valid UTF-8. */
  predicate ValidPath(p: string) {
    p == "." || ValidSegments(Segments(p))
  }

  predicate ValidSegments(segs: seq<string>) {
    forall i :: 0 <= i < |segs| ==> ValidSegment(segs[i])
  }

  predicate ValidSegment(seg: string) {
    seg != "" && seg != "." && seg != ".."
  }

  // ----------------------------------------------------------------- sources

  datatype Source =
    | Local(path: string)
    | Registry(package: string, subdir: string)
    | Remote(package: string, subdir: string)

  predicate IsLocal(raw: string) {
    "./" <= raw || "../" <= raw || ".\\" <= raw || "..\\" <= raw
  }

  function Slashes(raw: string): (r: string)
    ensures |r| == |raw|
    ensures forall i :: 0 <= i < |r| ==> r[i] == (if raw[i] == '\\' then '/' else raw[i])
  {
    if raw == "" then "" else [if raw[0] == '\\' then '/' else raw[0]] + Slashes(raw[1..])
  }

  function ParseLocal(raw: string): string {
    var clean := Clean(Slashes(raw));
    if "../" <= clean then clean else "./" + clean
  }

  function LocalForm(clean: string): string {
    if IsLocal(clean) then clean else "./" + clean
  }

  function JoinSubPath(sub: string, rel: string): Option<string> {
    var joined := JoinPath(sub, rel);
    if joined == "." then Some("")
    else if !ValidPath(joined) then None
    else Some(joined)
  }

  function Resolve(a: Source, b: Source): Option<Source> {
    if !b.Local? then Some(b)
    else match a
      case Local(p) => Some(Local(LocalForm(JoinPath(p, b.path))))
      case Registry(package, sub) =>
        var s := JoinSubPath(sub, b.path);
        if s.None? then None else Some(Registry(package, s.value))
      case Remote(package, sub) =>
        var s := JoinSubPath(sub, b.path);
        if s.None? then None else Some(Remote(package, s.value))
  }

  predicate ValidSource(s: Source) {
    s.Local? ==> IsLocal(s.path)
  }

  function ResolveThen(a: Option<Source>, b: Source): Option<Source> {
    if a.None? then None else Resolve(a.value, b)
  }

  function ResolveAgainst(a: Source, b: Option<Source>): Option<Source> {
    if b.None? then None else Resolve(a, b.value)
  }

  // --------------------------------------------------- proofs: cutting and joining

  predicate NoSlash(seg: string) {
    forall i :: 0 <= i < |seg| ==> seg[i] != '/'
  }

  predicate NoSlashes(segs: seq<string>) {
    forall i :: 0 <= i < |segs| ==> NoSlash(segs[i])
  }

  lemma {:induction false} SegmentsHaveNoSlash(p: string)
    ensures NoSlashes(Segments(p))
  {
    if p != "" {
      SegmentsHaveNoSlash(p[1..]);
      var rest := Segments(p[1..]);
      assert NoSlash(rest[0]);
    }
  }

  lemma {:induction false} SegmentsOfOne(seg: string)
    requires NoSlash(seg)
    ensures Segments(seg) == [seg]
  {
    if seg != "" {
      SegmentsOfOne(seg[1..]);
      assert seg == [seg[0]] + seg[1..];
    }
  }

  lemma PrependConcat(c: char, x: seq<string>, y: seq<string>)
    requires x != []
    ensures Prepend(c, x + y) == Prepend(c, x) + y
  {
  }

  lemma {:induction false} SegmentsOfTwo(a: string, b: string)
    ensures Segments(a + "/" + b) == Segments(a) + Segments(b)
  {
    var t := a + "/" + b;
    if a == "" {
      assert t[0] == '/' && t[1..] == b;
    } else {
      SegmentsOfTwo(a[1..], b);
      assert t[0] == a[0] && t[1..] == a[1..] + "/" + b;
      PrependConcat(a[0], Segments(a[1..]), Segments(b));
    }
  }

  lemma {:induction false} SegmentsOfJoin(segs: seq<string>)
    requires NoSlashes(segs) && segs != []
    ensures Segments(Join(segs)) == segs
  {
    SegmentsOfOne(segs[0]);
    if |segs| > 1 {
      SegmentsOfTwo(segs[0], Join(segs[1..]));
      SegmentsOfJoin(segs[1..]);
      assert segs == [segs[0]] + segs[1..];
    } else {
      assert segs == [segs[0]];
    }
  }

  // ------------------------------------------------------- proofs: the stack

  function Norm(segs: seq<string>): seq<string> {
    PushAll([], segs, false)
  }

  lemma {:induction false} PushAllConcat(stack: seq<string>, a: seq<string>, b: seq<string>, rooted: bool)
    ensures PushAll(stack, a + b, rooted) == PushAll(PushAll(stack, a, rooted), b, rooted)
  {
    if b == [] {
      assert a + b == a;
    } else {
      var init := b[..|b| - 1];
      PushAllConcat(stack, a, init, rooted);
      assert (a + b)[..|a + b| - 1] == a + init;
    }
  }

  lemma PushAllOne(stack: seq<string>, seg: string, rooted: bool)
    ensures PushAll(stack, [seg], rooted) == Push(stack, seg, rooted)
  {
  }

  /** A normalised stack: no empty or `.` segment, and `..` only at the front. */
  predicate Normal(stack: seq<string>) {
    && NoSlashes(stack)
    && (forall i :: 0 <= i < |stack| ==> stack[i] != "" && stack[i] != ".")
    && (forall i :: 0 < i < |stack| ==> stack[i] == ".." ==> stack[i - 1] == "..")
  }

  lemma {:induction false} NormIsNormal(segs: seq<string>)
    requires NoSlashes(segs)
    ensures Normal(Norm(segs))
  {
    if segs != [] {
      NormIsNormal(segs[..|segs| - 1]);
    }
  }

  lemma {:induction false} NormOfNormal(n: seq<string>)
    requires Normal(n)
    ensures Norm(n) == n
  {
    if n != [] {
      var init := n[..|n| - 1];
      NormOfNormal(init);
      assert n == init + [n[|n| - 1]];
      if |n| > 1 && n[|n| - 1] == ".." {
        assert n[|n| - 2] == "..";
      }
    }
  }

  /** Pushing what is left after one more segment is pushing that segment last. */
  lemma PushAllOfPush(stack: seq<string>, n: seq<string>, seg: string)
    requires Normal(n)
    ensures PushAll(stack, Push(n, seg, false), false) == Push(PushAll(stack, n, false), seg, false)
  {
  }

  /** Normalising a path first does not change where it leads from any stack. */
  lemma {:induction false} PushAllOfNorm(stack: seq<string>, segs: seq<string>)
    requires NoSlashes(segs)
    ensures PushAll(stack, Norm(segs), false) == PushAll(stack, segs, false)
  {
    if segs != [] {
      var init := segs[..|segs| - 1];
      PushAllOfNorm(stack, init);
      NormIsNormal(init);
      PushAllOfPush(stack, Norm(init), segs[|segs| - 1]);
    }
  }

  /** The halves of a path may be normalised before they are put together. */
  lemma NormAppend(a: seq<string>, b: seq<string>)
    requires NoSlashes(b)
    ensures Norm(a + b) == PushAll(Norm(a), Norm(b), false)
  {
    PushAllConcat([], a, b, false);
    PushAllOfNorm(Norm(a), b);
  }

  lemma NormCongruent(a: seq<string>, a': seq<string>, b: seq<string>, b': seq<string>)
    requires NoSlashes(b) && NoSlashes(b')
    requires Norm(a) == Norm(a') && Norm(b) == Norm(b')
    ensures Norm(a + b) == Norm(a' + b')
  {
    NormAppend(a, b);
    NormAppend(a', b');
  }

  /** Once a path has left its root it never comes back. */
  lemma {:induction false} EscapeIsForGood(stack: seq<string>, segs: seq<string>)
    requires stack != [] && stack[0] == ".."
    ensures var r := PushAll(stack, segs, false); r != [] && r[0] == ".."
  {
    if segs != [] {
      EscapeIsForGood(stack, segs[..|segs| - 1]);
    }
  }

  // ------------------------------------------------- proofs: paths as stacks

  /** Where an unrooted path leads, as a normal stack. */
  function Stack(p: string): seq<string> {
    Norm(Segments(p))
  }

  lemma StackOfRender(stack: seq<string>)
    requires Normal(stack)
    ensures Stack(Render(stack)) == stack && !IsRooted(Render(stack)) && Render(stack) != ""
  {
    if stack == [] {
      SegmentsOfOne(".");
      PushAllOne([], ".", false);
    } else {
      SegmentsOfJoin(stack);
      NormOfNormal(stack);
      if IsRooted(Join(stack)) || Join(stack) == "" {
        assert false;
      }
    }
  }

  lemma JoinPathIsStack(a: string, b: string)
    requires !IsRooted(a) && !IsRooted(b) && b != ""
    ensures JoinPath(a, b) == Render(Norm(Segments(a) + Segments(b)))
    ensures Normal(Norm(Segments(a) + Segments(b)))
  {
    SegmentsHaveNoSlash(a);
    SegmentsHaveNoSlash(b);
    NormIsNormal(Segments(a) + Segments(b));
    if a == "" {
      PushAllConcat([], [""], Segments(b), false);
      PushAllOne([], "", false);
    } else {
      SegmentsOfTwo(a, b);
      assert (a + "/" + b)[0] == a[0];
    }
  }

  lemma LocalIsUnrooted(p: string)
    requires IsLocal(p)
    ensures !IsRooted(p) && p != ""
  {
  }

  lemma StackOfLocalForm(clean: string)
    ensures Stack(LocalForm(clean)) == Stack(clean)
    ensures IsLocal(LocalForm(clean))
  {
    if !IsLocal(clean) {
      SegmentsOfTwo(".", clean);
      SegmentsOfOne(".");
      assert "./" + clean == "." + "/" + clean;
      PushAllConcat([], ["."], Segments(clean), false);
      PushAllOne([], ".", false);
    }
  }

  predicate Escapes(stack: seq<string>) {
    stack != [] && stack[0] == ".."
  }

  /** Joining inside a package, in terms of stacks. */
  lemma JoinSubPathIsStack(sub: string, rel: string)
    requires !IsRooted(sub) && !IsRooted(rel) && rel != ""
    ensures var stack := Norm(Segments(sub) + Segments(rel));
            && Normal(stack)
            && JoinSubPath(sub, rel) == if Escapes(stack) then None else Some(Join(stack))
  {
    var stack := Norm(Segments(sub) + Segments(rel));
    JoinPathIsStack(sub, rel);
    if stack == [] {
    } else {
      StackOfRender(stack);
      SegmentsOfJoin(stack);
      if Join(stack) == "." {
        SegmentsOfOne(".");
        assert false;
      }
      if Escapes(stack) {
        assert !ValidSegment(Segments(Join(stack))[0]);
      } else {
        NoUpsAfterName(stack);
      }
    }
  }

  lemma NoUpsAfterName(stack: seq<string>)
    requires Normal(stack) && !Escapes(stack)
    ensures ValidSegments(stack)
  {
    if exists i :: 0 <= i < |stack| && !ValidSegment(stack[i]) {
      var i :| 0 <= i < |stack| && !ValidSegment(stack[i]);
      var j := i;
      while j > 0
        invariant 0 <= j < |stack| && stack[j] == ".."
      {
        j := j - 1;
      }
    }
  }

  lemma JoinSubPathRooted(sub: string, rel: string)
    requires IsRooted(sub) && rel != ""
    ensures JoinSubPath(sub, rel) == None
  {
    var joined := JoinPath(sub, rel);
    assert (sub + "/" + rel)[0] == '/';
    assert IsRooted(joined);
    assert Segments(joined)[0] == "";
  }

  // ------------------------------------------------------------ main results

  lemma ResolveKeepsValid(a: Source, b: Source)
    requires ValidSource(a) && ValidSource(b) && Resolve(a, b).Some?
    ensures ValidSource(Resolve(a, b).value)
  {
  }

  /** Two paths joined one after the other. */
  lemma LocalChain(a: string, b: string, c: string)
    requires IsLocal(a) && IsLocal(b) && IsLocal(c)
    ensures var all := Norm(Segments(a) + Segments(b) + Segments(c));
            && LocalForm(JoinPath(LocalForm(JoinPath(a, b)), c)) == LocalForm(Render(all))
            && LocalForm(JoinPath(a, LocalForm(JoinPath(b, c)))) == LocalForm(Render(all))
  {
    StackOfJoined(a, b);
    StackOfJoined(b, c);
    var ab, bc := LocalForm(JoinPath(a, b)), LocalForm(JoinPath(b, c));
    LocalIsUnrooted(a);
    LocalIsUnrooted(c);
    LocalIsUnrooted(ab);
    LocalIsUnrooted(bc);
    JoinPathIsStack(ab, c);
    JoinPathIsStack(a, bc);
    NormChain(Segments(a), Segments(b), Segments(c), Segments(ab), Segments(bc));
  }

  lemma StackOfJoined(a: string, b: string)
    requires !IsRooted(a) && IsLocal(b)
    ensures Stack(LocalForm(JoinPath(a, b))) == Norm(Segments(a) + Segments(b))
    ensures IsLocal(LocalForm(JoinPath(a, b)))
    ensures NoSlashes(Segments(a)) && NoSlashes(Segments(b))
    ensures NoSlashes(Segments(LocalForm(JoinPath(a, b))))
  {
    LocalIsUnrooted(b);
    JoinPathIsStack(a, b);
    StackOfRender(Norm(Segments(a) + Segments(b)));
    StackOfLocalForm(JoinPath(a, b));
    SegmentsHaveNoSlash(a);
    SegmentsHaveNoSlash(b);
    SegmentsHaveNoSlash(LocalForm(JoinPath(a, b)));
  }

  /** The segments of two joined paths stand for the joined segments. */
  lemma NormChain(a: seq<string>, b: seq<string>, c: seq<string>, ab: seq<string>, bc: seq<string>)
    requires NoSlashes(a) && NoSlashes(b) && NoSlashes(c) && NoSlashes(ab) && NoSlashes(bc)
    requires Norm(ab) == Norm(a + b) && Norm(bc) == Norm(b + c)
    ensures Norm(ab + c) == Norm(a + b + c) == Norm(a + bc)
  {
    NormCongruent(ab, a + b, c, c);
    NormCongruent(a, a, bc, b + c);
    assert a + b + c == a + (b + c);
  }

  /** Joining twice inside a package, or joining the joined paths. */
  lemma SubPathChain(sub: string, b: string, c: string)
    requires IsLocal(b) && IsLocal(c)
    ensures var bc := LocalForm(JoinPath(b, c));
            var first := JoinSubPath(sub, b);
            (if first.None? then None else JoinSubPath(first.value, c)) == JoinSubPath(sub, bc)
  {
    var bc := LocalForm(JoinPath(b, c));
    LocalIsUnrooted(b);
    LocalIsUnrooted(c);
    StackOfJoined(b, c);
    LocalIsUnrooted(bc);
    if IsRooted(sub) {
      JoinSubPathRooted(sub, b);
      JoinSubPathRooted(sub, bc);
    } else {
      SegmentsHaveNoSlash(sub);
      JoinSubPathIsStack(sub, b);
      JoinSubPathIsStack(sub, bc);
      var inner := Norm(Segments(sub) + Segments(b));
      NormChain(Segments(sub), Segments(b), Segments(c), inner, Segments(bc)) by {
        NormOfNormal(inner);
      }
      if Escapes(inner) {
        PushAllConcat([], Segments(sub) + Segments(b), Segments(c), false);
        EscapeIsForGood(inner, Segments(c));
      } else {
        SubPathContinues(inner, c);
      }
    }
  }

  lemma SubPathContinues(inner: seq<string>, c: string)
    requires Normal(inner) && !Escapes(inner) && IsLocal(c)
    ensures JoinSubPath(Join(inner), c)
         == var stack := Norm(inner + Segments(c)); if Escapes(stack) then None else Some(Join(stack))
  {
    LocalIsUnrooted(c);
    if inner == [] {
      JoinSubPathIsStack("", c);
      SegmentsHaveNoSlash(c);
      PushAllConcat([], [""], Segments(c), false);
      PushAllOne([], "", false);
      assert [] + Segments(c) == Segments(c);
    } else {
      StackOfRender(inner);
      SegmentsOfJoin(inner);
      JoinSubPathIsStack(Join(inner), c);
    }
  }

  /** Resolution keeps the kind and the package of the first source when the second is
      local, and takes the second as it is when that is absolute. Between local sources
      the result leads where the two lead one after the other. */
  lemma ResolveKeepsPackage(a: Source, b: Source)
    requires ValidSource(a) && ValidSource(b) && Resolve(a, b).Some?
    ensures var r := Resolve(a, b).value;
            if !b.Local? then r == b
            else match a
              case Local(p) => r.Local? && Stack(r.path) == Norm(Segments(p) + Segments(b.path))
              case Registry(package, _) => r.Registry? && r.package == package
              case Remote(package, _) => r.Remote? && r.package == package
  {
    if a.Local? && b.Local? {
      LocalIsUnrooted(a.path);
      StackOfJoined(a.path, b.path);
    }
  }

  /** A text is a local source exactly if its first segment, with either slash, is `.`
      or `..` and is not the last. */
  lemma IsLocalIff(raw: string)
    ensures IsLocal(raw) <==>
              var segs := Segments(Slashes(raw)); |segs| > 1 && (segs[0] == "." || segs[0] == "..")
  {
    var p := Slashes(raw);
    FirstSegmentIff(p, ".");
    FirstSegmentIff(p, "..");
    assert IsLocal(raw) <==> ("." + "/") <= p || (".." + "/") <= p;
  }

  lemma {:induction false} FirstSegmentIff(p: string, seg: string)
    requires NoSlash(seg)
    ensures |Segments(p)| > 1 && Segments(p)[0] == seg <==> seg + "/" <= p
  {
    if p != "" {
      if p[0] == '/' {
        assert seg == "" ==> seg + "/" == "/";
      } else if seg != "" {
        FirstSegmentIff(p[1..], seg[1..]);
        assert seg + "/" == [seg[0]] + (seg[1..] + "/");
        assert p == [p[0]] + p[1..];
        assert Segments(p)[0] == [p[0]] + Segments(p[1..])[0];
      }
    }
  }

  /** How many `..` a normal stack starts with. */
  function Ups(stack: seq<string>): (u: nat)
    ensures u <= |stack|
  {
    if !Escapes(stack) then 0 else 1 + Ups(stack[1..])
  }

  lemma {:induction false} UpsThenNames(stack: seq<string>)
    requires Normal(stack)
    ensures forall i :: 0 <= i < Ups(stack) ==> stack[i] == ".."
    ensures forall i :: Ups(stack) <= i < |stack| ==> ValidSegment(stack[i])
  {
    if Escapes(stack) {
      UpsThenNames(stack[1..]);
    } else {
      NoUpsAfterName(stack);
    }
  }

  lemma {:induction false} PushNames(stack: seq<string>, names: seq<string>)
    requires ValidSegments(names)
    ensures PushAll(stack, names, false) == stack + names
  {
    if names != [] {
      PushNames(stack, names[..|names| - 1]);
      assert names == names[..|names| - 1] + [names[|names| - 1]];
    }
  }

  lemma {:induction false} PushUps(stack: seq<string>, ups: seq<string>)
    requires Normal(stack) && !Escapes(stack)
    requires forall i :: 0 <= i < |ups| ==> ups[i] == ".."
    ensures |ups| <= |stack| ==> PushAll(stack, ups, false) == stack[..|stack| - |ups|]
    ensures |ups| > |stack| ==> Escapes(PushAll(stack, ups, false))
  {
    if ups != [] {
      PushUps(stack, ups[..|ups| - 1]);
      NoUpsAfterName(stack);
    }
  }

  /** The path leads out of a package when followed from the subdirectory. */
  predicate LeavesPackage(sub: string, rel: string) {
    IsRooted(sub) || Escapes(Stack(sub)) || Ups(Stack(rel)) > |Stack(sub)|
  }

  /** Inside a package, a local path resolves exactly when it climbs no higher
      than the package root, and it leads where its segments say. The result
      never holds a `.` or `..` segment. */
  lemma ResolveInsidePackage(sub: string, rel: string)
    requires IsLocal(rel)
    ensures JoinSubPath(sub, rel).None? <==> LeavesPackage(sub, rel)
    ensures !LeavesPackage(sub, rel) ==>
              var base, path := Stack(sub), Stack(rel);
              var stack := base[..|base| - Ups(path)] + path[Ups(path)..];
              JoinSubPath(sub, rel) == Some(Join(stack)) && ValidSegments(stack)
  {
    LocalIsUnrooted(rel);
    if IsRooted(sub) {
      JoinSubPathRooted(sub, rel);
    } else {
      JoinFollowsPath(sub, rel);
      var base, path := Stack(sub), Stack(rel);
      if Escapes(base) {
        EscapeIsForGood(base, path);
      } else {
        FollowPath(base, path);
      }
    }
  }

  lemma JoinFollowsPath(sub: string, rel: string)
    requires !IsRooted(sub) && IsLocal(rel)
    ensures var stack := PushAll(Stack(sub), Stack(rel), false);
            && Normal(Stack(sub)) && Normal(Stack(rel))
            && JoinSubPath(sub, rel) == if Escapes(stack) then None else Some(Join(stack))
  {
    LocalIsUnrooted(rel);
    SegmentsHaveNoSlash(sub);
    SegmentsHaveNoSlash(rel);
    NormIsNormal(Segments(sub));
    NormIsNormal(Segments(rel));
    JoinSubPathIsStack(sub, rel);
    PushAllConcat([], Segments(sub), Segments(rel), false);
    PushAllOfNorm(Stack(sub), Segments(rel));
  }

  /** Exactly when a source does not resolve. */
  predicate Unresolvable(a: Source, b: Source) {
    b.Local? && !a.Local? && LeavesPackage(a.subdir, b.path)
  }

  lemma ResolveFailsIff(a: Source, b: Source)
    requires ValidSource(b)
    ensures Resolve(a, b).None? <==> Unresolvable(a, b)
  {
    if b.Local? && !a.Local? {
      ResolveInsidePackage(a.subdir, b.path);
    }
  }

  /** Resolution is associative, failures included, exactly when the last source
      is local or the second does not lead out of the package of the first. An
      absolute last source hides the failure of the first two. */
  lemma ResolveAssociative(a: Source, b: Source, c: Source)
    requires ValidSource(a) && ValidSource(b) && ValidSource(c)
    ensures ResolveThen(Resolve(a, b), c) == ResolveAgainst(a, Resolve(b, c))
       <==> c.Local? || !Unresolvable(a, b)
  {
    ResolveFailsIff(a, b);
    if c.Local? && b.Local? {
      match a {
        case Local(p) => LocalChain(p, b.path, c.path);
        case Registry(_, sub) => SubPathChain(sub, b.path, c.path);
        case Remote(_, sub) => SubPathChain(sub, b.path, c.path);
      }
    }
  }

  /** Following a normal path from a stack that holds names only. */
  lemma FollowPath(base: seq<string>, path: seq<string>)
    requires Normal(base) && !Escapes(base) && Normal(path)
    ensures var u, r := Ups(path), PushAll(base, path, false);
            if u <= |base|
            then r == base[..|base| - u] + path[u..] && ValidSegments(r)
            else Escapes(r)
  {
    var u := Ups(path);
    UpsThenNames(path);
    FollowUpsAndNames(base, path[..u], path[u..]);
    assert path == path[..u] + path[u..];
  }

  lemma FollowUpsAndNames(base: seq<string>, ups: seq<string>, names: seq<string>)
    requires Normal(base) && !Escapes(base) && ValidSegments(names)
    requires forall i :: 0 <= i < |ups| ==> ups[i] == ".."
    ensures var u, r := |ups|, PushAll(base, ups + names, false);
            if u <= |base|
            then r == base[..|base| - u] + names && ValidSegments(r)
            else Escapes(r)
  {
    PushAllConcat(base, ups, names, false);
    PushUps(base, ups);
    if |ups| <= |base| {
      NoUpsAfterName(base);
      PushNames(base[..|base| - |ups|], names);
    } else {
      EscapeIsForGood(PushAll(base, ups, false), names);
    }
  }

  // ------------------------------------------------------------ local sources

  lemma {:induction false} SegmentsAvoid(p: string, c: char)
    requires forall i :: 0 <= i < |p| ==> p[i] != c
    ensures forall s :: s in Segments(p) ==> c !in s
  {
    if p != "" {
      SegmentsAvoid(p[1..], c);
      assert Segments(p[1..])[0] in Segments(p[1..]);
    }
  }

  lemma {:induction false} PushAllIsFrom(stack: seq<string>, segs: seq<string>)
    ensures forall s :: s in PushAll(stack, segs, false) ==> s in stack || s in segs
  {
    if segs != [] {
      PushAllIsFrom(stack, segs[..|segs| - 1]);
    }
  }

  /** A path with no backslash has, once cleaned, only the `../` local prefix. */
  lemma CleanHasOnePrefix(stack: seq<string>)
    requires Normal(stack) && forall s :: s in stack ==> '\\' !in s
    ensures IsLocal(Render(stack)) <==> "../" <= Render(stack)
  {
    var p := Render(stack);
    if stack != [] {
      SegmentsOfJoin(stack);
      JoinAvoids(stack);
    }
    if "./" <= p {
      DotSlashSegment(p);
      assert false;
    }
  }

  lemma DotSlashSegment(p: string)
    requires "./" <= p
    ensures Segments(p)[0] == "."
  {
  }

  lemma {:induction false} JoinAvoids(stack: seq<string>)
    requires forall s :: s in stack ==> '\\' !in s
    ensures '\\' !in Join(stack)
  {
    if |stack| > 1 {
      JoinAvoids(stack[1..]);
    }
  }

  lemma ParseLocalIsStack(raw: string)
    requires IsLocal(raw)
    ensures ParseLocal(raw) == LocalForm(Render(Stack(Slashes(raw))))
    ensures Stack(ParseLocal(raw)) == Stack(Slashes(raw))
    ensures IsLocal(ParseLocal(raw))
  {
    var p := Slashes(raw);
    assert !IsRooted(p) && '\\' !in p;
    SegmentsHaveNoSlash(p);
    NormIsNormal(Segments(p));
    SegmentsAvoid(p, '\\');
    PushAllIsFrom([], Segments(p));
    CleanHasOnePrefix(Stack(p));
    StackOfRender(Stack(p));
    StackOfLocalForm(Render(Stack(p)));
  }

  /** Resolving two parsed local sources is parsing their concatenation, so the
      result is again in the parser's normal form. */
  lemma ResolveIsParseOfConcatenation(a: string, b: string)
    requires IsLocal(a) && IsLocal(b)
    ensures Resolve(Local(ParseLocal(a)), Local(ParseLocal(b))) == Some(Local(ParseLocal(a + "/" + b)))
  {
    ParseLocalIsStack(a);
    ParseLocalIsStack(b);
    LocalExtends(a, b);
    ParseLocalIsStack(a + "/" + b);
    SlashesConcat(a, b);
    JoinedStack(ParseLocal(a), ParseLocal(b), Slashes(a), Slashes(b));
  }

  lemma SlashesConcat(a: string, b: string)
    ensures Slashes(a + "/" + b) == Slashes(a) + "/" + Slashes(b)
  {
  }

  /** Joining two local paths depends only on where they lead. */
  lemma JoinedStack(p: string, q: string, a: string, b: string)
    requires IsLocal(p) && IsLocal(q) && Stack(p) == Stack(a) && Stack(q) == Stack(b)
    ensures JoinPath(p, q) == Render(Stack(a + "/" + b))
  {
    LocalIsUnrooted(p);
    LocalIsUnrooted(q);
    JoinPathIsStack(p, q);
    SegmentsOfTwo(a, b);
    SegmentsHaveNoSlash(p);
    SegmentsHaveNoSlash(q);
    SegmentsHaveNoSlash(a);
    SegmentsHaveNoSlash(b);
    NormCongruent(Segments(p), Segments(a), Segments(q), Segments(b));
  }

  lemma LocalExtends(a: string, b: string)
    requires IsLocal(a)
    ensures IsLocal(a + "/" + b)
  {
  }
}
