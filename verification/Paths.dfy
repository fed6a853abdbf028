/** Path strings: splitting, lexical resolution, the parent string, and the walk the code makes
    with its stack of parents (homework.c:140-293, 436-443). */
module Paths {
  import opened Words
  import opened Format
  import opened Image

  const SLASH: byte := 47
  const MAX_PATH_LEN: nat := 10

  // ---- splitting ----

  /** The length of the leading run without a slash. */
  function Run(s: Str): (n: nat)
    ensures n <= |s| && 47 !in s[..n] && (n < |s| ==> s[n] == 47)
  { if s == [] || s[0] == 47 then 0 else 1 + Run(s[1..]) }

  /** All tokens of strtok(path, "/"): the maximal runs of bytes other than a slash. */
  function Split(s: Str): (r: seq<Str>)
    decreases |s|
  {
    if s == [] then []
    else if s[0] == 47 then Split(s[1..])
    else [s[..Run(s)]] + Split(s[Run(s)..])
  }

  predicate Token(n: Str) { n != [] && 47 !in n }

  /** Components without slashes joined with a slash between them. */
  function Join(names: seq<Str>): Str {
    if names == [] then [] else if |names| == 1 then names[0] else names[0] + [47] + Join(names[1..])
  }

  /** The string the code builds for the parent: "/" and the joined components but the last. */
  function ParentString(r: seq<Str>): Str
    requires r != []
  { [47] + Join(Front(r)) }

  lemma RunOf(n: Str, t: Str)
    requires Token(n) && (t == [] || t[0] == 47)
    ensures Run(n + t) == |n| && (n + t)[..|n|] == n && (n + t)[|n|..] == t
  {
    var s := n + t;
    var m := Run(s);
    forall k | 0 <= k < m ensures s[k] != 47 { assert s[..m][k] == s[k]; }
    forall k | 0 <= k < |n| ensures s[k] != 47 { assert s[k] == n[k]; }
    assert s[..|n|] == n && s[|n|..] == t;
  }

  lemma {:induction false} SplitJoin(names: seq<Str>)
    requires forall n :: n in names ==> Token(n)
    ensures Split(Join(names)) == names
  {
    if names == [] {
    } else if |names| == 1 {
      RunOf(names[0], []);
      assert names[0] + [] == names[0];
      assert Split(names[0]) == [names[0]];
    } else {
      var t := [47] + Join(names[1..]);
      RunOf(names[0], t);
      assert names[0] + [47] + Join(names[1..]) == names[0] + t;
      SplitJoin(names[1..]);
      assert t[1..] == Join(names[1..]);
    }
  }

  /** The parent string parses back to the components without the last. */
  lemma ParentRoundTrip(r: seq<Str>)
    requires r != [] && forall n :: n in r ==> Token(n)
    ensures Split(ParentString(r)) == Front(r)
  {
    assert ParentString(r)[1..] == Join(Front(r));
    SplitJoin(Front(r));
  }

  lemma {:induction false} JoinLength(names: seq<Str>, m: nat)
    requires forall n :: n in names ==> |n| <= m
    ensures |Join(names)| <= if names == [] then 0 else |names| * (m + 1) - 1
  {
    if |names| > 1 {
      JoinLength(names[1..], m);
      assert (|names| - 1) * (m + 1) == |names| * (m + 1) - (m + 1);
    }
  }

  /** For ten names of at most 27 bytes the parent string fits char[256] with its NUL. */
  lemma ParentFits(r: seq<Str>)
    requires 1 <= |r| <= MAX_PATH_LEN && forall n :: n in r ==> |n| <= 27
    ensures |ParentString(r)| + 1 <= 256
  {
    JoinLength(Front(r), 27);
    assert |Front(r)| * 28 <= 9 * 28;
  }

  lemma {:induction false} SplitTokens(s: Str)
    ensures forall n :: n in Split(s) ==> Token(n)
    ensures 0 !in s ==> forall n :: n in Split(s) ==> 0 !in n
    decreases |s|
  {
    if s != [] {
      if s[0] == 47 {
        SplitTokens(s[1..]);
      } else {
        SplitTokens(s[Run(s)..]);
      }
    }
  }

  /** What pathparse hands out: the first ten tokens. */
  function Components(s: Str): seq<Str> {
    var t := Split(s);
    if |t| <= MAX_PATH_LEN then t else t[..MAX_PATH_LEN]
  }

  /** Splitting at any slash of a string and splitting the two parts comes to the same, wherever the slash is and
      however many stand together. */
  lemma {:induction false} SplitConcat(s: Str, t: Str)
    ensures Split(s + [47] + t) == Split(s) + Split(t)
    decreases |s|
  {
    var u := s + [47] + t;
    if s == [] {
      assert u[1..] == t;
    } else if s[0] == 47 {
      assert u[1..] == s[1..] + [47] + t;
      SplitConcat(s[1..], t);
    } else {
      var n, rest := s[..Run(s)], s[Run(s)..];
      RunOf(n, rest + [47] + t);
      assert u == n + (rest + [47] + t);
      SplitConcat(rest, t);
    }
  }

  /** Of more than ten components the first ten count, whatever follows. */
  lemma ComponentsCut(p: seq<Str>, q: seq<Str>)
    requires (forall n :: n in p ==> Token(n)) && forall n :: n in q ==> Token(n)
    ensures |p| == 10 ==> Components(Join(p + q)) == p && Components([47] + Join(p + q)) == p
    ensures |p| <= 10 ==> Components(Join(p)) == p && Components([47] + Join(p)) == p
  {
    SplitJoin(p + q);
    SplitJoin(p);
    assert ([47] + Join(p + q))[1..] == Join(p + q) && ([47] + Join(p))[1..] == Join(p);
    assert |p| == 10 ==> (p + q)[..10] == p;
    hide Join;
  }

  // ---- lexical resolution ----

  predicate Dot(n: Str) { n == [46] }
  predicate DotDot(n: Str) { n == [46, 46] }

  function Pop<T>(s: seq<T>): seq<T> { if s == [] then [] else Front(s) }

  function Resolve(c: seq<Str>): Path {
    if c == [] then []
    else if Dot(Last(c)) then Resolve(Front(c))
    else if DotDot(Last(c)) then Pop(Resolve(Front(c)))
    else Resolve(Front(c)) + [Last(c)]
  }

  predicate Plain(n: Str) { !Dot(n) && !DotDot(n) }

  /** A path without '.' and '..'. */
  predicate Canonical(c: seq<Str>) { forall j :: 0 <= j < |c| ==> Plain(c[j]) }

  lemma {:induction false} ResolvedNames(c: seq<Str>)
    ensures |Resolve(c)| <= |c| && Canonical(Resolve(c))
    ensures forall n :: n in Resolve(c) ==> n in c
  {
    if c != [] {
      var f := Resolve(Front(c));
      ResolvedNames(Front(c));
      hide Dot, DotDot;
      assert forall n :: n in Front(c) ==> n in c;
      assert f != [] ==> forall n :: n in Front(f) ==> n in f;
      assert Resolve(c) == f || Resolve(c) == Pop(f) || (Plain(Last(c)) && Resolve(c) == f + [Last(c)]);
    }
  }

  lemma {:induction false} ResolveCanonical(c: seq<Str>)
    requires Canonical(c)
    ensures Resolve(c) == c
  {
    hide Dot, DotDot;
    if c != [] {
      ResolveCanonical(Front(c));
      assert Plain(Last(c));
      FrontLast(c);
    }
  }

  // ---- the walk of translate ----

  /** translate's loop state: current_inum and parent_stack[1..stack_pos]; parent_stack[0] is always the root. */
  datatype Cursor = On(inum: nat, stack: seq<nat>) | Stop(code: int)

  function Advance(d: Disk, s: Cursor, n: Str): Cursor
    requires s.On?
  {
    if Dot(n) then s
    else if DotDot(n) then
      if s.stack == [] then s
      else On(if |s.stack| == 1 then ROOT else s.stack[|s.stack| - 2], Front(s.stack))
    else match Step(d, s.inum, n)
      case Fail(e) => Stop(e)
      case Ok(i) => On(i, s.stack + [s.inum])
  }

  function Trace(d: Disk, c: seq<Str>): Cursor {
    if c == [] then On(ROOT, [])
    else
      var s := Trace(d, Front(c));
      if s.Stop? then s else Advance(d, s, Last(c))
  }

  function Translate(d: Disk, c: seq<Str>): Found {
    match Trace(d, c)
    case Stop(e) => Fail(e)
    case On(i, _) => Ok(i)
  }

  /** Without dots translate is the plain walk, with the same error codes. */
  lemma {:induction false} TranslateIsWalk(d: Disk, c: seq<Str>)
    requires Canonical(c)
    ensures Translate(d, c) == Walk(d, c)
  {
    hide Step, Dot, DotDot;
    if c != [] {
      TranslateIsWalk(d, Front(c));
    }
  }

  // ---- where a path with dots lands ----

  /** The same loop on path lists instead of inode numbers: what translate's stack does to names. */
  datatype Lexical = Lexical(cur: Path, stack: seq<Path>)

  function Land(c: seq<Str>): Lexical {
    if c == [] then Lexical([], [])
    else
      var s := Land(Front(c));
      var n := Last(c);
      if Dot(n) then s
      else if DotDot(n) then
        if s.stack == [] then s
        else Lexical(if |s.stack| == 1 then [] else s.stack[|s.stack| - 2], Front(s.stack))
      else Lexical(s.cur + [n], s.stack + [s.cur])
  }

  /** The last '..' of the path, if any, is met at depth at most one. */
  predicate Faithful(c: seq<Str>) {
    if c == [] then true
    else if DotDot(Last(c)) then |Resolve(Front(c))| <= 1
    else Faithful(Front(c))
  }

  lemma {:induction false} LandDepths(c: seq<Str>)
    ensures |Land(c).stack| == |Resolve(c)|
    ensures |Land(c).cur| <= |Resolve(c)|
    ensures forall j :: 0 <= j < |Land(c).stack| ==> |Land(c).stack[j]| <= j
    ensures Land(c).stack == [] ==> Land(c).cur == []
  {
    if c != [] {
      LandDepths(Front(c));
    }
  }

  /** The stack lands a path where lexical resolution says exactly when the path is faithful;
      otherwise it lands strictly nearer to the root. */
  lemma {:induction false} LandsRight(c: seq<Str>)
    ensures Faithful(c) <==> Land(c).cur == Resolve(c)
    ensures !Faithful(c) ==> |Land(c).cur| < |Resolve(c)|
  {
    if c != [] {
      LandsRight(Front(c));
      LandDepths(Front(c));
    }
  }

  lemma {:induction false} TraceLands(d: Disk, c: seq<Str>)
    requires Trace(d, c).On?
    ensures Walk(d, Land(c).cur) == Ok(Trace(d, c).inum)
    ensures |Land(c).stack| == |Trace(d, c).stack|
    ensures forall j :: 0 <= j < |Land(c).stack| ==> Walk(d, Land(c).stack[j]) == Ok(Trace(d, c).stack[j])
  {
    hide Step, Dot, DotDot;
    if c != [] {
      TraceLands(d, Front(c));
      var s, n := Land(Front(c)), Last(c);
      if !Dot(n) && !DotDot(n) {
        WalkOn(d, s.cur, n);
      }
    }
  }

  lemma WalkOn(d: Disk, p: Path, n: Str)
    requires Walk(d, p).Ok?
    ensures Walk(d, p + [n]) == Step(d, Walk(d, p).inum, n)
  {
    assert Front(p + [n]) == p;
  }

  /** The path whose walk translate makes. */
  function Target(c: seq<Str>): Path { Land(c).cur }

  /** What translate leads to is live and lies at the target. */
  lemma TargetWalks(d: Disk, C: Cert, c: seq<Str>)
    requires Tree(d, C) && Translate(d, c).Ok?
    ensures Walk(d, Target(c)) == Translate(d, c) && Ino(C, Translate(d, c).inum)
  {
    hide Tree;
    TraceLands(d, c);
    WalkIsPath(d, C, Target(c));
  }

  /** The target is what resolve_path yields exactly on faithful paths. */
  lemma TargetIsResolved(c: seq<Str>)
    ensures Target(c) == Resolve(c) <==> Faithful(c)
  {
    LandsRight(c);
  }

  /** The tokens of a C string. */
  predicate Parsed(c: seq<Str>) { forall j :: 0 <= j < |c| ==> Token(c[j]) && 0 !in c[j] }

  /** Whenever translate succeeds, it agrees with walking the output of resolve_path exactly on faithful paths. */
  lemma TranslateVersusResolve(d: Disk, C: Cert, c: seq<Str>)
    requires Tree(d, C) && Translate(d, c).Ok?
    ensures Walk(d, Land(c).cur) == Translate(d, c)
    ensures Translate(d, c) == Walk(d, Resolve(c)) <==> Faithful(c)
  {
    hide Tree;
    TraceLands(d, c);
    LandsRight(c);
    WalkIsPath(d, C, Land(c).cur);
    if Walk(d, Resolve(c)).Ok? {
      WalkIsPath(d, C, Resolve(c));
    }
  }

  /** '..' at depth one or less never goes wrong. */
  lemma {:induction false} ShallowIsFaithful(c: seq<Str>)
    requires forall j :: 0 <= j < |c| && DotDot(c[j]) ==> |Resolve(c[..j])| <= 1
    ensures Faithful(c)
  {
    if c != [] {
      assert Front(c) == c[..|c| - 1];
      forall j | 0 <= j < |Front(c)| && DotDot(Front(c)[j])
        ensures |Resolve(Front(c)[..j])| <= 1
      {
        assert Front(c)[..j] == c[..j] && c[j] == Front(c)[j];
      }
      ShallowIsFaithful(Front(c));
    }
  }

  /** One more component. */
  lemma ResolveOn(c: seq<Str>, n: Str)
    ensures Resolve(c + [n]) ==
      if Dot(n) then Resolve(c) else if DotDot(n) then Pop(Resolve(c)) else Resolve(c) + [n]
  {
    assert Front(c + [n]) == c;
  }

  lemma LandOn(c: seq<Str>, n: Str)
    ensures var s := Land(c);
      Land(c + [n]) ==
        if Dot(n) then s
        else if !DotDot(n) then Lexical(s.cur + [n], s.stack + [s.cur])
        else if s.stack == [] then s
        else Lexical(if |s.stack| == 1 then [] else s.stack[|s.stack| - 2], Front(s.stack))
  {
    assert Front(c + [n]) == c;
  }

  lemma TraceOn(d: Disk, c: seq<Str>, n: Str)
    ensures var s := Trace(d, c); Trace(d, c + [n]) == if s.Stop? then s else Advance(d, s, n)
  {
    assert Front(c + [n]) == c;
    hide Advance;
  }

  lemma PathEnds(d: Disk)
    ensures Land([]) == Lexical([], []) && Resolve([]) == [] && Trace(d, []) == On(ROOT, [])
  {}

  /** "a/b/.." is the shortest path that goes wrong: it lands on the root instead of on a. */
  lemma DotDotAtDepthTwo(a: Str, b: Str)
    requires Plain(a) && Plain(b)
    ensures Land([a, b, [46, 46]]).cur == [] && Resolve([a, b, [46, 46]]) == [a]
  {
    assert Front([a, b]) == [a];
    hide *;
    TwoDown(a, b);
    UpAgain([a, b], [a, b], [[], [a]]);
    assert [a, b] + [[46, 46]] == [a, b, [46, 46]];
  }

  lemma TwoDown(a: Str, b: Str)
    requires Plain(a) && Plain(b)
    ensures Land([a, b]) == Lexical([a, b], [[], [a]]) && Resolve([a, b]) == [a, b]
  {
    hide *;
    PathEnds([]);
    OneDown([], a);
    OneDown([a], b);
    assert [] + [a] == [a] && [a] + [b] == [a, b] && [[]] + [[a]] == [[], [a]];
  }

  lemma OneDown(c: seq<Str>, n: Str)
    requires Plain(n)
    ensures Resolve(c + [n]) == Resolve(c) + [n]
    ensures Land(c + [n]) == Lexical(Land(c).cur + [n], Land(c).stack + [Land(c).cur])
  {
    ResolveOn(c, n);
    LandOn(c, n);
    hide Resolve, Land;
  }

  lemma UpAgain(c: seq<Str>, r: Path, t: seq<Path>)
    requires Resolve(c) == r && r != [] && Land(c).stack == t && |t| >= 2
    ensures Resolve(c + [[46, 46]]) == Front(r) && Land(c + [[46, 46]]) == Lexical(t[|t| - 2], Front(t))
  {
    var up: Str := [46, 46];
    assert DotDot(up) && !Dot(up);
    hide Resolve, Land, Dot, DotDot;
    ResolveOn(c, up);
    LandOn(c, up);
  }
}
