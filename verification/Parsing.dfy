/** pathparse, resolve_path, the parent string and the walk of translate, as the code's loops compute them. */
module Parsing {
  import opened Format
  import opened Image
  import opened Paths

  /** strtok: the next token and what follows it. */
  method NextToken(s: Str) returns (found: bool, token: Str, rest: Str)
    ensures found <==> Split(s) != []
    ensures found ==> token != [] && Split(s) == [token] + Split(rest) && |rest| < |s|
  {
    rest := s;
    while rest != [] && rest[0] == SLASH
      invariant Split(rest) == Split(s) && |rest| <= |s|
      decreases |rest|
    {
      rest := rest[1..];
    }
    if rest == [] {
      return false, [], [];
    }
    var n := 0;
    while n < |rest| && rest[n] != SLASH
      invariant n <= |rest| && 47 !in rest[..n] && (n == 0 ==> rest[0] != 47)
    {
      n := n + 1;
    }
    RunIs(rest, n);
    return true, rest[..n], rest[n..];
  }

  lemma {:induction false} RunIs(s: Str, n: nat)
    requires n <= |s| && 47 !in s[..n] && (n < |s| ==> s[n] == 47)
    ensures Run(s) == n
  {
    var m := Run(s);
    assert forall k :: 0 <= k < m ==> s[k] in s[..m];
    assert forall k :: 0 <= k < n ==> s[k] in s[..n];
  }

  method PathParse(path: Str) returns (comps: seq<Str>)
    ensures comps == Components(path)
  {
    comps := [];
    var rest := path;
    while |comps| < MAX_PATH_LEN
      invariant |comps| <= MAX_PATH_LEN && Split(path) == comps + Split(rest)
    {
      var found, token, next := NextToken(rest);
      if !found {
        break;
      }
      comps := comps + [token];
      rest := next;
    }
  }

  method ResolvePath(comps: seq<Str>) returns (r: seq<Str>)
    ensures r == Resolve(comps)
  {
    r := [];
    for i := 0 to |comps|
      invariant r == Resolve(comps[..i])
    {
      assert Front(comps[..i + 1]) == comps[..i];
      if comps[i] == [46] {
      } else if comps[i] == [46, 46] {
        if |r| > 0 {
          r := r[..|r| - 1];
        }
      } else {
        r := r + [comps[i]];
      }
    }
    assert comps[..|comps|] == comps;
  }

  lemma {:induction false} JoinSnoc(names: seq<Str>, n: Str)
    ensures Join(names + [n]) == if names == [] then n else Join(names) + [47] + n
  {
    if names == [] {
      assert names + [n] == [n];
    } else {
      var t := names[1..];
      assert (names + [n])[0] == names[0] && (names + [n])[1..] == t + [n];
      JoinSnoc(t, n);
      assert Join(names + [n]) == names[0] + [47] + Join(t + [n]);
      hide Join;
      JoinIs(names);
      if t != [] {
        assert names[0] + [47] + (Join(t) + [47] + n) == (names[0] + [47] + Join(t)) + [47] + n;
      }
    }
  }

  lemma JoinIs(names: seq<Str>)
    requires names != []
    ensures Join(names) == if |names| == 1 then names[0] else names[0] + [47] + Join(names[1..])
  {}

  /** The strcat loop into char parent_path[256]. */
  method ParentPath(r: seq<Str>) returns (buf: Str)
    requires r != [] && |ParentString(r)| < 256
    ensures buf == ParentString(r)
  {
    buf := [SLASH];
    var f := r[..|r| - 1];
    for i := 0 to |r| - 1
      invariant buf == [47] + Join(f[..i]) + if 0 < i < |r| - 1 then [47] else []
    {
      JoinSnoc(f[..i], f[i]);
      assert f[..i + 1] == f[..i] + [f[i]];
      buf := buf + r[i];
      if i < |r| - 2 {
        buf := buf + [SLASH];
      }
    }
    assert f[..|r| - 1] == f;
  }

  /** As far as the walk gets it is never more than nine levels deep, so that parent_stack[10] is not overrun. */
  predicate Shallow(d: Disk, comps: seq<Str>) {
    forall j {:trigger comps[..j]} :: 0 <= j <= |comps| && Trace(d, comps[..j]).On? ==>
        |Trace(d, comps[..j]).stack| <= 9
  }

  /** A path of which no prefix resolves to more than nine names is shallow on every tree. */
  lemma ShallowPaths(d: Disk, C: Cert, comps: seq<Str>)
    requires Tree(d, C) && forall j :: 0 <= j <= |comps| ==> |Resolve(comps[..j])| <= 9
    ensures Shallow(d, comps)
  {
    forall j | 0 <= j <= |comps| && Trace(d, comps[..j]).On?
      ensures |Trace(d, comps[..j]).stack| <= 9
    {
      TraceLive(d, C, comps[..j]);
    }
  }

  lemma {:induction false} ResolveWhole(c: seq<Str>)
    requires |Resolve(c)| == |c|
    ensures Canonical(c)
  {
    if c != [] {
      ResolvedNames(Front(c));
      hide Dot, DotDot;
      assert Resolve(c) == Resolve(Front(c)) + [Last(c)] && Plain(Last(c));
      ResolveWhole(Front(c));
      FrontLast(c);
    }
  }

  /** Of the paths that pathparse hands out just those overrun parent_stack that are ten plain names, all found. */
  lemma DeepPaths(d: Disk, C: Cert, path: Str)
    requires Tree(d, C)
    ensures var c := Components(path); !Shallow(d, c) <==> |c| == 10 && Canonical(c) && Walk(d, c).Ok?
  {
    var c := Components(path);
    assert |c| <= 10;
    hide Components, Tree, Trace, Canonical, Resolve, Walk;
    assert c[..|c|] == c;
    if !Shallow(d, c) {
      var j :| 0 <= j <= |c| && Trace(d, c[..j]).On? && |Trace(d, c[..j]).stack| > 9;
      TraceLive(d, C, c[..j]);
      ResolvedNames(c[..j]);
      assert c[..j] == c;
      ResolveWhole(c);
      TranslateIs(d, c);
      TranslateIsWalk(d, c);
    }
    if |c| == 10 && Canonical(c) && Walk(d, c).Ok? {
      TranslateIsWalk(d, c);
      TranslateIs(d, c);
      TraceLive(d, C, c);
      ResolveCanonical(c);
    }
  }

  lemma ShallowAt(d: Disk, comps: seq<Str>, j: nat)
    requires Shallow(d, comps) && j <= |comps| && Trace(d, comps[..j]).On?
    ensures |Trace(d, comps[..j]).stack| <= 9
  {
    hide Trace;
  }

  lemma TraceStart(d: Disk, comps: seq<Str>)
    ensures comps[..0] == [] && Trace(d, comps[..0]) == On(ROOT, []) && comps[..|comps|] == comps
  {}

  lemma TraceLive(d: Disk, C: Cert, comps: seq<Str>)
    requires Tree(d, C) && Trace(d, comps).On?
    ensures var t := Trace(d, comps);
      Ino(C, t.inum) && 0 <= Node(d, t.inum).size <= 1019 * 4096 && |t.stack| == |Resolve(comps)|
  {
    TraceLands(d, comps);
    LandDepths(comps);
    WalkIsPath(d, C, Land(comps).cur);
    assert NodeOk(d, Trace(d, comps).inum);
  }

  lemma TraceNext(d: Disk, comps: seq<Str>, i: nat)
    requires i < |comps|
    ensures var t := Trace(d, comps[..i]); Trace(d, comps[..i + 1]) == if t.Stop? then t else Advance(d, t, comps[i])
  {
    assert Front(comps[..i + 1]) == comps[..i];
    hide Advance;
  }

  lemma {:induction false} TraceStops(d: Disk, comps: seq<Str>, i: nat)
    requires i <= |comps| && Trace(d, comps[..i]).Stop?
    ensures Trace(d, comps) == Trace(d, comps[..i])
    decreases |comps| - i
  {
    if i < |comps| {
      TraceNext(d, comps, i);
      TraceStops(d, comps, i + 1);
    } else {
      assert comps[..i] == comps;
    }
  }

  lemma TranslateIs(d: Disk, comps: seq<Str>)
    ensures Trace(d, comps).Stop? ==> Translate(d, comps) == Fail(Trace(d, comps).code)
    ensures Trace(d, comps).On? ==> Translate(d, comps) == Ok(Trace(d, comps).inum)
  {}

  /** A step of the walk, by the outcome of the scan. */
  lemma StepIs(d: Disk, i: nat, name: Str)
    ensures Step(d, i, name) ==
      if !DirAt(d, i) then Fail(ENOTDIR)
      else if Find(d, i, name, 0).Miss? then Fail(ENOENT)
      else Ok(Ent(d, i, Find(d, i, name, 0).slot).inode)
    ensures ENOENT < 0 && ENOTDIR < 0 && (DirAt(d, i) <==> IsDir(Node(d, i).mode))
  {
    hide Find, Ent, IsDir;
  }

  lemma AdvanceIs(d: Disk, t: Cursor, name: Str)
    requires t.On?
    ensures name == [46] ==> Advance(d, t, name) == t
    ensures name == [46, 46] ==>
      Advance(d, t, name) ==
        if t.stack == [] then t
        else On(if |t.stack| == 1 then ROOT else t.stack[|t.stack| - 2], t.stack[..|t.stack| - 1])
    ensures name != [46] && name != [46, 46] ==>
      Advance(d, t, name) ==
        if Step(d, t.inum, name).Fail? then Stop(Step(d, t.inum, name).code)
        else On(Step(d, t.inum, name).inum, t.stack + [t.inum])
  {
    hide Step;
  }

  /** A component of a path that stays on the way: what the next turn of the loop starts from. */
  lemma TurnIs(d: Disk, C: Cert, comps: seq<Str>, i: nat, t: Cursor)
    requires Tree(d, C) && Shallow(d, comps) && i < |comps| && t.On? && Trace(d, comps[..i]) == t
    ensures Trace(d, comps[..i + 1]) == Advance(d, t, comps[i])
    ensures Ino(C, t.inum) && 0 <= Node(d, t.inum).size <= 1019 * 4096
    ensures Advance(d, t, comps[i]).On? ==> |Advance(d, t, comps[i]).stack| <= 9
    ensures Advance(d, t, comps[i]).Stop? ==> Translate(d, comps) == Fail(Advance(d, t, comps[i]).code)
  {
    hide *;
    TraceNext(d, comps, i);
    TraceLive(d, C, comps[..i]);
    if Advance(d, t, comps[i]).On? {
      ShallowAt(d, comps, i + 1);
    } else {
      TraceStops(d, comps, i + 1);
      TranslateIs(d, comps);
    }
  }

  /** The path has a last component, and the string of its directory fits char[256]. */
  predicate Fits(path: Str) { Resolve(Components(path)) != [] && |ParentString(Resolve(Components(path)))| < 256 }

  /** The parent string of a resolved path is parsed back to its directory part, without dots. */
  lemma ParentParses(path: Str)
    requires Resolve(Components(path)) != []
    ensures var r := Resolve(Components(path));
      Components(ParentString(r)) == Front(r) && forall d :: Translate(d, Front(r)) == Walk(d, Front(r))
  {
    var comps := Components(path);
    var r := Resolve(comps);
    SplitTokens(path);
    ResolvedNames(comps);
    hide Split, Resolve, Join, Translate, Walk;
    ParentRoundTrip(r);
    FrontCanonical(r);
    forall d ensures Translate(d, Front(r)) == Walk(d, Front(r)) { TranslateIsWalk(d, Front(r)); }
  }

  lemma FrontCanonical(r: seq<Str>)
    requires Canonical(r) && r != []
    ensures Canonical(Front(r))
  {
    assert forall j :: 0 <= j < |Front(r)| ==> Front(r)[j] == r[j];
  }

  /** A directory part has at most nine names: its walk is shallow. */
  lemma ParentIsShallow(d: Disk, C: Cert, path: Str)
    requires Tree(d, C) && Resolve(Components(path)) != []
    ensures Shallow(d, Front(Resolve(Components(path))))
  {
    var comps := Components(path);
    var f := Front(Resolve(comps));
    ResolvedNames(comps);
    FrontCanonical(Resolve(comps));
    hide Split, Resolve, Tree;
    forall j | 0 <= j <= |f|
      ensures |Resolve(f[..j])| <= 9
    {
      ResolveCanonical(f[..j]);
    }
    ShallowPaths(d, C, f);
  }
}
