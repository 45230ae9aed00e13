/** What a path means, and its normal form. */
module NormalPaths {
  import opened Options

  /** The number of characters before the first separator. */
  ghost function NameLength(s: string): (k: nat)
    ensures k <= |s| && (k < |s| ==> s[k] == '/') && '/' !in s[..k]
  {
    if s == [] || s[0] == '/' then 0
    else
      var k := NameLength(s[1..]);
      assert s[..k + 1] == [s[0]] + s[1..][..k];
      k + 1
  }

  /** The components of a path. Repeated separators count as one. */
  ghost function Split(s: string): seq<string>
    decreases |s|
  {
    if s == [] then []
    else if s[0] == '/' then Split(s[1..])
    else [s[..NameLength(s)]] + Split(s[NameLength(s)..])
  }

  /** What is left of `s` at a position that may be one past the end. */
  ghost function Rest(s: string, i: nat): string {
    if i <= |s| then s[i..] else []
  }

  lemma {:induction false} NameLengthIs(s: string, k: nat)
    requires k <= |s| && '/' !in s[..k] && (k < |s| ==> s[k] == '/')
    ensures NameLength(s) == k
  {
    if k > 0 {
      assert s[0] == s[..k][0] && s[1..][..k - 1] == s[..k][1..];
      NameLengthIs(s[1..], k - 1);
    }
  }

  lemma {:induction false} SplitFirst(s: string, k: nat)
    requires 0 < k <= |s| && '/' !in s[..k] && (k < |s| ==> s[k] == '/')
    ensures Split(s) == [s[..k]] + Split(Rest(s, k + 1))
  {
    NameLengthIs(s, k);
    assert s[0] == s[..k][0];
    if k < |s| {
      assert s[k..][1..] == s[k + 1..];
    }
  }

  ghost predicate IsDot(c: string) {
    |c| == 1 && c[0] == '.'
  }

  ghost predicate IsUp(c: string) {
    |c| == 2 && c[0] == '.' && c[1] == '.'
  }

  ghost predicate IsName(c: string) {
    c != [] && '/' !in c && !IsDot(c) && !IsUp(c)
  }

  /** A path without its root: how many times to go up, and where to go down from there. */
  datatype Route = Route(ups: nat, names: seq<string>)

  const HERE := Route(0, [])

  ghost predicate ValidRoute(r: Route) {
    forall i :: 0 <= i < |r.names| ==> IsName(r.names[i])
  }

  ghost function Follow(r: Route, c: string): Route {
    if IsDot(c) then r
    else if IsUp(c) then
      if r.names != [] then r.(names := r.names[..|r.names| - 1]) else r.(ups := r.ups + 1)
    else r.(names := r.names + [c])
  }

  ghost function FollowAll(r: Route, cs: seq<string>): Route
    decreases |cs|
  {
    if cs == [] then r else FollowAll(Follow(r, cs[0]), cs[1..])
  }

  /** The route that a path describes. */
  ghost function RouteOf(s: string): Route {
    FollowAll(HERE, Split(s))
  }

  const MAX_COMPONENTS := 62

  /** Whether the stack of names never has to hold too many. */
  ghost predicate Fits(r: Route, cs: seq<string>)
    decreases |cs|
  {
    cs == [] ||
    (&& (!IsDot(cs[0]) && !IsUp(cs[0]) ==> |r.names| < MAX_COMPONENTS)
     && Fits(Follow(r, cs[0]), cs[1..]))
  }

  // How a route is written down, with a separator after every component.

  ghost function Ups(n: nat): string {
    if n == 0 then "" else Ups(n - 1) + "../"
  }

  ghost function Names(names: seq<string>): string {
    if names == [] then "" else Names(names[..|names| - 1]) + names[|names| - 1] + "/"
  }

  ghost function Layout(root: bool, r: Route): string {
    (if root then "/" else "") + Ups(r.ups) + Names(r.names)
  }

  /** The normal form of a path: its layout without the last separator. */
  ghost function Render(root: bool, r: Route): string {
    if r == HERE then Layout(root, r)
    else
      LayoutNotEmpty(root, r);
      Layout(root, r)[..|Layout(root, r)| - 1]
  }

  lemma {:induction false} LayoutNotEmpty(root: bool, r: Route)
    requires r != HERE
    ensures |Layout(root, r)| > 0 && Layout(root, r)[|Layout(root, r)| - 1] == '/'
  {
    if r.names == [] {
      assert Layout(root, r) == Layout(root, Route(r.ups - 1, [])) + "../";
    }
  }

  lemma {:induction false} LayoutPush(root: bool, r: Route, c: string)
    ensures Layout(root, Route(r.ups, r.names + [c])) == Layout(root, r) + c + "/"
  {
    var pushed := r.names + [c];
    assert pushed[..|pushed| - 1] == r.names;
  }

  lemma {:induction false} LayoutUp(root: bool, ups: nat)
    ensures Layout(root, Route(ups + 1, [])) == Layout(root, Route(ups, [])) + "../"
  {
  }

  ghost predicate IsAbsolute(s: string) {
    s != [] && s[0] == '/'
  }

  /** The normal form of a path, where an empty path stands for the current directory. */
  ghost function Canonical(s: string): string {
    var rendered := Render(IsAbsolute(s), RouteOf(s));
    if rendered == [] then "." else rendered
  }

  // The meaning of a path in a tree without symbolic links. A location is the list of names that lead to it from the
  // root. Only a directory can be walked from.

  type Location = seq<string>

  ghost function Parent(l: Location): Location {
    if l == [] then [] else l[..|l| - 1]
  }

  ghost function Next(l: Location, c: string): Location {
    if IsDot(c) then l else if IsUp(c) then Parent(l) else l + [c]
  }

  ghost function Walk(directories: iset<Location>, l: Location, cs: seq<string>): Option<Location>
    decreases |cs|
  {
    if cs == [] then Some(l)
    else if l !in directories then None
    else Walk(directories, Next(l, cs[0]), cs[1..])
  }

  /** Where a path leads to, from a working directory. */
  ghost function Resolve(directories: iset<Location>, cwd: Location, s: string): Option<Location> {
    Walk(directories, if IsAbsolute(s) then [] else cwd, Split(s))
  }

  ghost function UpComponents(n: nat): (cs: seq<string>)
    ensures |cs| == n && forall i :: 0 <= i < n ==> cs[i] == ".."
  {
    if n == 0 then [] else UpComponents(n - 1) + [".."]
  }

  ghost function Components(r: Route): seq<string> {
    UpComponents(r.ups) + r.names
  }

  lemma {:induction false} WalkAppend(directories: iset<Location>, l: Location, cs: seq<string>, c: string)
    ensures Walk(directories, l, cs + [c]) ==
      match Walk(directories, l, cs)
      case None => None
      case Some(m) => if m in directories then Some(Next(m, c)) else None
    decreases |cs|
  {
    if cs == [] {
      assert (cs + [c])[1..] == [];
      if l in directories {
        assert Walk(directories, Next(l, c), []) == Some(Next(l, c));
      }
    } else {
      assert (cs + [c])[1..] == cs[1..] + [c];
      WalkAppend(directories, Next(l, cs[0]), cs[1..], c);
    }
  }

  /** A step along a route leads to where the same step in the tree leads, if the latter is possible. */
  lemma {:induction false} FollowMeans(directories: iset<Location>, l: Location, r: Route, c: string)
    requires ValidRoute(r) && Walk(directories, l, Components(r) + [c]).Some?
    ensures Walk(directories, l, Components(Follow(r, c))) == Walk(directories, l, Components(r) + [c])
  {
    if IsUp(c) && r.names != [] {
      UpMeans(directories, l, r, c);
    } else if IsDot(c) {
      WalkAppend(directories, l, Components(r), c);
    } else {
      ComponentsFollow(r, c);
    }
  }

  lemma {:induction false} ComponentsFollow(r: Route, c: string)
    requires !IsDot(c) && (IsUp(c) ==> r.names == [])
    ensures Components(Follow(r, c)) == Components(r) + [c]
  {
    if IsUp(c) {
      assert c == "..";
    }
  }

  /** Going up undoes going down to a name. */
  lemma {:induction false} UpMeans(directories: iset<Location>, l: Location, r: Route, c: string)
    requires ValidRoute(r) && IsUp(c) && r.names != [] && Walk(directories, l, Components(r) + [c]).Some?
    ensures Walk(directories, l, Components(Follow(r, c))) == Walk(directories, l, Components(r) + [c])
  {
    var shorter, last := Components(Follow(r, c)), r.names[|r.names| - 1];
    WalkAppend(directories, l, Components(r), c);
    assert Components(r) == shorter + [last];
    WalkAppend(directories, l, shorter, last);
  }

  ghost predicate Proper(cs: seq<string>) {
    forall i :: 0 <= i < |cs| ==> cs[i] != [] && '/' !in cs[i]
  }

  lemma {:induction false} SplitIsProper(s: string)
    ensures Proper(Split(s))
    decreases |s|
  {
    if s == [] {
    } else if s[0] == '/' {
      SplitIsProper(s[1..]);
    } else {
      SplitIsProper(s[NameLength(s)..]);
    }
  }

  lemma {:induction false} FollowFirst(directories: iset<Location>, l: Location, r: Route, cs: seq<string>)
    requires ValidRoute(r) && cs != [] && Walk(directories, l, Components(r) + cs).Some?
    ensures Walk(directories, l, Components(Follow(r, cs[0])) + cs[1..]) == Walk(directories, l, Components(r) + cs)
  {
    var first := Components(r) + [cs[0]];
    assert Components(r) + cs == first + cs[1..];
    WalkSplit(directories, l, first, cs[1..]);
    FollowMeans(directories, l, r, cs[0]);
    WalkSplit(directories, l, Components(Follow(r, cs[0])), cs[1..]);
  }

  lemma {:induction false} FollowAllMeans(directories: iset<Location>, l: Location, r: Route, cs: seq<string>)
    requires ValidRoute(r) && Proper(cs) && Walk(directories, l, Components(r) + cs).Some?
    ensures Walk(directories, l, Components(FollowAll(r, cs))) == Walk(directories, l, Components(r) + cs)
    decreases |cs|
  {
    if cs == [] {
      assert Components(r) + cs == Components(r);
    } else {
      FollowFirst(directories, l, r, cs);
      FollowAllMeans(directories, l, Follow(r, cs[0]), cs[1..]);
    }
  }

  lemma {:induction false} WalkSplit(directories: iset<Location>, l: Location, a: seq<string>, b: seq<string>)
    ensures Walk(directories, l, a + b) ==
      match Walk(directories, l, a)
      case None => None
      case Some(m) => Walk(directories, m, b)
    decreases |b|
  {
    if b == [] {
      assert a + b == a;
    } else {
      WalkAppend(directories, l, a, b[0]);
      assert a + b == (a + [b[0]]) + b[1..];
      WalkSplit(directories, l, a + [b[0]], b[1..]);
      if Walk(directories, l, a) == None {
        assert Walk(directories, l, a + [b[0]]) == None;
      }
    }
  }

  // Splitting undoes writing down.

  ghost predicate Closed(a: string) {
    a == [] || a[|a| - 1] == '/'
  }

  lemma {:induction false} SplitName(s: string)
    requires s != [] && s[0] != '/'
    ensures 0 < NameLength(s) && Split(s) == [s[..NameLength(s)]] + Split(s[NameLength(s)..])
  {
  }

  lemma {:induction false} ClosedNameEnds(a: string, b: string)
    requires a != [] && Closed(a)
    ensures NameLength(a) < |a| && NameLength(a + b) == NameLength(a) && Closed(a[NameLength(a)..])
  {
    if a[0] != '/' {
      assert (a + b)[1..] == a[1..] + b;
      ClosedNameEnds(a[1..], b);
    }
  }

  lemma {:induction false} SplitAppend(a: string, b: string)
    requires Closed(a)
    ensures Split(a + b) == Split(a) + Split(b)
    decreases |a|
  {
    if a == [] {
      assert a + b == b;
    } else if a[0] == '/' {
      assert (a + b)[1..] == a[1..] + b;
      SplitAppend(a[1..], b);
    } else {
      ClosedNameEnds(a, b);
      var k := NameLength(a);
      SplitAppend(a[k..], b);
      SplitAppendName(a, b);
    }
  }

  lemma {:induction false} SliceAppend(a: string, b: string, k: nat)
    requires k <= |a|
    ensures (a + b)[..k] == a[..k] && (a + b)[k..] == a[k..] + b
  {
  }

  lemma {:induction false} AppendAssociative(a: seq<string>, b: seq<string>, c: seq<string>)
    ensures a + (b + c) == a + b + c
  {
  }

  lemma {:induction false} SplitAppendName(a: string, b: string)
    requires a != [] && a[0] != '/' && NameLength(a) < |a| && NameLength(a + b) == NameLength(a)
    requires Split(a[NameLength(a)..] + b) == Split(a[NameLength(a)..]) + Split(b)
    ensures Split(a + b) == Split(a) + Split(b)
  {
    var k := NameLength(a);
    var head, first, second := [a[..k]], Split(a[k..]), Split(b);
    SliceAppend(a, b, k);
    SplitName(a + b);
    SplitName(a);
    AppendAssociative(head, first, second);
  }

  lemma {:induction false} SplitComponent(c: string)
    requires c != [] && '/' !in c
    ensures Split(c) == [c] && Split(c + "/") == [c]
  {
    assert c[..|c|] == c && (c + "/")[..|c|] == c;
    SplitFirst(c, |c|);
    SplitFirst(c + "/", |c|);
  }

  lemma {:induction false} SplitSlash(s: string)
    ensures Split(s + "/") == Split(s)
    decreases |s|
  {
    if s == [] {
      assert s + "/" == "/" && "/"[1..] == [];
    } else if s[0] == '/' {
      assert (s + "/")[1..] == s[1..] + "/";
      SplitSlash(s[1..]);
    } else {
      var k := NameLength(s);
      assert (s + "/")[..k] == s[..k] && (s + "/")[k..] == s[k..] + "/";
      NameLengthIs(s + "/", k);
      SplitSlash(s[k..]);
    }
  }

  lemma {:induction false} SplitUps(n: nat)
    ensures Closed(Ups(n)) && Split(Ups(n)) == UpComponents(n)
  {
    if n > 0 {
      SplitUps(n - 1);
      SplitAppend(Ups(n - 1), "../");
      assert ".." + "/" == "../";
      SplitComponent("..");
    }
  }

  lemma {:induction false} NamesStart(names: seq<string>)
    requires names != [] && forall i :: 0 <= i < |names| ==> IsName(names[i])
    ensures |Names(names)| > 1 && Names(names)[0] != '/'
  {
    var rest, last := names[..|names| - 1], names[|names| - 1];
    assert Names(names) == Names(rest) + (last + "/");
    if rest != [] {
      NamesStart(rest);
    } else {
      assert Names(names) == last + "/" && last[0] in last;
    }
  }

  lemma {:induction false} SplitNames(names: seq<string>)
    requires forall i :: 0 <= i < |names| ==> IsName(names[i])
    ensures Closed(Names(names)) && Split(Names(names)) == names
  {
    if names != [] {
      var rest, last := names[..|names| - 1], names[|names| - 1];
      SplitNames(rest);
      assert Names(names) == Names(rest) + (last + "/");
      SplitAppend(Names(rest), last + "/");
      SplitComponent(last);
      assert names == rest + [last];
    }
  }

  lemma {:induction false} SplitRoot(s: string)
    ensures Split("/" + s) == Split(s)
  {
    assert ("/" + s)[1..] == s;
  }

  lemma {:induction false} SplitLayout(root: bool, r: Route)
    requires ValidRoute(r)
    ensures Split(Layout(root, r)) == Components(r)
  {
    var relative := Ups(r.ups) + Names(r.names);
    assert Split(relative) == Components(r) by {
      SplitUps(r.ups);
      SplitNames(r.names);
      SplitAppend(Ups(r.ups), Names(r.names));
    }
    SplitRoot(relative);
    if root {
      assert Layout(root, r) == "/" + relative;
    } else {
      assert Layout(root, r) == relative;
    }
  }

  lemma {:induction false} LayoutStart(root: bool, r: Route)
    requires ValidRoute(r) && r != HERE
    ensures |Layout(root, r)| > 1 && (Layout(root, r)[0] == '/' <==> root)
  {
    UpsStart(r.ups);
    if r.names != [] {
      NamesStart(r.names);
    }
    var relative := Ups(r.ups) + Names(r.names);
    assert |relative| > 1 && relative[0] != '/';
    assert Layout(root, r) == (if root then "/" else "") + relative;
  }

  lemma {:induction false} SplitRender(root: bool, r: Route)
    requires ValidRoute(r)
    ensures Split(Render(root, r)) == Components(r) && IsAbsolute(Render(root, r)) == root
    ensures Render(root, r) == [] <==> !root && r == HERE
  {
    SplitLayout(root, r);
    if r != HERE {
      LayoutNotEmpty(root, r);
      LayoutStart(root, r);
      assert Layout(root, r) == Render(root, r) + "/";
      SplitSlash(Render(root, r));
    }
  }

  lemma {:induction false} UpsStart(n: nat)
    ensures n > 0 ==> |Ups(n)| > 2 && Ups(n)[0] == '.'
  {
    if n > 1 {
      UpsStart(n - 1);
    }
  }

  // Following the components of a route gives that route.

  lemma {:induction false} FollowAllSplit(r: Route, a: seq<string>, b: seq<string>)
    ensures FollowAll(r, a + b) == FollowAll(FollowAll(r, a), b)
    decreases |a|
  {
    if a == [] {
      assert a + b == b;
    } else {
      assert (a + b)[1..] == a[1..] + b;
      FollowAllSplit(Follow(r, a[0]), a[1..], b);
    }
  }

  lemma {:induction false} FollowUps(n: nat)
    ensures FollowAll(HERE, UpComponents(n)) == Route(n, []) && Fits(HERE, UpComponents(n))
  {
    if n > 0 {
      FollowUps(n - 1);
      FollowAllSplit(HERE, UpComponents(n - 1), [".."]);
      FitsSplit(HERE, UpComponents(n - 1), [".."]);
    }
  }

  lemma {:induction false} FitsSplit(r: Route, a: seq<string>, b: seq<string>)
    ensures Fits(r, a + b) <==> Fits(r, a) && Fits(FollowAll(r, a), b)
    decreases |a|
  {
    if a == [] {
      assert a + b == b;
    } else {
      assert (a + b)[1..] == a[1..] + b;
      FitsSplit(Follow(r, a[0]), a[1..], b);
    }
  }

  lemma {:induction false} FollowNames(ups: nat, done: seq<string>, names: seq<string>)
    requires forall i :: 0 <= i < |names| ==> IsName(names[i])
    ensures FollowAll(Route(ups, done), names) == Route(ups, done + names)
    ensures |done + names| <= MAX_COMPONENTS ==> Fits(Route(ups, done), names)
    decreases |names|
  {
    if names == [] {
      assert done + names == done;
    } else {
      assert done + names == (done + [names[0]]) + names[1..];
      FollowNames(ups, done + [names[0]], names[1..]);
    }
  }

  lemma {:induction false} FollowComponents(r: Route)
    requires ValidRoute(r)
    ensures FollowAll(HERE, Components(r)) == r
    ensures |r.names| <= MAX_COMPONENTS ==> Fits(HERE, Components(r))
  {
    FollowUps(r.ups);
    FollowNames(r.ups, [], r.names);
    assert [] + r.names == r.names;
    FollowAllSplit(HERE, UpComponents(r.ups), r.names);
    FitsSplit(HERE, UpComponents(r.ups), r.names);
  }

  lemma {:induction false} RouteIsValid(r: Route, cs: seq<string>)
    requires ValidRoute(r) && Proper(cs)
    ensures ValidRoute(FollowAll(r, cs))
    ensures Fits(r, cs) && |r.names| <= MAX_COMPONENTS ==> |FollowAll(r, cs).names| <= MAX_COMPONENTS
    decreases |cs|
  {
    if cs != [] {
      RouteIsValid(Follow(r, cs[0]), cs[1..]);
    }
  }

  // The main results.

  lemma {:induction false} RouteOfCanonical(s: string)
    ensures ValidRoute(RouteOf(s)) && RouteOf(Canonical(s)) == RouteOf(s)
    ensures IsAbsolute(Canonical(s)) == IsAbsolute(s)
    ensures Fits(HERE, Split(s)) ==> Fits(HERE, Split(Canonical(s)))
  {
    SplitIsProper(s);
    RouteIsValid(HERE, Split(s));
    SplitRender(IsAbsolute(s), RouteOf(s));
    FollowComponents(RouteOf(s));
    SplitComponent(".");
    assert ["."][1..] == [];
  }

  /** Making a path canonical once is enough. */
  lemma {:induction false} CanonicalIsIdempotent(s: string)
    ensures Canonical(Canonical(s)) == Canonical(s)
  {
    RouteOfCanonical(s);
  }

  /** If a path leads somewhere, then its canonical form leads there too. */
  lemma {:induction false} CanonicalMeansTheSame(directories: iset<Location>, cwd: Location, s: string)
    requires cwd in directories && Resolve(directories, cwd, s).Some?
    ensures Resolve(directories, cwd, Canonical(s)) == Resolve(directories, cwd, s)
  {
    var l := if IsAbsolute(s) then [] else cwd;
    SplitIsProper(s);
    assert Components(HERE) == [] && [] + Split(s) == Split(s);
    FollowAllMeans(directories, l, HERE, Split(s));
    RouteOfCanonical(s);
    SplitRender(IsAbsolute(s), RouteOf(s));
    SplitComponent(".");
    if Render(IsAbsolute(s), RouteOf(s)) == [] {
      assert ["."][1..] == [] && Components(RouteOf(s)) == [];
    }
  }

  /** A tree in which everything is a directory. */
  ghost function Everything(): iset<Location> {
    iset l: Location | |l| >= 0
  }

  lemma {:induction false} WalkUps(l: Location, n: nat)
    requires n <= |l|
    ensures Walk(Everything(), l, UpComponents(n)) == Some(l[..|l| - n])
  {
    if n == 0 {
      assert l[..|l|] == l;
    } else {
      WalkUps(l, n - 1);
      WalkAppend(Everything(), l, UpComponents(n - 1), "..");
      assert l[..|l| - (n - 1)][..|l| - n] == l[..|l| - n];
    }
  }

  lemma {:induction false} WalkNames(l: Location, names: seq<string>)
    requires forall i :: 0 <= i < |names| ==> IsName(names[i])
    ensures Walk(Everything(), l, names) == Some(l + names)
    decreases |names|
  {
    if names == [] {
      assert l + names == l;
    } else {
      assert l + names == (l + [names[0]]) + names[1..];
      WalkNames(l + [names[0]], names[1..]);
    }
  }

  lemma {:induction false} WalkRoute(l: Location, r: Route)
    requires ValidRoute(r) && r.ups <= |l|
    ensures Walk(Everything(), l, Components(r)) == Some(l[..|l| - r.ups] + r.names)
  {
    WalkUps(l, r.ups);
    WalkNames(l[..|l| - r.ups], r.names);
    WalkSplit(Everything(), l, UpComponents(r.ups), r.names);
  }

  /** A name that is longer than all of the given ones. */
  ghost function Longer(names: seq<string>): (name: string)
    ensures IsName(name) && name !in names && forall i :: 0 <= i < |names| ==> |names[i]| < |name|
  {
    if names == [] then "aaa"
    else
      var other := Longer(names[1..]);
      LongName(other, names[0])
  }

  ghost function LongName(a: string, b: string): (name: string)
    requires IsName(a)
    ensures IsName(name) && |a| < |name| && |b| < |name|
  {
    seq(|a| + |b| + 3, _ => 'a')
  }

  /** Relative paths with different canonical forms lead to different places, from some directory. */
  lemma {:induction false} CanonicalTellsApart(s: string, t: string) returns (cwd: Location)
    requires !IsAbsolute(s) && !IsAbsolute(t) && Canonical(s) != Canonical(t)
    ensures Resolve(Everything(), cwd, s).Some? && Resolve(Everything(), cwd, t).Some?
    ensures Resolve(Everything(), cwd, s) != Resolve(Everything(), cwd, t)
  {
    var a, b := RouteOf(s), RouteOf(t);
    RouteOfCanonical(s);
    RouteOfCanonical(t);
    var name := Longer(a.names + b.names);
    cwd := seq(a.ups + b.ups, _ => name);
    ResolveRelative(cwd, s);
    ResolveRelative(cwd, t);
    WalkRoute(cwd, a);
    WalkRoute(cwd, b);
    if a.ups < b.ups {
      Apart(cwd, name, a, b);
    } else if b.ups < a.ups {
      Apart(cwd, name, b, a);
    } else {
      assert a.names != b.names;
      assert (cwd[..|cwd| - a.ups] + a.names)[|cwd| - a.ups..] == a.names;
    }
  }

  lemma {:induction false} Apart(cwd: Location, name: string, a: Route, b: Route)
    requires a.ups < b.ups <= |cwd| && name !in b.names && forall i :: 0 <= i < |cwd| ==> cwd[i] == name
    ensures cwd[..|cwd| - a.ups] + a.names != cwd[..|cwd| - b.ups] + b.names
  {
    var i := |cwd| - b.ups;
    assert (cwd[..|cwd| - a.ups] + a.names)[i] == name;
    if b.names != [] {
      assert (cwd[..i] + b.names)[i] == b.names[0];
    }
  }

  /** In a tree where everything is a directory, a path leads to where its route leads. */
  lemma {:induction false} ResolveRelative(cwd: Location, s: string)
    requires !IsAbsolute(s)
    ensures Resolve(Everything(), cwd, s) == Walk(Everything(), cwd, Components(RouteOf(s)))
    ensures Resolve(Everything(), cwd, s).Some?
  {
    SplitIsProper(s);
    WalkEverything(cwd, Split(s));
    assert Components(HERE) == [] && [] + Split(s) == Split(s);
    FollowAllMeans(Everything(), cwd, HERE, Split(s));
  }

  lemma {:induction false} WalkEverything(l: Location, cs: seq<string>)
    ensures Walk(Everything(), l, cs).Some?
    decreases |cs|
  {
    if cs != [] {
      WalkEverything(Next(l, cs[0]), cs[1..]);
    }
  }

  lemma {:induction false} WalkUpsFromRoot(n: nat)
    ensures Walk(Everything(), [], UpComponents(n)) == Some([])
  {
    if n > 0 {
      WalkUpsFromRoot(n - 1);
      WalkAppend(Everything(), [], UpComponents(n - 1), "..");
    }
  }

  /** An absolute path leads to its names, however often it goes up before that. */
  lemma {:induction false} ResolveAbsolute(cwd: Location, s: string)
    requires IsAbsolute(s)
    ensures Resolve(Everything(), cwd, s) == Some(RouteOf(s).names)
  {
    var r := RouteOf(s);
    SplitIsProper(s);
    WalkEverything([], Split(s));
    assert Components(HERE) == [] && [] + Split(s) == Split(s);
    FollowAllMeans(Everything(), [], HERE, Split(s));
    RouteOfCanonical(s);
    WalkUpsFromRoot(r.ups);
    WalkSplit(Everything(), [], UpComponents(r.ups), r.names);
    WalkNames([], r.names);
    assert [] + r.names == r.names;
  }

  /** Two paths lead to the same place from every directory. */
  ghost predicate SamePlaces(s: string, t: string) {
    forall cwd: Location :: Resolve(Everything(), cwd, s) == Resolve(Everything(), cwd, t)
  }

  /** An absolute and a relative path lead to different places, from some directory. */
  lemma {:induction false} AbsoluteIsNotRelative(s: string, t: string)
    requires IsAbsolute(s) && !IsAbsolute(t)
    ensures !SamePlaces(s, t)
  {
    var a, b := RouteOf(s), RouteOf(t);
    var name := Longer(a.names + b.names);
    var cwd: Location := seq(b.ups + 1, _ => name);
    RouteOfCanonical(t);
    ResolveAbsolute(cwd, s);
    ResolveRelative(cwd, t);
    WalkRoute(cwd, b);
    assert (cwd[..1] + b.names)[0] == name;
    if a.names != [] {
      assert a.names[0] in a.names + b.names;
    }
  }

  lemma {:induction false} SameRouteSamePlaces(s: string, t: string)
    requires IsAbsolute(s) == IsAbsolute(t) && RouteOf(s) == RouteOf(t)
    ensures SamePlaces(s, t)
  {
    forall cwd: Location
      ensures Resolve(Everything(), cwd, s) == Resolve(Everything(), cwd, t)
    {
      if IsAbsolute(s) {
        ResolveAbsolute(cwd, s);
        ResolveAbsolute(cwd, t);
      } else {
        ResolveRelative(cwd, s);
        ResolveRelative(cwd, t);
      }
    }
  }

  /**
   * Paths have the same canonical form exactly if they lead to the same place from everywhere and, for absolute paths,
   * go up from the root equally often.
   */
  lemma {:induction false} SameCanonicalForm(s: string, t: string)
    ensures Canonical(s) == Canonical(t) <==>
      SamePlaces(s, t) && (IsAbsolute(s) ==> RouteOf(s).ups == RouteOf(t).ups)
  {
    RouteOfCanonical(s);
    RouteOfCanonical(t);
    if Canonical(s) == Canonical(t) {
      SameRouteSamePlaces(s, t);
    } else if IsAbsolute(s) != IsAbsolute(t) {
      if IsAbsolute(s) {
        AbsoluteIsNotRelative(s, t);
      } else {
        AbsoluteIsNotRelative(t, s);
      }
    } else if IsAbsolute(s) {
      assert RouteOf(s) != RouteOf(t);
      ResolveAbsolute([], s);
      ResolveAbsolute([], t);
    } else {
      var cwd := CanonicalTellsApart(s, t);
    }
  }

  /** Absolute paths are different: going up from the root is kept, although it leads nowhere else. */
  lemma {:induction false} RootParentIsKept(directories: iset<Location>, cwd: Location)
    requires [] in directories
    ensures Canonical("/../a") == "/../a" && Canonical("/a") == "/a"
    ensures Resolve(directories, cwd, "/../a") == Resolve(directories, cwd, "/a") == Some(["a"])
  {
    SplitRootParent();
    RouteRootParent();
    RenderRootParent();
    WalkToA(directories);
  }

  lemma {:induction false} SplitRootParent()
    ensures Split("/../a") == ["..", "a"] && Split("/a") == ["a"]
  {
    assert "/" + "../a" == "/../a" && "/" + "a" == "/a" && ".." + "/" + "a" == "../a";
    SplitRoot("../a");
    SplitRoot("a");
    SplitComponent("..");
    SplitComponent("a");
    SplitAppend(".." + "/", "a");
    assert [".."] + ["a"] == ["..", "a"];
  }

  lemma {:induction false} RouteRootParent()
    ensures FollowAll(HERE, ["..", "a"]) == Route(1, ["a"]) && FollowAll(HERE, ["a"]) == Route(0, ["a"])
  {
    FollowNames(1, [], ["a"]);
    FollowNames(0, [], ["a"]);
    assert [] + ["a"] == ["a"] && ["..", "a"][1..] == ["a"];
  }

  lemma {:induction false} RenderRootParent()
    ensures Render(true, Route(1, ["a"])) == "/../a" && Render(true, Route(0, ["a"])) == "/a"
  {
    assert Ups(1) == Ups(0) + "../" && Names(["a"]) == Names([]) + "a" + "/";
    assert Layout(true, Route(1, ["a"])) == "/../a/" && Layout(true, Route(0, ["a"])) == "/a/";
  }

  lemma {:induction false} WalkToA(directories: iset<Location>)
    requires [] in directories
    ensures Walk(directories, [], ["a"]) == Walk(directories, [], ["..", "a"]) == Some(["a"])
  {
    assert ["..", "a"][1..] == ["a"] && ["a"][1..] == [] && [] + ["a"] == ["a"];
  }
}
