/** Making a path canonical in place. */
module CanonicalPaths {
  import opened NormalPaths
  import opened Options

  /** Where some components lead to from a route, and whether there is room for them. */
  ghost function Outcome(r: Route, cs: seq<string>): (Route, bool) {
    (FollowAll(r, cs), Fits(r, cs))
  }

  /** What is left of `s` leads to the goal. */
  ghost predicate Leads(s: string, src: nat, r: Route, goal: (Route, bool)) {
    Outcome(r, Split(Rest(s, src))) == goal
  }

  /** A component of `s` starts at `src` and is `c`. */
  ghost predicate ComponentAt(s: string, src: nat, c: string) {
    && c != [] && '/' !in c && src + |c| <= |s| && s[src..src + |c|] == c
    && (src + |c| < |s| ==> s[src + |c|] == '/')
  }

  lemma {:induction false} LeadsOver(s: string, src: nat, r: Route, goal: (Route, bool))
    requires src < |s| && s[src] == '/' && Leads(s, src, r, goal)
    ensures Leads(s, src + 1, r, goal)
  {
    assert s[src..][1..] == s[src + 1..];
  }

  lemma {:induction false} LeadsEnd(s: string, src: nat, r: Route, goal: (Route, bool))
    requires src >= |s| && Leads(s, src, r, goal)
    ensures goal == (r, true)
  {
  }

  lemma {:induction false} LeadsThrough(s: string, src: nat, c: string, r: Route, next: nat, goal: (Route, bool))
    requires ComponentAt(s, src, c) && Leads(s, src, r, goal) && next == src + |c| + 1
    ensures
      if IsDot(c) || IsUp(c) || |r.names| < MAX_COMPONENTS then Leads(s, next, Follow(r, c), goal)
      else !goal.1
  {
    var rest := s[src..];
    assert rest[..|c|] == s[src..src + |c|];
    SplitFirst(rest, |c|);
    assert Rest(rest, |c| + 1) == Rest(s, next);
    assert ([c] + Split(Rest(s, next)))[1..] == Split(Rest(s, next));
  }

  lemma {:induction false} DotsAt(s: string, src: nat)
    requires src < |s|
    ensures ComponentAt(s, src, ".") <==> s[src] == '.' && (src + 1 == |s| || s[src + 1] == '/')
    ensures ComponentAt(s, src, "..") <==>
      s[src] == '.' && src + 1 < |s| && s[src + 1] == '.' && (src + 2 == |s| || s[src + 2] == '/')
  {
    assert s[src..src + 1] == [s[src]];
    if src + 1 < |s| {
      assert s[src..src + 2] == [s[src], s[src + 1]];
    }
  }

  /** Where the names of a route start in its layout. */
  ghost predicate Offsets(components: seq<nat>, root: bool, r: Route)
    decreases |components|
  {
    && |components| == |r.names|
    && (components != [] ==>
          var last := |components| - 1;
          var shorter := r.(names := r.names[..last]);
          components[last] == |Layout(root, shorter)| && Offsets(components[..last], root, shorter))
  }

  lemma {:induction false} OffsetsPush(components: seq<nat>, root: bool, r: Route, c: string, dst: nat)
    requires Offsets(components, root, r) && IsName(c) && dst == |Layout(root, r)|
    ensures Offsets(components + [dst], root, Follow(r, c))
  {
    assert (components + [dst])[..|components|] == components && (r.names + [c])[..|components|] == r.names;
  }

  lemma {:induction false} OffsetsPop(components: seq<nat>, root: bool, r: Route)
    requires Offsets(components, root, r) && components != []
    ensures Offsets(components[..|components| - 1], root, Follow(r, ".."))
    ensures components[|components| - 1] == |Layout(root, Follow(r, ".."))|
  {
  }

  /** What has been written: the layout of the route so far, whose last separator may be the terminator at the end. */
  ghost predicate Written(path: string, layout: string, end: Option<char>) {
    && |layout| <= |path|
    && forall i :: 0 <= i < |layout| ==> path[i] == layout[i] || (i == |layout| - 1 && end == Some(path[i]))
  }

  /** The part of the path from `src` is as it was, and so is all that comes after the path. */
  ghost predicate Unread(path: string, original: string, len: nat, src: nat) {
    && |path| == |original| && src <= len + 1 <= |original|
    && forall i :: (src <= i || len <= i) && i < |original| ==> path[i] == original[i]
  }

  /** The path after `n` characters have been copied from `src` to `dst`, one by one. */
  ghost predicate Copied(before: string, after: string, src: nat, dst: nat, n: nat) {
    && dst <= src && src + n <= |before| && |after| == |before|
    && (forall i {:trigger after[i]} :: 0 <= i < |after| && !(dst <= i < dst + n) ==> after[i] == before[i])
    && (forall i {:trigger after[i]} :: dst <= i < dst + n ==> after[i] == before[src + (i - dst)])
  }

  lemma {:induction false} UnreadCopy(before: string, after: string, original: string, len: nat, src: nat, dst: nat,
                                      n: nat)
    requires Unread(before, original, len, src) && Copied(before, after, src, dst, n) && src + n <= len + 1
    ensures Unread(after, original, len, src + n)
  {
    forall i | (src + n <= i || len <= i) && i < |original|
      ensures after[i] == original[i]
    {
      if dst <= i < dst + n {
        assert i == len && dst == src && after[i] == before[src + (i - dst)];
      }
    }
  }

  /** A component is written with the separator or terminator that follows it. */
  lemma {:induction false} WrittenCopy(
    before: string, after: string, layout: string, src: nat, c: string, end: Option<char>)
    requires Written(before, layout, None) && Copied(before, after, src, |layout|, |c| + 1)
    requires before[src..src + |c|] == c && (before[src + |c|] == '/' || end == Some(before[src + |c|]))
    ensures Written(after, layout + c + "/", end)
  {
    forall i | 0 <= i < |layout| + |c| + 1
      ensures after[i] == (layout + c + "/")[i] || (i == |layout| + |c| && end == Some(after[i]))
    {
      if |layout| <= i < |layout| + |c| {
        assert after[i] == before[src + (i - |layout|)] == before[src..src + |c|][i - |layout|];
      } else if i == |layout| + |c| {
        assert after[i] == before[src + (i - |layout|)];
      }
    }
  }

  lemma {:induction false} LayoutFollow(root: bool, r: Route, c: string)
    requires IsName(c) || (IsUp(c) && r.names == [])
    ensures Layout(root, Follow(r, c)) == Layout(root, r) + c + "/"
  {
    if IsUp(c) {
      assert c == "..";
      LayoutUp(root, r.ups);
    } else {
      LayoutPush(root, r, c);
    }
  }

  /** Dropping the last name leaves the start of what has been written. */
  lemma {:induction false} WrittenBack(path: string, root: bool, r: Route)
    requires Written(path, Layout(root, r), None) && r.names != []
    ensures Written(path, Layout(root, Follow(r, "..")), None)
    ensures |Layout(root, Follow(r, ".."))| <= |Layout(root, r)|
  {
    var shorter, last := Follow(r, ".."), r.names[|r.names| - 1];
    assert r.names == shorter.names + [last];
    LayoutPush(root, shorter, last);
  }

  /** All that is known between two components. */
  ghost predicate Scanning(path: string, original: string, s: string, src: nat, dst: nat, components: seq<nat>,
                           root: bool, r: Route, goal: (Route, bool)) {
    && Unread(path, original, |s|, src) && s == original[..|s|]
    && dst <= src && dst == |Layout(root, r)|
    && Written(path, Layout(root, r), if src > |s| && r != HERE then Some(original[|s|]) else None)
    && Offsets(components, root, r)
    && Leads(s, src, r, goal)
  }

  lemma {:induction false} ScanningSkip(path: string, original: string, s: string, src: nat, dst: nat,
                                        components: seq<nat>, root: bool, r: Route, next: nat, goal: (Route, bool))
    requires Scanning(path, original, s, src, dst, components, root, r, goal) && src < |s|
    requires (s[src] == '/' && next == src + 1) || (ComponentAt(s, src, ".") && next == src + 2)
    ensures Scanning(path, original, s, next, dst, components, root, r, goal)
  {
    if s[src] == '/' {
      LeadsOver(s, src, r, goal);
    } else {
      LeadsThrough(s, src, ".", r, next, goal);
    }
  }

  lemma {:induction false} ScanningBack(path: string, original: string, s: string, src: nat, dst: nat,
                                        components: seq<nat>, root: bool, r: Route, goal: (Route, bool),
                                        next: nat, start: nat, popped: seq<nat>, shorter: Route)
    requires Scanning(path, original, s, src, dst, components, root, r, goal) && src < |s|
    requires ComponentAt(s, src, "..") && components != []
    requires next == src + 3 && shorter == Follow(r, "..")
    requires start == components[|components| - 1] && popped == components[..|components| - 1]
    ensures Scanning(path, original, s, next, start, popped, root, shorter, goal)
  {
    LeadsThrough(s, src, "..", r, next, goal);
    OffsetsPop(components, root, r);
    WrittenBack(path, root, r);
  }

  lemma {:induction false} UnreadComponent(before: string, original: string, s: string, src: nat, c: string)
    requires Unread(before, original, |s|, src) && s == original[..|s|] && ComponentAt(s, src, c)
    ensures before[src..src + |c|] == c && (src + |c| < |s| ==> before[src + |c|] == '/')
  {
    forall i | 0 <= i < |c|
      ensures before[src + i] == c[i]
    {
      assert c[i] == s[src..src + |c|][i];
    }
  }

  lemma {:induction false} WrittenComponent(before: string, after: string, original: string, s: string, src: nat,
                                            layout: string, c: string, next: nat)
    requires Unread(before, original, |s|, src) && s == original[..|s|]
    requires src < |s| && ComponentAt(s, src, c) && next == src + |c| + 1
    requires Written(before, layout, None) && Copied(before, after, src, |layout|, |c| + 1)
    ensures Written(after, layout + c + "/", if next > |s| then Some(original[|s|]) else None)
  {
    UnreadComponent(before, original, s, src, c);
    WrittenCopy(before, after, layout, src, c, if next > |s| then Some(original[|s|]) else None);
  }

  lemma {:induction false} ScanningCopy(before: string, after: string, original: string, s: string, src: nat, dst: nat,
                                        components: seq<nat>, root: bool, r: Route, c: string, next: nat,
                                        pushed: seq<nat>, goal: (Route, bool))
    requires Scanning(before, original, s, src, dst, components, root, r, goal) && src < |s|
    requires ComponentAt(s, src, c) && next == src + |c| + 1 && Copied(before, after, src, dst, |c| + 1)
    requires (IsName(c) && |r.names| < MAX_COMPONENTS) || (IsUp(c) && r.names == [])
    requires Offsets(pushed, root, Follow(r, c))
    ensures Scanning(after, original, s, next, dst + |c| + 1, pushed, root, Follow(r, c), goal)
  {
    LeadsThrough(s, src, c, r, next, goal);
    LayoutFollow(root, r, c);
    UnreadCopy(before, after, original, |s|, src, dst, |c| + 1);
    WrittenComponent(before, after, original, s, src, Layout(root, r), c, next);
  }

  method CopyOne(path: array<char>, dst: nat, src: nat, ghost before: string, ghost start: nat, ghost from: nat)
    requires from <= src < path.Length && dst == start + (src - from) && start <= from
    requires Copied(before, path[..], from, start, src - from)
    modifies path
    ensures Copied(before, path[..], from, start, src + 1 - from)
    ensures src + 1 < path.Length ==> path[src + 1] == before[src + 1]
  {
    assert path[..][src] == before[src];
    ghost var middle := path[..];
    path[dst] := path[src];
    assert path[..] == middle[dst := before[src]];
    if src + 1 < path.Length {
      assert path[..][src + 1] == middle[src + 1];
    }
  }

  /** Copies up to the end of a component, and the character after it. */
  method CopyName(path: array<char>, start: nat, from: nat, end: nat)
    returns (dst: nat, src: nat, ghost k: nat)
    requires start <= from < end < path.Length && path[from] != '/'
    modifies path
    ensures 0 < k && from + k <= end && src == from + k + 1 && dst == start + k + 1
    ensures Copied(old(path[..]), path[..], from, start, k + 1)
    ensures '/' !in old(path[..])[from..from + k] && (from + k < end ==> old(path[..])[from + k] == '/')
  {
    dst, src := start, from;
    while path[src] != '/' && src != end
      invariant from <= src <= end && dst == start + (src - from)
      invariant Copied(old(path[..]), path[..], from, start, src - from)
      invariant '/' !in old(path[..])[from..src]
      invariant path[src] == old(path[..])[src]
      decreases end - src
    {
      assert old(path[..])[from..src + 1] == old(path[..])[from..src] + [old(path[..])[src]];
      CopyOne(path, dst, src, old(path[..]), start, from);
      dst, src := dst + 1, src + 1;
    }
    k := src - from;
    CopyOne(path, dst, src, old(path[..]), start, from);
    dst, src := dst + 1, src + 1;
  }

  lemma {:induction false} ScanningUp(before: string, after: string, original: string, s: string, src: nat, dst: nat,
                                      root: bool, r: Route, goal: (Route, bool))
    requires Scanning(before, original, s, src, dst, [], root, r, goal) && src < |s|
    requires ComponentAt(s, src, "..") && Copied(before, after, src, dst, 3)
    ensures Scanning(after, original, s, src + 3, dst + 3, [], root, Follow(r, ".."), goal)
  {
    ScanningCopy(before, after, original, s, src, dst, [], root, r, "..", src + 3, [], goal);
  }

  /** Keeps a ".." in the result. */
  method KeepUp(path: array<char>, start: nat, from: nat, components: array<nat>, ghost original: string,
                ghost s: string, ghost root: bool, ghost r: Route, ghost goal: (Route, bool))
    returns (dst: nat, src: nat, newCount: nat, ghost next: Route)
    requires components as object != path
    requires Scanning(path[..], original, s, from, start, components[..0], root, r, goal)
    requires from < |s| && ComponentAt(s, from, "..")
    modifies path
    ensures newCount == 0 && src == from + 3 && next == Follow(r, "..")
    ensures Scanning(path[..], original, s, src, dst, components[..newCount], root, next, goal)
  {
    dst, src := start, from;
    CopyOne(path, dst, src, old(path[..]), start, from);
    dst, src := dst + 1, src + 1;
    CopyOne(path, dst, src, old(path[..]), start, from);
    dst, src := dst + 1, src + 1;
    CopyOne(path, dst, src, old(path[..]), start, from);
    dst, src := dst + 1, src + 1;
    ScanningUp(old(path[..]), path[..], original, s, from, start, root, r, goal);
    newCount := 0;
    next := Follow(r, "..");
  }

  lemma {:induction false} NameAt(before: string, original: string, s: string, src: nat, k: nat) returns (c: string)
    requires Unread(before, original, |s|, src) && s == original[..|s|] && 0 < k && src + k <= |s|
    requires !ComponentAt(s, src, ".") && !ComponentAt(s, src, "..")
    requires '/' !in before[src..src + k] && (src + k < |s| ==> before[src + k] == '/')
    ensures ComponentAt(s, src, c) && IsName(c) && |c| == k
  {
    c := s[src..src + k];
    assert before[src..src + k] == c;
    assert IsDot(c) ==> c == ".";
    assert IsUp(c) ==> c == "..";
  }

  /** Goes back to where the last name starts. */
  method DropName(path: array<char>, to: nat, from: nat, components: array<nat>, count: nat, ghost original: string,
                  ghost s: string, ghost root: bool, ghost r: Route, ghost goal: (Route, bool))
    returns (dst: nat, src: nat, newCount: nat, ghost next: Route)
    requires 0 < count <= components.Length
    requires Scanning(path[..], original, s, from, to, components[..count], root, r, goal)
    requires from < |s| && ComponentAt(s, from, "..")
    ensures newCount == count - 1 && src == from + 3 && next == Follow(r, "..")
    ensures Scanning(path[..], original, s, src, dst, components[..newCount], root, next, goal)
  {
    ghost var offsets := components[..count];
    dst := components[count - 1];
    src := from + 3;
    newCount := count - 1;
    next := Follow(r, "..");
    assert components[..newCount] == offsets[..newCount];
    ScanningBack(
      path[..], original, s, from, to, offsets, root, r, goal, src, dst, components[..newCount], next);
  }

  /** Goes up: by dropping the last name, or by keeping the "..". */
  method ScanUp(path: array<char>, to: nat, from: nat, components: array<nat>, count: nat,
                ghost original: string, ghost s: string, ghost root: bool, ghost r: Route, ghost goal: (Route, bool))
    returns (dst: nat, src: nat, newCount: nat, ghost next: Route)
    requires count <= components.Length && components as object != path
    requires Scanning(path[..], original, s, from, to, components[..count], root, r, goal)
    requires from < |s| && ComponentAt(s, from, "..")
    modifies path
    ensures newCount <= count && src == from + 3 && next == Follow(r, "..")
    ensures Scanning(path[..], original, s, src, dst, components[..newCount], root, next, goal)
  {
    if count > 0 {
      dst, src, newCount, next := DropName(path, to, from, components, count, original, s, root, r, goal);
    } else {
      dst, src, newCount, next := KeepUp(path, to, from, components, original, s, root, r, goal);
    }
  }

  /** Copies a name to the result, and remembers where it starts. */
  method ScanName(path: array<char>, to: nat, from: nat, len: nat, components: array<nat>, count: nat,
                  ghost original: string, ghost s: string, ghost root: bool, ghost r: Route, ghost goal: (Route, bool))
    returns (dst: nat, src: nat, newCount: nat, ghost next: Route)
    requires count < components.Length == MAX_COMPONENTS && components as object != path
    requires Scanning(path[..], original, s, from, to, components[..count], root, r, goal)
    requires from < len == |s| && s[from] != '/' && !ComponentAt(s, from, ".") && !ComponentAt(s, from, "..")
    modifies path, components
    ensures newCount == count + 1 && src > from
    ensures Scanning(path[..], original, s, src, dst, components[..newCount], root, next, goal)
  {
    ghost var offsets, before, k := components[..count], path[..], 0;
    components[count] := to;
    newCount := count + 1;
    assert path[..] == before;
    dst, src, k := CopyName(path, to, from, len);
    ghost var c := NameAt(before, original, s, from, k);
    OffsetsPush(offsets, root, r, c, to);
    ghost var pushed := components[..newCount];
    assert pushed == offsets + [to];
    ScanningCopy(before, path[..], original, s, from, to, offsets, root, r, c, src, pushed, goal);
    next := Follow(r, c);
  }

  datatype Piece = Dot | Up | Separator | Name

  /** What `s` goes on with. */
  ghost predicate GoesOn(s: string, src: nat, piece: Piece) {
    src < |s| &&
    match piece
    case Dot => ComponentAt(s, src, ".")
    case Up => ComponentAt(s, src, "..")
    case Separator => s[src] == '/'
    case Name => s[src] != '/' && !ComponentAt(s, src, ".") && !ComponentAt(s, src, "..")
  }

  method Look(path: array<char>, len: nat, src: nat, ghost original: string, ghost s: string) returns (piece: Piece)
    requires Unread(path[..], original, len, src) && s == original[..len] && src < len == |s|
    ensures GoesOn(s, src, piece)
  {
    DotsAt(s, src);
    assert forall i :: src <= i < path.Length ==> path[..][i] == original[i];
    if path[src] == '.' {
      if src + 1 == len || path[src + 1] == '/' {
        return Dot;
      } else if path[src + 1] == '.' && (src + 2 == len || path[src + 2] == '/') {
        return Up;
      }
    }
    return if path[src] == '/' then Separator else Name;
  }

  /** Goes past one component or separator. Fails when there is no room for another name. */
  method ScanNext(path: array<char>, len: nat, to: nat, from: nat, components: array<nat>, count: nat,
                  ghost original: string, ghost s: string, ghost root: bool, ghost r: Route, ghost goal: (Route, bool))
    returns (ok: bool, dst: nat, src: nat, newCount: nat, ghost next: Route)
    requires count <= components.Length == MAX_COMPONENTS && components as object != path
    requires Scanning(path[..], original, s, from, to, components[..count], root, r, goal) && from < len == |s|
    modifies path, components
    ensures if ok then
        && src > from && newCount <= MAX_COMPONENTS
        && Scanning(path[..], original, s, src, dst, components[..newCount], root, next, goal)
      else
        !goal.1 && path[..] == old(path[..])
  {
    ok, dst, src, newCount, next := true, to, from, count, r;
    var piece := Look(path, len, from, original, s);
    match piece {
      case Dot =>
        src := from + 2;
        ScanningSkip(path[..], original, s, from, to, components[..count], root, r, src, goal);
      case Up =>
        dst, src, newCount, next := ScanUp(path, to, from, components, count, original, s, root, r, goal);
      case Separator =>
        src := from + 1;
        ScanningSkip(path[..], original, s, from, to, components[..count], root, r, src, goal);
      case Name =>
        if count == MAX_COMPONENTS {
          TooMany(s, from, r, goal);
          ok := false;
        } else {
          dst, src, newCount, next := ScanName(path, to, from, len, components, count, original, s, root, r, goal);
        }
    }
  }

  /** Goes through the components of a path. */
  method Scan(path: array<char>, len: nat, start: nat, ghost s: string, ghost root: bool, ghost goal: (Route, bool))
    returns (ok: bool, dst: nat, componentCount: nat, ghost src: nat, ghost r: Route)
    requires start <= len == |s| < path.Length
    requires Scanning(path[..], path[..], s, start, start, [], root, HERE, goal)
    modifies path
    ensures Unread(path[..], old(path[..]), len, len)
    ensures ok == goal.1 && (ok ==> r == goal.0 && componentCount == |r.names|)
    ensures ok ==> dst == |Layout(root, r)| && dst <= src <= len + 1
    ensures ok ==> Written(path[..], Layout(root, r), if r != HERE then Some(old(path[len])) else None)
  {
    var components := new nat[MAX_COMPONENTS];
    componentCount, dst, r, ok := 0, start, HERE, true;
    var next := start;
    ghost var original := path[..];
    assert components[..0] == [];
    while next < len
      invariant componentCount <= MAX_COMPONENTS
      invariant Scanning(path[..], original, s, next, dst, components[..componentCount], root, r, goal)
      decreases len - next
    {
      ok, dst, next, componentCount, r :=
        ScanNext(path, len, dst, next, components, componentCount, original, s, root, r, goal);
      if !ok {
        src := next;
        return;
      }
    }
    LeadsEnd(s, next, r, goal);
    ok, src := true, next;
  }

  lemma {:induction false} TooMany(s: string, src: nat, r: Route, goal: (Route, bool))
    requires Leads(s, src, r, goal) && |r.names| == MAX_COMPONENTS
    requires src < |s| && s[src] != '/' && !ComponentAt(s, src, ".") && !ComponentAt(s, src, "..")
    ensures !goal.1
  {
    var k := NameLength(s[src..]);
    assert s[src..][..k] == s[src..src + k];
    var c := s[src..src + k];
    assert IsDot(c) ==> c == ".";
    assert IsUp(c) ==> c == "..";
    LeadsThrough(s, src, c, r, src + k + 1, goal);
  }

  /** What a path is cut down to. Without a name, a kept ".." keeps the separator or the terminator after it. */
  ghost predicate Finished(result: string, root: bool, r: Route, terminator: char) {
    if r == HERE || r.names != [] then result == Render(root, r)
    else result == Render(root, r) + "/" || result == Render(root, r) + [terminator]
  }

  lemma {:induction false} ScanningStarts(original: string, s: string, start: nat)
    requires 0 < |s| < |original| && s == original[..|s|] && start == if original[0] == '/' then 1 else 0
    ensures Scanning(original, original, s, start, start, [], original[0] == '/', HERE, Outcome(HERE, Split(s)))
  {
    assert Rest(s, 0) == s;
    if start == 1 {
      LeadsOver(s, 0, HERE, Outcome(HERE, Split(s)));
    }
  }

  lemma {:induction false} FinishScan(path: string, root: bool, r: Route, newLen: int, terminator: char)
    requires Written(path, Layout(root, r), if r != HERE then Some(terminator) else None)
    requires newLen == |Layout(root, r)| - if r.names != [] then 1 else 0
    ensures 0 <= newLen <= |path| && Finished(path[..newLen], root, r, terminator)
  {
    if r != HERE {
      LayoutNotEmpty(root, r);
      assert path[..|Layout(root, r)| - 1] == Render(root, r);
      assert path[..newLen][..|Layout(root, r)| - 1] == path[..|Layout(root, r)| - 1];
    } else {
      assert path[..newLen] == Render(root, r);
    }
  }

  /**
   * Makes the path in `path[..len]` canonical, or gives up when it has too many components. `path[len]` is the
   * terminator.
   */
  method CanonicalizePath(path: array<char>, len: nat) returns (ok: bool, newLen: nat)
    requires len < path.Length
    modifies path
    ensures path[len..] == old(path[len..])
    ensures ok <==> Fits(HERE, Split(old(path[..len])))
    ensures ok ==> newLen <= len + 1
    ensures ok ==>
      Finished(path[..newLen], IsAbsolute(old(path[..len])), RouteOf(old(path[..len])), old(path[len]))
  {
    if len == 0 {
      assert path[..0] == [];
      return true, 0;
    }
    ghost var s, root := path[..len], path[0] == '/';
    ghost var src, r;
    var start, dst, componentCount := 0, 0, 0;
    if path[0] == '/' {
      start := 1;
    }
    assert path[..][..len] == s;
    ScanningStarts(path[..], s, start);
    ok, dst, componentCount, src, r := Scan(path, len, start, s, root, Outcome(HERE, Split(s)));
    assert path[len..] == old(path[len..]);
    if !ok {
      return false, len;
    }
    if dst == 0 {
      newLen := 0;
    } else {
      newLen := dst - if componentCount > 0 then 1 else 0;
    }
    FinishScan(path[..], root, r, newLen, old(path[len]));
    assert path[..][..newLen] == path[..newLen];
    return true, newLen;
  }

  /** A canonical path, or nothing when there are too many components. */
  method CanonicalizeString(path: string) returns (result: Option<string>)
    ensures result.Some? <==> Fits(HERE, Split(path))
    ensures result.Some? ==> (result.value == Canonical(path) <==> RouteOf(path).ups == 0 || RouteOf(path).names != [])
    ensures result.Some? && result.value != Canonical(path) ==>
      result.value == Canonical(path) + "/" || result.value == Canonical(path) + "\0"
  {
    var buffer := new char[|path| + 1](i requires i >= 0 => if i < |path| then path[i] else '\0');
    assert buffer[..|path|] == path;
    var len := |path|;
    var ok := true;
    if len > 0 {
      ok, len := CanonicalizePath(buffer, len);
    }
    if !ok {
      return None;
    }
    if len == 0 {
      return Some(".");
    }
    return Some(buffer[..len]);
  }

  /** Going up and nothing else is such a path: what is returned for it is longer than what it should be. */
  method CanonicalizeUp() returns (result: Option<string>)
    ensures result == Some("../") || result == Some("..\0")
    ensures Canonical("..") == ".."
  {
    result := CanonicalizeString("..");
    UpRoute();
    assert ".." + "/" == "../" && ".." + "\0" == "..\0";
  }

  lemma {:induction false} UpRoute()
    ensures Fits(HERE, Split("..")) && RouteOf("..") == Route(1, []) && Canonical("..") == ".."
  {
    SplitComponent("..");
    assert [".."][1..] == [];
    assert Ups(1) == Ups(0) + "../";
    assert Layout(false, Route(1, [])) == "../";
  }
}
