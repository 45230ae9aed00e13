/** How many edits it takes to turn one string into another. */
module EditDistances {
  import opened Options

  datatype Edit = Keep | Insert(c: char) | Delete | Replace(c: char)

  /** What a script makes of a string. Its last edit concerns the end of the string. */
  ghost function Result(script: seq<Edit>, a: string): Option<string>
    decreases |script|
  {
    if script == [] then
      if a == [] then Some([]) else None
    else
      var edit, rest := script[|script| - 1], script[..|script| - 1];
      if edit.Insert? then Append(Result(rest, a), edit.c)
      else if a == [] then None
      else
        var r := Result(rest, a[..|a| - 1]);
        match edit
        case Keep => Append(r, a[|a| - 1])
        case Delete => r
        case Replace(c) => Append(r, c)
  }

  ghost function Append(s: Option<string>, c: char): Option<string> {
    if s.None? then None else Some(s.value + [c])
  }

  ghost function Cost(script: seq<Edit>): nat {
    if script == [] then 0
    else Cost(script[..|script| - 1]) + if script[|script| - 1].Keep? then 0 else 1
  }

  ghost predicate Allowed(script: seq<Edit>, allowReplacements: bool) {
    allowReplacements || forall i :: 0 <= i < |script| ==> !script[i].Replace?
  }

  function Min(a: int, b: int): int {
    if a < b then a else b
  }

  /** The distance between the first `i` characters of `a` and the first `j` of `b`, by cases on their ends. */
  ghost function Dist(a: string, b: string, allowReplacements: bool, i: nat, j: nat): nat
    requires i <= |a| && j <= |b|
    decreases i + j
  {
    if i == 0 then j
    else if j == 0 then i
    else
      var shorter := Min(Dist(a, b, allowReplacements, i, j - 1), Dist(a, b, allowReplacements, i - 1, j)) + 1;
      if a[i - 1] == b[j - 1] then
        if allowReplacements then Min(Dist(a, b, allowReplacements, i - 1, j - 1), shorter)
        else Dist(a, b, allowReplacements, i - 1, j - 1)
      else if allowReplacements then Min(Dist(a, b, allowReplacements, i - 1, j - 1) + 1, shorter)
      else shorter
  }

  ghost function Distance(a: string, b: string, allowReplacements: bool): nat {
    Dist(a, b, allowReplacements, |a|, |b|)
  }

  /** A character more or less makes a difference of at most one. */
  lemma {:induction false} Near(a: string, b: string, rep: bool, i: nat, j: nat)
    requires i <= |a| && j <= |b|
    ensures i > 0 ==> -1 <= Dist(a, b, rep, i - 1, j) - Dist(a, b, rep, i, j) <= 1
    ensures j > 0 ==> -1 <= Dist(a, b, rep, i, j - 1) - Dist(a, b, rep, i, j) <= 1
    decreases i + j
  {
    if i > 0 {
      Near(a, b, rep, i - 1, j);
    }
    if j > 0 {
      Near(a, b, rep, i, j - 1);
    }
    if i > 0 && j > 0 {
      NearStep(a, b, rep, i, j);
    }
  }

  lemma {:induction false} NearStep(a: string, b: string, rep: bool, i: nat, j: nat)
    requires 0 < i <= |a| && 0 < j <= |b|
    requires -1 <= Dist(a, b, rep, i - 1, j - 1) - Dist(a, b, rep, i - 1, j) <= 1
    requires -1 <= Dist(a, b, rep, i - 1, j - 1) - Dist(a, b, rep, i, j - 1) <= 1
    ensures -1 <= Dist(a, b, rep, i - 1, j) - Dist(a, b, rep, i, j) <= 1
    ensures -1 <= Dist(a, b, rep, i, j - 1) - Dist(a, b, rep, i, j) <= 1
  {
    var corner, left, above :=
      Dist(a, b, rep, i - 1, j - 1), Dist(a, b, rep, i, j - 1), Dist(a, b, rep, i - 1, j);
    assert Dist(a, b, rep, i, j) == FromNeighbours(rep, a[i - 1] == b[j - 1], corner, left, above);
  }

  /** An entry of the table, from the entries above to the left, to the left, and above. */
  ghost function FromNeighbours(rep: bool, same: bool, corner: int, left: int, above: int): int {
    if rep then Min(corner + (if same then 0 else 1), Min(left, above) + 1)
    else if same then corner
    else Min(left, above) + 1
  }

  lemma {:induction false} ScriptAppend(script: seq<Edit>, edit: Edit)
    ensures Cost(script + [edit]) == Cost(script) + if edit.Keep? then 0 else 1
    ensures (script + [edit])[..|script|] == script
  {
  }

  /** What the last edit of a script does. */
  lemma {:induction false} ResultAppend(rest: seq<Edit>, edit: Edit, a: string, b: string, i: nat, j: nat)
    requires i <= |a| && j <= |b|
    requires (!edit.Insert? ==> i > 0) && (!edit.Delete? ==> j > 0)
    requires Result(rest, a[..if edit.Insert? then i else i - 1]) == Some(b[..if edit.Delete? then j else j - 1])
    requires edit.Insert? || edit.Replace? ==> edit.c == b[j - 1]
    requires edit.Keep? ==> a[i - 1] == b[j - 1]
    ensures Result(rest + [edit], a[..i]) == Some(b[..j])
  {
    ScriptAppend(rest, edit);
    assert !edit.Insert? ==> a[..i][..i - 1] == a[..i - 1];
    assert !edit.Delete? ==> b[..j - 1] + [b[j - 1]] == b[..j];
  }

  /** The last edit of a cheapest script. */
  ghost function LastEdit(a: string, b: string, rep: bool, i: nat, j: nat): Edit
    requires i <= |a| && j <= |b| && i + j > 0
  {
    var d := Dist(a, b, rep, i, j);
    if j > 0 && (i == 0 || d == Dist(a, b, rep, i, j - 1) + 1) then Insert(b[j - 1])
    else if i > 0 && (j == 0 || d == Dist(a, b, rep, i - 1, j) + 1) then Delete
    else if a[i - 1] == b[j - 1] && d == Dist(a, b, rep, i - 1, j - 1) then Keep
    else Replace(b[j - 1])
  }

  lemma {:induction false} LastEditCost(a: string, b: string, rep: bool, i: nat, j: nat)
    requires i <= |a| && j <= |b| && i + j > 0
    ensures
      var edit := LastEdit(a, b, rep, i, j);
      && (!edit.Insert? ==> i > 0) && (!edit.Delete? ==> j > 0) && (edit.Replace? ==> rep)
      && (edit.Insert? || edit.Replace? ==> edit.c == b[j - 1]) && (edit.Keep? ==> a[i - 1] == b[j - 1])
      && Dist(a, b, rep, i, j) ==
           Dist(a, b, rep, if edit.Insert? then i else i - 1, if edit.Delete? then j else j - 1) +
           if edit.Keep? then 0 else 1
  {
  }

  /** There is a script of that cost. */
  lemma {:induction false} BestScript(a: string, b: string, rep: bool, i: nat, j: nat) returns (script: seq<Edit>)
    requires i <= |a| && j <= |b|
    ensures Result(script, a[..i]) == Some(b[..j]) && Allowed(script, rep) && Cost(script) == Dist(a, b, rep, i, j)
    decreases i + j
  {
    if i == 0 && j == 0 {
      script := [];
    } else {
      var edit := LastEdit(a, b, rep, i, j);
      LastEditCost(a, b, rep, i, j);
      var rest := BestScript(a, b, rep, if edit.Insert? then i else i - 1, if edit.Delete? then j else j - 1);
      script := rest + [edit];
      ScriptAppend(rest, edit);
      ResultAppend(rest, edit, a, b, i, j);
    }
  }

  /** What the script without its last edit does. */
  lemma {:induction false} ResultDrop(script: seq<Edit>, a: string, b: string, i: nat, j: nat)
    requires i <= |a| && j <= |b| && script != [] && Result(script, a[..i]) == Some(b[..j])
    ensures
      var edit, rest := script[|script| - 1], script[..|script| - 1];
      && (!edit.Insert? ==> i > 0) && (!edit.Delete? ==> j > 0)
      && (edit.Keep? ==> a[i - 1] == b[j - 1])
      && Result(rest, a[..if edit.Insert? then i else i - 1]) == Some(b[..if edit.Delete? then j else j - 1])
  {
    var edit, rest := script[|script| - 1], script[..|script| - 1];
    assert i > 0 ==> a[..i][..i - 1] == a[..i - 1];
    var r := Result(rest, a[..if edit.Insert? then i else i - 1]);
    if !edit.Delete? {
      assert b[..j][..j - 1] == b[..j - 1] == r.value;
    }
  }

  /** One more edit makes up for at most one of the distance. */
  lemma {:induction false} EditIsStep(a: string, b: string, rep: bool, i: nat, j: nat, edit: Edit)
    requires i <= |a| && j <= |b| && (!edit.Insert? ==> i > 0) && (!edit.Delete? ==> j > 0)
    requires (edit.Keep? ==> a[i - 1] == b[j - 1]) && (edit.Replace? ==> rep)
    ensures
      Dist(a, b, rep, i, j) <=
        Dist(a, b, rep, if edit.Insert? then i else i - 1, if edit.Delete? then j else j - 1) +
        if edit.Keep? then 0 else 1
  {
    Near(a, b, rep, i, j);
  }

  /** There is no script of lower cost. */
  lemma {:induction false} NoBetterScript(a: string, b: string, rep: bool, i: nat, j: nat, script: seq<Edit>)
    requires i <= |a| && j <= |b|
    requires Result(script, a[..i]) == Some(b[..j]) && Allowed(script, rep)
    ensures Cost(script) >= Dist(a, b, rep, i, j)
    decreases |script|
  {
    if script == [] {
      assert i == |a[..i]| == 0 && j == |b[..j]| == 0;
    } else {
      var edit, rest := script[|script| - 1], script[..|script| - 1];
      ResultDrop(script, a, b, i, j);
      NoBetterScript(a, b, rep, if edit.Insert? then i else i - 1, if edit.Delete? then j else j - 1, rest);
      EditIsStep(a, b, rep, i, j, edit);
    }
  }

  ghost predicate Turns(script: seq<Edit>, a: string, b: string, allowReplacements: bool) {
    Result(script, a) == Some(b) && Allowed(script, allowReplacements)
  }

  /** The distance is the lowest cost of a script that turns one string into the other. */
  lemma {:induction false} CheapestScript(a: string, b: string, allowReplacements: bool) returns (script: seq<Edit>)
    ensures Turns(script, a, b, allowReplacements) && Cost(script) == Distance(a, b, allowReplacements)
    ensures forall other :: Turns(other, a, b, allowReplacements) ==> Cost(script) <= Cost(other)
  {
    assert a[..|a|] == a && b[..|b|] == b;
    script := BestScript(a, b, allowReplacements, |a|, |b|);
    forall other | Turns(other, a, b, allowReplacements)
      ensures Cost(script) <= Cost(other)
    {
      NoBetterScript(a, b, allowReplacements, |a|, |b|, other);
    }
  }

  /** All entries of a row of the table are above a limit. */
  ghost predicate Above(a: string, b: string, rep: bool, i: nat, limit: int)
    requires i <= |a|
  {
    forall j: nat {:trigger Dist(a, b, rep, i, j)} :: j <= |b| ==> Dist(a, b, rep, i, j) > limit
  }

  lemma {:induction false} AboveNext(a: string, b: string, rep: bool, i: nat, limit: int, j: nat)
    requires i < |a| && j <= |b| && Above(a, b, rep, i, limit)
    ensures Dist(a, b, rep, i + 1, j) > limit
  {
    assert Dist(a, b, rep, i, j) > limit;
    if j > 0 {
      assert Dist(a, b, rep, i, j - 1) > limit;
      AboveNext(a, b, rep, i, limit, j - 1);
    } else {
      assert Dist(a, b, rep, i, 0) == i;
    }
  }

  /** Once a whole row is above the limit, the distance is as well. */
  lemma {:induction false} AboveToTheEnd(a: string, b: string, rep: bool, i: nat, limit: int)
    requires i <= |a| && Above(a, b, rep, i, limit)
    ensures Distance(a, b, rep) > limit
    decreases |a| - i
  {
    if i < |a| {
      var next := i + 1;
      forall j: nat | j <= |b|
        ensures Dist(a, b, rep, next, j) > limit
      {
        AboveNext(a, b, rep, i, limit, j);
      }
      AboveToTheEnd(a, b, rep, i + 1, limit);
    }
  }

  /** The contents of the row, of which the first `n` entries are those of row `y` and the others of the one before. */
  ghost predicate Row(row: seq<int>, a: string, b: string, rep: bool, y: nat, n: nat)
    requires 0 < y <= |a|
  {
    && |row| == |b| + 1
    && forall j: nat :: j <= |b| ==> row[j] == Dist(a, b, rep, if j < n then y else y - 1, j)
  }

  lemma {:induction false} RowNext(row: seq<int>, a: string, b: string, rep: bool, y: nat, n: nat)
    requires 0 < y <= |a| && n <= |b| && Row(row, a, b, rep, y, n)
    ensures Row(row[n := Dist(a, b, rep, y, n)], a, b, rep, y, n + 1)
  {
  }

  /** An entry is computed from the ones to the left, above, and above to the left. */
  method Cell(a: string, b: string, allowReplacements: bool, y: nat, x: nat, previous: int, left: int, above: int)
    returns (cell: int)
    requires 0 < y <= |a| && 0 < x <= |b| && previous == Dist(a, b, allowReplacements, y - 1, x - 1)
    requires left == Dist(a, b, allowReplacements, y, x - 1) && above == Dist(a, b, allowReplacements, y - 1, x)
    ensures cell == Dist(a, b, allowReplacements, y, x)
  {
    if allowReplacements {
      cell := Min(previous + (if a[y - 1] == b[x - 1] then 0 else 1), Min(left, above) + 1);
    } else {
      if a[y - 1] == b[x - 1] {
        cell := previous;
      } else {
        cell := Min(left, above) + 1;
      }
    }
  }

  /** The smallest entry of a row so far. */
  ghost predicate Best(a: string, b: string, rep: bool, y: nat, n: nat, best: int)
    requires y <= |a| && n <= |b| + 1
  {
    && (forall j: nat {:trigger Dist(a, b, rep, y, j)} :: j < n ==> best <= Dist(a, b, rep, y, j))
    && exists j: nat {:trigger Dist(a, b, rep, y, j)} :: j < n && best == Dist(a, b, rep, y, j)
  }

  lemma {:induction false} BestNext(a: string, b: string, rep: bool, y: nat, n: nat, best: int)
    requires y <= |a| && n <= |b| && Best(a, b, rep, y, n, best)
    ensures Best(a, b, rep, y, n + 1, Min(best, Dist(a, b, rep, y, n)))
  {
  }

  /** Updates a row of the table in place. */
  method NextRow(row: array<int>, a: string, b: string, allowReplacements: bool, y: nat) returns (bestThisRow: int)
    requires 0 < y <= |a| && Row(row[..], a, b, allowReplacements, y, 0)
    modifies row
    ensures Row(row[..], a, b, allowReplacements, y, |b| + 1)
    ensures Best(a, b, allowReplacements, y, |b| + 1, bestThisRow)
  {
    RowNext(row[..], a, b, allowReplacements, y, 0);
    row[0] := y;
    bestThisRow := row[0];
    assert bestThisRow == Dist(a, b, allowReplacements, y, 0);
    var previous := y - 1;
    for x := 1 to |b| + 1
      invariant Row(row[..], a, b, allowReplacements, y, x)
      invariant previous == Dist(a, b, allowReplacements, y - 1, x - 1)
      invariant Best(a, b, allowReplacements, y, x, bestThisRow)
    {
      ghost var before := row[..];
      var oldRow := row[x];
      assert before[x - 1] == row[x - 1] && before[x] == row[x];
      var cell := Cell(a, b, allowReplacements, y, x, previous, row[x - 1], row[x]);
      RowNext(before, a, b, allowReplacements, y, x);
      row[x] := cell;
      assert row[..] == before[x := cell];
      previous := oldRow;
      BestNext(a, b, allowReplacements, y, x, bestThisRow);
      bestThisRow := Min(bestThisRow, row[x]);
    }
  }

  /** A limit of zero means that there is none. */
  method EditDistance(a: string, b: string, allowReplacements: bool, maxEditDistance: int) returns (d: int)
    ensures maxEditDistance == 0 ==> d == Distance(a, b, allowReplacements)
    ensures maxEditDistance > 0 ==>
      if Distance(a, b, allowReplacements) <= maxEditDistance then d == Distance(a, b, allowReplacements)
      else maxEditDistance < d <= Distance(a, b, allowReplacements)
    ensures maxEditDistance < 0 ==> d == if a == [] then |b| else maxEditDistance + 1
  {
    var row := new int[|b| + 1](i => 0);
    for i := 1 to |b| + 1
      invariant forall j: nat :: j < i ==> row[j] == j
    {
      row[i] := i;
    }
    for y := 1 to |a| + 1
      invariant maxEditDistance < 0 ==> y == 1
      invariant y <= |a| ==> Row(row[..], a, b, allowReplacements, y, 0)
      invariant row[|b|] == Dist(a, b, allowReplacements, y - 1, |b|)
    {
      var bestThisRow := NextRow(row, a, b, allowReplacements, y);
      if maxEditDistance != 0 && bestThisRow > maxEditDistance {
        assert Above(a, b, allowReplacements, y, maxEditDistance);
        AboveToTheEnd(a, b, allowReplacements, y, maxEditDistance);
        return maxEditDistance + 1;
      }
      assert row[|b|] == row[..][|b|];
    }
    return row[|b|];
  }

  const MAX_VALID_EDIT_DISTANCE := 3

  /** The first of the closest words, if it is close enough. */
  method SpellcheckString(text: string, words: seq<string>) returns (result: Option<string>, ghost index: nat)
    ensures result.None? <==> forall j :: 0 <= j < |words| ==> Distance(words[j], text, true) > MAX_VALID_EDIT_DISTANCE
    ensures result.Some? ==>
      && index < |words| && result.value == words[index]
      && Distance(words[index], text, true) <= MAX_VALID_EDIT_DISTANCE
      && (forall j :: 0 <= j < |words| ==> Distance(words[index], text, true) <= Distance(words[j], text, true))
      && (forall j :: 0 <= j < index ==> Distance(words[index], text, true) < Distance(words[j], text, true))
  {
    var minDistance := MAX_VALID_EDIT_DISTANCE + 1;
    result, index := None, 0;
    for i := 0 to |words|
      invariant minDistance <= MAX_VALID_EDIT_DISTANCE + 1
      invariant result.None? <==> minDistance == MAX_VALID_EDIT_DISTANCE + 1
      invariant forall j :: 0 <= j < i ==> minDistance <= Distance(words[j], text, true)
      invariant result.Some? ==>
        && index < i && result.value == words[index] && minDistance == Distance(words[index], text, true)
        && forall j :: 0 <= j < index ==> minDistance < Distance(words[j], text, true)
    {
      var distance := EditDistance(words[i], text, true, MAX_VALID_EDIT_DISTANCE);
      if distance < minDistance {
        minDistance := distance;
        result, index := Some(words[i]), i;
      }
    }
  }
}
