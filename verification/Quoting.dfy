/** Words of a command line, as they are read back from what is written for them. */
module Quoting {
  import opened Options

  /** A word that may not have been started yet, with more characters. */
  ghost function Add(word: Option<string>, more: string): Option<string> {
    Some((if word.None? then [] else word.value) + more)
  }

  /** The words after one that may not have been started. */
  ghost function Then(word: Option<string>, words: Option<seq<string>>): Option<seq<string>> {
    if word.Some? && words.Some? then Some([word.value] + words.value) else words
  }

  /** Adding characters one after the other. */
  lemma {:induction false} AddMore(word: Option<string>, a: string, b: string)
    ensures Add(Add(word, a), b) == Add(word, a + b)
    ensures Add(None, a) == Some(a) && (word.Some? ==> Add(word, []) == word)
  {
    assert [] + a == a;
    if word.Some? {
      assert (word.value + a) + b == word.value + (a + b) && word.value + [] == word.value;
    } else {
      assert ([] + a) + b == [] + (a + b);
    }
  }

  ghost function After(words: seq<string>, more: Option<seq<string>>): Option<seq<string>> {
    if more.None? then None else Some(words + more.value)
  }

  lemma {:induction false} ThenAfter(word: Option<string>, words: seq<string>, more: Option<seq<string>>)
    ensures Then(word, more) == After(if word.Some? then [word.value] else [], more)
    ensures Then(word, After(words, more)) == After((if word.Some? then [word.value] else []) + words, more)
  {
    assert [] + words == words;
    if more.Some? {
      assert [] + more.value == more.value;
      if word.Some? {
        assert [word.value] + (words + more.value) == [word.value] + words + more.value;
      }
    }
  }

  lemma {:induction false} ThenNothing(word: Option<string>)
    ensures Then(word, Some([])) == if word.Some? then Some([word.value]) else Some([])
  {
    if word.Some? {
      assert [word.value] + [] == [word.value];
    }
  }

  ghost function NonEmpty(words: seq<string>): seq<string> {
    if words == [] then [] else (if words[0] == [] then [] else [words[0]]) + NonEmpty(words[1..])
  }

  lemma {:induction false} NonEmptyAppend(paths: seq<string>, path: string)
    ensures NonEmpty(paths + [path]) == NonEmpty(paths) + if path == [] then [] else [path]
  {
    if paths == [] {
      assert (paths + [path])[1..] == [];
    } else {
      assert (paths + [path])[1..] == paths[1..] + [path];
      NonEmptyAppend(paths[1..], path);
    }
  }

  lemma {:induction false} NonEmptyIsAll(words: seq<string>)
    ensures |NonEmpty(words)| <= |words|
    ensures NonEmpty(words) == words <==> forall i :: 0 <= i < |words| ==> words[i] != []
  {
    if words != [] {
      NonEmptyIsAll(words[1..]);
      assert words == [words[0]] + words[1..];
      if words[0] == [] {
        assert |NonEmpty(words)| < |words|;
      } else {
        assert NonEmpty(words)[1..] == NonEmpty(words[1..]);
        assert forall i :: 0 < i < |words| ==> words[i] == words[1..][i - 1];
      }
    }
  }
}

/** Quoting for a POSIX shell. */
module ShellQuoting {
  import opened Options
  import opened Quoting

  /** The characters that section 2.2 of the Shell Command Language chapter of POSIX reserves, unless quoted. */
  ghost predicate IsSpecial(c: char) {
    c in "|&;<>()$`\\\"' \t\n*?[#~=%"
  }

  /**
   * Splits a command into words, by the rules for backslashes and single quotes of sections 2.2.1 and 2.2.2. A command
   * in which another special character stands outside quotes is not considered.
   */
  ghost function Words(s: string, word: Option<string>, quoted: bool): Option<seq<string>>
    decreases |s|
  {
    if s == [] then
      if quoted then None else Then(word, Some([]))
    else if quoted then
      if s[0] == '\'' then Words(s[1..], word, false) else Words(s[1..], Add(word, [s[0]]), true)
    else if s[0] == '\'' then Words(s[1..], Add(word, []), true)
    else if s[0] == ' ' || s[0] == '\t' then Then(word, Words(s[1..], None, false))
    else if s[0] == '\\' then
      if |s| == 1 then None
      else if s[1] == '\n' then Words(s[2..], word, false)
      else Words(s[2..], Add(word, [s[1]]), false)
    else if IsSpecial(s[0]) then None
    else Words(s[1..], Add(word, [s[0]]), false)
  }

  predicate IsKnownSafe(c: char) {
    'A' <= c <= 'Z' || 'a' <= c <= 'z' || '0' <= c <= '9' || c in "_+-./"
  }

  lemma {:induction false} SafeIsNotSpecial(c: char)
    ensures IsKnownSafe(c) ==> !IsSpecial(c)
  {
  }

  ghost predicate AllSafe(s: string) {
    forall i :: 0 <= i < |s| ==> IsKnownSafe(s[i])
  }

  method NeedsEscaping(input: string) returns (needed: bool)
    ensures needed <==> !AllSafe(input)
  {
    for i := 0 to |input|
      invariant forall j :: 0 <= j < i ==> IsKnownSafe(input[j])
    {
      if !IsKnownSafe(input[i]) {
        return true;
      }
    }
    return false;
  }

  /** Between quotes, a quote ends them, stands on its own, and starts them again. */
  ghost function Body(s: string): string {
    if s == [] then [] else (if s[0] == '\'' then "'\\''" else [s[0]]) + Body(s[1..])
  }

  ghost function Escaped(s: string): string {
    if AllSafe(s) then s else "'" + Body(s) + "'"
  }

  method GetShellEscapedString(input: string, before: string) returns (result: string)
    ensures result == before + Escaped(input)
  {
    result := before;
    var needed := NeedsEscaping(input);
    if !needed {
      return result + input;
    }
    result := result + ['\''];
    var spanBegin := 0;
    assert result + input[0..0] + Body(input[0..]) == before + "'" + Body(input);
    for it := 0 to |input|
      invariant spanBegin <= it
      invariant result + input[spanBegin..it] + Body(input[it..]) == before + "'" + Body(input)
    {
      BodyNext(result, input, spanBegin, it);
      if input[it] == '\'' {
        result := result + input[spanBegin..it] + "'\\'";
        spanBegin := it;
      }
    }
    assert input[|input|..] == [] && input[spanBegin..|input|] == input[spanBegin..];
    result := result + input[spanBegin..] + ['\''];
    assert before + ("'" + Body(input) + "'") == (before + "'" + Body(input)) + "'";
  }

  /** Letters, digits, and a few other characters. */
  ghost predicate IsPlain(c: char) {
    c in {
      'A', 'B', 'C', 'D', 'E', 'F', 'G', 'H', 'I', 'J', 'K', 'L', 'M', 'N', 'O', 'P', 'Q', 'R', 'S', 'T', 'U',
      'V', 'W', 'X', 'Y', 'Z', 'a', 'b', 'c', 'd', 'e', 'f', 'g', 'h', 'i', 'j', 'k', 'l', 'm', 'n', 'o', 'p',
      'q', 'r', 's', 't', 'u', 'v', 'w', 'x', 'y', 'z',
      '0', '1', '2', '3', '4', '5', '6', '7', '8', '9', '_', '+', '-', '.', '/'}
  }

  lemma {:induction false} BodyIsLong(s: string)
    ensures |Body(s)| >= |s|
  {
    if s != [] {
      BodyIsLong(s[1..]);
    }
  }

  /** Exactly the strings of such characters are left as they are. */
  lemma {:induction false} LeftAsIs(s: string)
    ensures Escaped(s) == s <==> forall i :: 0 <= i < |s| ==> IsPlain(s[i])
  {
    BodyIsLong(s);
    assert forall i :: 0 <= i < |s| ==> (IsKnownSafe(s[i]) <==> IsPlain(s[i]));
  }

  lemma {:induction false} BodyNext(result: string, input: string, spanBegin: nat, it: nat)
    requires spanBegin <= it < |input|
    ensures
      var next := if input[it] == '\'' then result + input[spanBegin..it] + "'\\'" + input[it..it + 1]
                  else result + input[spanBegin..it + 1];
      next + Body(input[it + 1..]) == result + input[spanBegin..it] + Body(input[it..])
  {
    assert input[it..][1..] == input[it + 1..] && input[it..][0] == input[it];
    assert input[spanBegin..it + 1] == input[spanBegin..it] + [input[it]] && input[it..it + 1] == [input[it]];
    if input[it] == '\'' {
      assert "'\\'" + [input[it]] == "'\\''";
    }
  }

  lemma {:induction false} WordsSafe(s: string, word: Option<string>, rest: string)
    requires AllSafe(s) && s != []
    ensures Words(s + rest, word, false) == Words(rest, Add(word, s), false)
    decreases |s|
  {
    SafeIsNotSpecial(s[0]);
    assert (s + rest)[1..] == s[1..] + rest;
    if |s| == 1 {
      assert s == [s[0]] && s[1..] + rest == rest;
    } else {
      WordsSafe(s[1..], Add(word, [s[0]]), rest);
      AddMore(word, [s[0]], s[1..]);
      assert [s[0]] + s[1..] == s;
    }
  }

  lemma {:induction false} WordsQuote(rest: string, word: Option<string>)
    requires word.Some?
    ensures Words("'\\''" + rest, word, true) == Words(rest, Add(word, "'"), true)
  {
    var s := "'\\''" + rest;
    assert s[1..] == "\\''" + rest;
    assert ("\\''" + rest)[2..] == "'" + rest && ("\\''" + rest)[1] == '\'';
    assert Words("\\''" + rest, word, false) == Words("'" + rest, Add(word, ['\'']), false);
    assert ("'" + rest)[1..] == rest;
    assert Add(Add(word, "'"), []) == Add(word, "'") by {
      AddMore(word, "'", []);
      assert "'" + [] == "'";
    }
  }

  /** One character of the body is read back as that character. */
  lemma {:induction false} WordsCharacter(s: string, word: Option<string>, rest: string)
    requires word.Some? && s != []
    ensures Words(Body(s) + "'" + rest, word, true) == Words(Body(s[1..]) + "'" + rest, Add(word, [s[0]]), true)
  {
    var tail := Body(s[1..]) + "'" + rest;
    if s[0] == '\'' {
      assert Body(s) + "'" + rest == "'\\''" + tail;
      WordsQuote(tail, word);
    } else {
      assert Body(s) + "'" + rest == [s[0]] + tail && ([s[0]] + tail)[1..] == tail;
    }
  }

  lemma {:induction false} WordsBody(s: string, word: Option<string>, rest: string)
    requires word.Some?
    ensures Words(Body(s) + "'" + rest, word, true) == Words(rest, Add(word, s), false)
    decreases |s|
  {
    if s == [] {
      assert Body(s) + "'" + rest == "'" + rest && ("'" + rest)[1..] == rest;
      AddMore(word, [], []);
    } else {
      WordsCharacter(s, word, rest);
      WordsBody(s[1..], Add(word, [s[0]]), rest);
      AddMore(word, [s[0]], s[1..]);
      assert [s[0]] + s[1..] == s;
    }
  }

  /** Reading an escaped word continues the current word with exactly that word. */
  lemma {:induction false} WordsEscaped(s: string, word: Option<string>, rest: string)
    ensures Words(Escaped(s) + rest, word, false) ==
      if s == [] then Words(rest, word, false) else Words(rest, Add(word, s), false)
  {
    if s == [] {
      assert Escaped(s) + rest == rest;
    } else if AllSafe(s) {
      WordsSafe(s, word, rest);
    } else {
      var inner := Body(s) + "'" + rest;
      assert Escaped(s) + rest == "'" + inner && ("'" + inner)[1..] == inner;
      WordsBody(s, Add(word, []), rest);
      AddMore(word, [], s);
      assert [] + s == s;
    }
  }

  /** A string is read back as one word, unless it is empty. */
  lemma {:induction false} RoundTrip(s: string)
    ensures Words(Escaped(s), None, false) == Some([s]) <==> s != []
  {
    WordsEscapedLast(s);
  }

  /** Reading some words, then more. */
  lemma {:induction false} WordsAppend(s: string, word: Option<string>, quoted: bool, rest: string, words: seq<string>)
    requires Words(s, word, quoted) == Some(words) && rest != [] && rest[0] == ' '
    ensures Words(s + rest, word, quoted) == After(words, Words(rest, None, false))
    decreases |s|
  {
    if s == [] {
      assert s + rest == rest;
      ThenNothing(word);
      ThenAfter(word, [], Words(rest[1..], None, false));
    } else {
      assert (s + rest)[1..] == s[1..] + rest;
      if quoted {
        WordsAppend(s[1..], if s[0] == '\'' then word else Add(word, [s[0]]), s[0] != '\'', rest, words);
      } else if s[0] == '\'' {
        WordsAppend(s[1..], Add(word, []), true, rest, words);
      } else if s[0] == ' ' || s[0] == '\t' {
        var after := Words(s[1..], None, false).value;
        WordsAppend(s[1..], None, false, rest, after);
        ThenAfter(word, after, Words(rest, None, false));
        assert [] + after == after;
      } else if s[0] == '\\' {
        assert (s + rest)[2..] == s[2..] + rest;
        WordsAppend(s[2..], if s[1] == '\n' then word else Add(word, [s[1]]), false, rest, words);
      } else {
        WordsAppend(s[1..], Add(word, [s[0]]), false, rest, words);
      }
    }
  }

  lemma {:induction false} WordsEscapedLast(s: string)
    ensures Words(Escaped(s), None, false) == Some(if s == [] then [] else [s])
  {
    WordsEscaped(s, None, []);
    assert Escaped(s) + [] == Escaped(s);
    AddMore(None, s, []);
    ThenNothing(Some(s));
  }

  lemma {:induction false} WordsSpace(s: string)
    ensures Words([' '] + s, None, false) == Words(s, None, false)
  {
    assert ([' '] + s)[1..] == s;
  }

  lemma {:induction false} WordsAppendPath(list: string, words: seq<string>, path: string)
    requires Words(list, None, false) == Some(words)
    ensures Words(list + [' '] + Escaped(path), None, false) == Some(words + if path == [] then [] else [path])
  {
    var text := Escaped(path);
    var rest := [' '] + text;
    assert list + [' '] + text == list + rest;
    WordsAppend(list, None, false, rest, words);
    WordsSpace(text);
    WordsEscapedLast(path);
  }
}

/** Quoting for Windows programs, which split their own command line. */
module Win32Quoting {
  import opened Options
  import opened Quoting

  function Backslashes(n: nat): (s: string)
    ensures |s| == n && forall i :: 0 <= i < n ==> s[i] == '\\'
  {
    seq(n, _ => '\\')
  }

  /**
   * Splits a command line into arguments, by the rules of CommandLineToArgvW: backslashes only matter before a quote,
   * where two of them stand for one, and an odd one makes the quote part of the argument. `n` is the number of
   * backslashes that have been read.
   */
  ghost function Arguments(s: string, arg: Option<string>, n: nat, quoted: bool): Option<seq<string>>
    decreases |s|
  {
    var flushed := if n == 0 then arg else Add(arg, Backslashes(n));
    if s == [] then Then(flushed, Some([]))
    else if s[0] == '\\' then Arguments(s[1..], arg, n + 1, quoted)
    else if s[0] == '"' then
      if n % 2 == 0 then Arguments(s[1..], Add(arg, Backslashes(n / 2)), 0, !quoted)
      else Arguments(s[1..], Add(arg, Backslashes(n / 2) + ['"']), 0, quoted)
    else if (s[0] == ' ' || s[0] == '\t') && !quoted then Then(flushed, Arguments(s[1..], None, 0, false))
    else Arguments(s[1..], Add(arg, Backslashes(n) + [s[0]]), 0, quoted)
  }

  predicate IsKnownSafe(c: char) {
    c != ' ' && c != '"'
  }

  ghost predicate AllSafe(s: string) {
    forall i :: 0 <= i < |s| ==> IsKnownSafe(s[i])
  }

  method NeedsEscaping(input: string) returns (needed: bool)
    ensures needed <==> !AllSafe(input)
  {
    for i := 0 to |input|
      invariant forall j :: 0 <= j < i ==> IsKnownSafe(input[j])
    {
      if !IsKnownSafe(input[i]) {
        return true;
      }
    }
    return false;
  }

  /** Between quotes, backslashes are doubled before a quote and at the end. `k` of them have just been written. */
  ghost function Body(s: string, k: nat): string
    decreases |s|
  {
    if s == [] then Backslashes(k)
    else if s[0] == '\\' then ['\\'] + Body(s[1..], k + 1)
    else if s[0] == '"' then Backslashes(k + 1) + ['"'] + Body(s[1..], 0)
    else [s[0]] + Body(s[1..], 0)
  }

  ghost function Escaped(s: string): string {
    if AllSafe(s) then s else "\"" + Body(s, 0) + "\""
  }

  method GetWin32EscapedString(input: string, before: string) returns (result: string)
    ensures result == before + Escaped(input)
  {
    result := before;
    var needed := NeedsEscaping(input);
    if !needed {
      return result + input;
    }
    result := result + ['"'];
    var consecutiveBackslashCount := 0;
    var spanBegin := 0;
    assert input[0..] == input;
    assert result + input[0..0] + Body(input[0..], 0) == before + "\"" + Body(input, 0);
    for it := 0 to |input|
      invariant spanBegin <= it && consecutiveBackslashCount >= 0
      invariant result + input[spanBegin..it] + Body(input[it..], consecutiveBackslashCount) ==
        before + "\"" + Body(input, 0)
    {
      BodyNext(result, input, spanBegin, it, consecutiveBackslashCount);
      if input[it] == '\\' {
        consecutiveBackslashCount := consecutiveBackslashCount + 1;
      } else if input[it] == '"' {
        result := result + input[spanBegin..it];
        result := result + Backslashes(consecutiveBackslashCount + 1);
        spanBegin := it;
        consecutiveBackslashCount := 0;
      } else {
        consecutiveBackslashCount := 0;
      }
    }
    assert input[|input|..] == [] && input[spanBegin..|input|] == input[spanBegin..];
    result := result + input[spanBegin..];
    result := result + Backslashes(consecutiveBackslashCount);
    result := result + ['"'];
    assert before + ("\"" + Body(input, 0) + "\"") == (before + "\"" + Body(input, 0)) + "\"";
  }

  lemma {:induction false} BodyIsLong(s: string, k: nat)
    ensures |Body(s, k)| >= |s|
    decreases |s|
  {
    if s != [] {
      BodyIsLong(s[1..], if s[0] == '\\' then k + 1 else 0);
    }
  }

  /** Exactly the strings without a space and without a quote are left as they are. */
  lemma {:induction false} LeftAsIs(s: string)
    ensures Escaped(s) == s <==> ' ' !in s && '"' !in s
  {
    BodyIsLong(s, 0);
    if AllSafe(s) {
      assert forall i :: 0 <= i < |s| ==> IsKnownSafe(s[i]);
    }
  }

  lemma {:induction false} BodyNext(result: string, input: string, spanBegin: nat, it: nat, k: nat)
    requires spanBegin <= it < |input|
    ensures
      var next := if input[it] == '"' then result + input[spanBegin..it] + Backslashes(k + 1) + input[it..it + 1]
                  else result + input[spanBegin..it + 1];
      next + Body(input[it + 1..], if input[it] == '\\' then k + 1 else 0) ==
      result + input[spanBegin..it] + Body(input[it..], k)
  {
    assert input[it..][1..] == input[it + 1..] && input[it..][0] == input[it];
    assert input[spanBegin..it + 1] == input[spanBegin..it] + [input[it]] && input[it..it + 1] == [input[it]];
  }

  /** Reading backslashes only counts them. */
  lemma {:induction false} ReadBackslashes(k: nat, rest: string, arg: Option<string>, n: nat, quoted: bool)
    ensures Arguments(Backslashes(k) + rest, arg, n, quoted) == Arguments(rest, arg, n + k, quoted)
    decreases k
  {
    if k == 0 {
      assert Backslashes(k) + rest == rest;
    } else {
      assert (Backslashes(k) + rest)[1..] == Backslashes(k - 1) + rest;
      ReadBackslashes(k - 1, rest, arg, n + 1, quoted);
    }
  }

  lemma {:induction false} ReadEnd(k: nat, arg: Option<string>, rest: string)
    ensures Arguments(Backslashes(k) + "\"" + rest, arg, k, true) == Arguments(rest, Add(arg, Backslashes(k)), 0, false)
  {
    var end := "\"" + rest;
    assert Backslashes(k) + "\"" + rest == Backslashes(k) + end && end[1..] == rest;
    ReadBackslashes(k, end, arg, k, true);
    assert (k + k) / 2 == k && (k + k) % 2 == 0;
  }

  lemma {:induction false} ReadQuote(k: nat, arg: Option<string>, rest: string)
    ensures Arguments(Backslashes(k + 1) + "\"" + rest, arg, k, true) ==
      Arguments(rest, Add(arg, Backslashes(k) + ['"']), 0, true)
  {
    var end := "\"" + rest;
    assert Backslashes(k + 1) + "\"" + rest == Backslashes(k + 1) + end && end[1..] == rest;
    ReadBackslashes(k + 1, end, arg, k, true);
    assert (k + (k + 1)) / 2 == k && (k + (k + 1)) % 2 == 1;
  }

  /** The text after a piece of the body has been written. */
  lemma {:induction false} BodyText(s: string, k: nat, rest: string)
    requires s != []
    ensures
      var tail := Body(s[1..], if s[0] == '\\' then k + 1 else 0) + "\"" + rest;
      Body(s, k) + "\"" + rest == (if s[0] == '"' then Backslashes(k + 1) + "\"" + tail else [s[0]] + tail)
  {
  }

  lemma {:induction false} ReadCharacter(c: char, k: nat, arg: Option<string>, rest: string)
    requires c != '"'
    ensures Arguments([c] + rest, arg, k, true) ==
      if c == '\\' then Arguments(rest, arg, k + 1, true)
      else Arguments(rest, Add(arg, Backslashes(k) + [c]), 0, true)
  {
    assert ([c] + rest)[1..] == rest;
  }

  /** One character of the body is read back as that character. */
  lemma {:induction false} ReadBodyStep(s: string, k: nat, arg: Option<string>, rest: string)
    requires s != []
    ensures
      var next := if s[0] == '\\' then k + 1 else 0;
      Arguments(Body(s, k) + "\"" + rest, arg, k, true) ==
      Arguments(Body(s[1..], next) + "\"" + rest,
                if s[0] == '\\' then arg else Add(arg, Backslashes(k) + [s[0]]), next, true)
  {
    BodyText(s, k, rest);
    var tail := Body(s[1..], if s[0] == '\\' then k + 1 else 0) + "\"" + rest;
    if s[0] == '"' {
      ReadQuote(k, arg, tail);
    } else {
      ReadCharacter(s[0], k, arg, tail);
    }
  }

  lemma {:induction false} ReadBody(s: string, k: nat, arg: Option<string>, rest: string)
    ensures Arguments(Body(s, k) + "\"" + rest, arg, k, true) == Arguments(rest, Add(arg, Backslashes(k) + s), 0, false)
    decreases |s|
  {
    if s == [] {
      ReadEnd(k, arg, rest);
      assert Backslashes(k) + s == Backslashes(k);
    } else {
      ReadBodyStep(s, k, arg, rest);
      if s[0] == '\\' {
        ReadBody(s[1..], k + 1, arg, rest);
        assert Backslashes(k + 1) + s[1..] == Backslashes(k) + s;
      } else {
        ReadBody(s[1..], 0, Add(arg, Backslashes(k) + [s[0]]), rest);
        AddRest(arg, s, k);
      }
    }
  }

  lemma {:induction false} AddRest(arg: Option<string>, s: string, k: nat)
    requires s != []
    ensures Add(Add(arg, Backslashes(k) + [s[0]]), Backslashes(0) + s[1..]) == Add(arg, Backslashes(k) + s)
  {
    AddMore(arg, Backslashes(k) + [s[0]], Backslashes(0) + s[1..]);
    assert Backslashes(k) + [s[0]] + (Backslashes(0) + s[1..]) == Backslashes(k) + s;
  }

  lemma {:induction false} ReadSafe(s: string, arg: Option<string>, n: nat)
    requires AllSafe(s) && '\t' !in s
    ensures Arguments(s, arg, n, false) ==
      if s == [] && n == 0 then Then(arg, Some([])) else Then(Add(arg, Backslashes(n) + s), Some([]))
    decreases |s|
  {
    if s == [] {
      assert Backslashes(n) + s == Backslashes(n);
    } else if s[0] == '\\' {
      ReadSafe(s[1..], arg, n + 1);
      assert Backslashes(n + 1) + s[1..] == Backslashes(n) + s;
    } else {
      assert s[0] in s;
      ReadSafe(s[1..], Add(arg, Backslashes(n) + [s[0]]), 0);
      AddRest(arg, s, n);
      if s[1..] == [] {
        assert s == [s[0]];
      }
    }
  }

  /** What follows an argument that is complete. */
  ghost predicate Ends(rest: string) {
    rest == [] || rest[0] == ' '
  }

  lemma {:induction false} ReadRest(rest: string, arg: Option<string>, n: nat)
    requires Ends(rest)
    ensures Arguments(rest, arg, n, false) ==
      Then(if n == 0 then arg else Add(arg, Backslashes(n)), Arguments(rest, None, 0, false))
  {
    ThenNothing(None);
  }

  /** The words of text without quotes, followed by something else. */
  lemma {:induction false} ReadSafeThen(s: string, arg: Option<string>, n: nat, rest: string)
    requires AllSafe(s) && Ends(rest)
    ensures Arguments(s, arg, n, false).Some?
    ensures Arguments(s + rest, arg, n, false) ==
      After(Arguments(s, arg, n, false).value, Arguments(rest, None, 0, false))
    decreases |s|
  {
    if s == [] {
      var flushed := if n == 0 then arg else Add(arg, Backslashes(n));
      assert s + rest == rest;
      ReadRest(rest, arg, n);
      ThenNothing(flushed);
      ThenAfter(flushed, [], Arguments(rest, None, 0, false));
    } else {
      assert (s + rest)[1..] == s[1..] + rest;
      if s[0] == '\\' {
        ReadSafeThen(s[1..], arg, n + 1, rest);
      } else if s[0] == '\t' {
        var flushed := if n == 0 then arg else Add(arg, Backslashes(n));
        ReadSafeThen(s[1..], None, 0, rest);
        var words := Arguments(s[1..], None, 0, false).value;
        ThenAfter(flushed, words, Arguments(rest, None, 0, false));
        assert [] + words == words;
      } else {
        ReadSafeThen(s[1..], Add(arg, Backslashes(n) + [s[0]]), 0, rest);
      }
    }
  }

  lemma {:induction false} ReadSpace(s: string)
    ensures Arguments(" " + s, None, 0, false) == Arguments(s, None, 0, false)
  {
    assert (" " + s)[1..] == s;
  }

  /** What an escaped string is read back as: itself, unless it is empty or split at its tabs. */
  ghost function Pieces(s: string): seq<string> {
    if AllSafe(s) then
      TabsSeparate(s, None, 0);
      Arguments(s, None, 0, false).value
    else [s]
  }

  lemma {:induction false} ReadEscaped(s: string, rest: string)
    requires Ends(rest)
    ensures Arguments(Escaped(s) + rest, None, 0, false) == After(Pieces(s), Arguments(rest, None, 0, false))
  {
    if AllSafe(s) {
      ReadSafeThen(s, None, 0, rest);
    } else {
      var inner := Body(s, 0) + "\"" + rest;
      assert Escaped(s) + rest == "\"" + inner && ("\"" + inner)[1..] == inner;
      ReadBody(s, 0, Add(None, Backslashes(0)), rest);
      AddMore(None, Backslashes(0), Backslashes(0) + s);
      assert Backslashes(0) + (Backslashes(0) + s) == s;
      AddMore(None, s, []);
      ReadRest(rest, Some(s), 0);
      ThenAfter(Some(s), [], Arguments(rest, None, 0, false));
    }
  }

  /** The number of tabs in some words. */
  ghost function Tabs(words: seq<string>): nat {
    if words == [] then 0 else Tabs(words[..|words| - 1]) + multiset(words[|words| - 1])['\t']
  }

  lemma {:induction false} TabsAppend(a: seq<string>, b: seq<string>)
    ensures Tabs(a + b) == Tabs(a) + Tabs(b)
    decreases |b|
  {
    if b == [] {
      assert a + b == a;
    } else {
      assert (a + b)[..|a + b| - 1] == a + b[..|b| - 1];
      TabsAppend(a, b[..|b| - 1]);
    }
  }

  lemma {:induction false} NoTabsCount(words: seq<string>)
    requires NoTabs(words)
    ensures Tabs(words) == 0
  {
    if words != [] {
      NoTabsCount(words[..|words| - 1]);
      assert '\t' !in words[|words| - 1];
    }
  }

  /** A tab that is left without quotes around it. */
  ghost predicate BareTab(s: string) {
    '\t' in s && AllSafe(s)
  }

  lemma {:induction false} PiecesOf(s: string)
    ensures !BareTab(s) ==> Pieces(s) == if s == [] then [] else [s]
    ensures Tabs(Pieces(s)) <= Tabs([s]) && (BareTab(s) ==> Tabs(Pieces(s)) < Tabs([s]))
  {
    assert [s][..0] == [];
    if AllSafe(s) {
      TabsSeparate(s, None, 0);
      NoTabsCount(Pieces(s));
      assert '\t' in s ==> multiset(s)['\t'] > 0;
      if '\t' !in s {
        ReadSafe(s, None, 0);
        assert Backslashes(0) + s == s;
        AddMore(None, s, []);
        ThenNothing(Some(s));
        ThenNothing(None);
      }
    }
  }

  ghost predicate NoTabs(words: seq<string>) {
    forall i :: 0 <= i < |words| ==> '\t' !in words[i]
  }

  /** Outside quotes, a tab never becomes part of an argument. */
  lemma {:induction false} TabsSeparate(s: string, arg: Option<string>, n: nat)
    requires AllSafe(s) && (arg.Some? ==> '\t' !in arg.value)
    ensures Arguments(s, arg, n, false).Some? && NoTabs(Arguments(s, arg, n, false).value)
    decreases |s|
  {
    if s != [] {
      if s[0] == '\\' {
        TabsSeparate(s[1..], arg, n + 1);
      } else if s[0] == '\t' {
        TabsSeparate(s[1..], None, 0);
      } else {
        TabsSeparate(s[1..], Add(arg, Backslashes(n) + [s[0]]), 0);
      }
    }
  }

  /** A string is read back as one argument exactly if it is not empty, and no tab is left without quotes around it. */
  lemma {:induction false} RoundTrip(s: string)
    ensures Arguments(Escaped(s), None, 0, false) == Some([s]) <==> s != [] && ('\t' !in s || !AllSafe(s))
  {
    AddMore(None, s, []);
    ThenNothing(Some(s));
    ThenNothing(None);
    if !AllSafe(s) {
      ReadQuoted(s);
    } else if '\t' in s {
      TabsSeparate(s, None, 0);
      assert [s][0] == s;
    } else {
      ReadSafe(s, None, 0);
      assert Backslashes(0) + s == s;
    }
  }

  lemma {:induction false} ReadQuoted(s: string)
    requires !AllSafe(s)
    ensures Arguments(Escaped(s), None, 0, false) == Then(Add(None, s), Some([]))
  {
    var inner := Body(s, 0) + "\"";
    assert Escaped(s) == "\"" + inner && ("\"" + inner)[1..] == inner && inner + [] == inner;
    ReadBody(s, 0, Add(None, Backslashes(0)), []);
    AddMore(None, Backslashes(0), Backslashes(0) + s);
    assert Backslashes(0) + (Backslashes(0) + s) == s;
  }
}

/** Lists of paths in commands. */
module PathLists {
  import opened Options
  import opened Quoting
  import ShellQuoting
  import Win32Quoting

  datatype Escape = NoEscape | ForShell | ForWin32

  ghost function Escaped(path: string, escape: Escape): string {
    match escape
    case NoEscape => path
    case ForShell => ShellQuoting.Escaped(path)
    case ForWin32 => Win32Quoting.Escaped(path)
  }

  /** A list of paths, with separators in between. */
  ghost function PathList(paths: seq<string>, sep: char, escape: Escape): string {
    if paths == [] then []
    else
      var list, last := PathList(paths[..|paths| - 1], sep, escape), paths[|paths| - 1];
      list + (if list == [] then [] else [sep]) + Escaped(last, escape)
  }

  method MakePathList(paths: seq<string>, sep: char, escape: Escape) returns (result: string)
    ensures result == PathList(paths, sep, escape)
  {
    result := [];
    for i := 0 to |paths|
      invariant result == PathList(paths[..i], sep, escape)
    {
      assert paths[..i + 1][..i] == paths[..i];
      if result != [] {
        result := result + [sep];
      }
      match escape {
        case ForWin32 =>
          result := Win32Quoting.GetWin32EscapedString(paths[i], result);
        case ForShell =>
          result := ShellQuoting.GetShellEscapedString(paths[i], result);
        case NoEscape =>
          result := result + paths[i];
      }
    }
    assert paths[..|paths|] == paths;
  }

  lemma {:induction false} ShellListWords(paths: seq<string>)
    ensures ShellQuoting.Words(PathList(paths, ' ', ForShell), None, false) == Some(NonEmpty(paths))
  {
    if paths != [] {
      var first, last := paths[..|paths| - 1], paths[|paths| - 1];
      assert paths == first + [last];
      ShellListWords(first);
      NonEmptyAppend(first, last);
      var list := PathList(first, ' ', ForShell);
      if list != [] {
        ShellQuoting.WordsAppendPath(list, NonEmpty(first), last);
      } else {
        ShellQuoting.WordsEscapedLast(last);
        ThenNothing(None);
        var words := if last == [] then [] else [last];
        assert NonEmpty(first) == [] && [] + words == words;
        assert PathList(paths, ' ', ForShell) == Escaped(last, ForShell);
      }
    }
  }

  /** The shell reads a list back as its paths without the empty ones, so as that list exactly if none is empty. */
  lemma {:induction false} ShellListRoundTrip(paths: seq<string>)
    ensures ShellQuoting.Words(PathList(paths, ' ', ForShell), None, false) == Some(NonEmpty(paths))
    ensures ShellQuoting.Words(PathList(paths, ' ', ForShell), None, false) == Some(paths) <==>
      forall i :: 0 <= i < |paths| ==> paths[i] != []
  {
    ShellListWords(paths);
    NonEmptyIsAll(paths);
  }

  ghost function AllPieces(paths: seq<string>): seq<string> {
    if paths == [] then []
    else AllPieces(paths[..|paths| - 1]) + Win32Quoting.Pieces(paths[|paths| - 1])
  }

  lemma {:induction false} AfterAfter(a: seq<string>, b: seq<string>, more: Option<seq<string>>)
    ensures After(a, After(b, more)) == After(a + b, more)
  {
    if more.Some? {
      assert a + (b + more.value) == a + b + more.value;
    }
  }

  lemma {:induction false} Win32ListArguments(paths: seq<string>, rest: string)
    requires Win32Quoting.Ends(rest)
    ensures Win32Quoting.Arguments(PathList(paths, ' ', ForWin32) + rest, None, 0, false) ==
      After(AllPieces(paths), Win32Quoting.Arguments(rest, None, 0, false))
    decreases |paths|
  {
    var after := Win32Quoting.Arguments(rest, None, 0, false);
    if paths == [] {
      assert PathList(paths, ' ', ForWin32) + rest == rest;
      ThenAfter(None, [], after);
    } else {
      var first, last := paths[..|paths| - 1], paths[|paths| - 1];
      var text := Escaped(last, ForWin32) + rest;
      Win32Quoting.ReadEscaped(last, rest);
      AfterAfter(AllPieces(first), Win32Quoting.Pieces(last), after);
      PathListLast(paths, rest);
      if PathList(first, ' ', ForWin32) != [] {
        Win32ListArguments(first, " " + text);
        Win32Quoting.ReadSpace(text);
      } else {
        EmptyListPieces(first);
        assert [] + Win32Quoting.Pieces(last) == Win32Quoting.Pieces(last);
      }
    }
  }

  lemma {:induction false} PathListLast(paths: seq<string>, rest: string)
    requires paths != []
    ensures
      var list := PathList(paths[..|paths| - 1], ' ', ForWin32);
      var text := Escaped(paths[|paths| - 1], ForWin32) + rest;
      PathList(paths, ' ', ForWin32) + rest == if list == [] then text else list + (" " + text)
  {
  }

  lemma {:induction false} EmptyListPieces(paths: seq<string>)
    requires PathList(paths, ' ', ForWin32) == []
    ensures AllPieces(paths) == []
    decreases |paths|, 0
  {
    if paths != [] {
      EmptyListPieces(paths[..|paths| - 1]);
      Win32Quoting.PiecesOf(paths[|paths| - 1]);
      assert Escaped(paths[|paths| - 1], ForWin32) == [];
    }
  }

  ghost predicate HasBareTab(paths: seq<string>) {
    exists i :: 0 <= i < |paths| && Win32Quoting.BareTab(paths[i])
  }

  lemma {:induction false} HasBareTabLast(paths: seq<string>)
    requires paths != []
    ensures HasBareTab(paths) <==>
      HasBareTab(paths[..|paths| - 1]) || Win32Quoting.BareTab(paths[|paths| - 1])
  {
    var first := paths[..|paths| - 1];
    if i :| 0 <= i < |first| && Win32Quoting.BareTab(first[i]) {
      assert Win32Quoting.BareTab(paths[i]);
    }
    if i :| 0 <= i < |paths| - 1 && Win32Quoting.BareTab(paths[i]) {
      assert Win32Quoting.BareTab(first[i]);
    }
  }

  /** Tabs outside quotes get lost. */
  lemma {:induction false} TabsOfAll(paths: seq<string>)
    ensures Win32Quoting.Tabs(AllPieces(paths)) <= Win32Quoting.Tabs(paths)
    ensures HasBareTab(paths) ==> Win32Quoting.Tabs(AllPieces(paths)) < Win32Quoting.Tabs(paths)
  {
    if paths != [] {
      var first, last := paths[..|paths| - 1], paths[|paths| - 1];
      assert paths == first + [last];
      TabsOfAll(first);
      HasBareTabLast(paths);
      Win32Quoting.PiecesOf(last);
      Win32Quoting.TabsAppend(AllPieces(first), Win32Quoting.Pieces(last));
      Win32Quoting.TabsAppend(first, [last]);
    }
  }

  /** Empty paths leave nothing behind. */
  lemma {:induction false} PiecesOfAll(paths: seq<string>)
    requires !HasBareTab(paths)
    ensures AllPieces(paths) == NonEmpty(paths)
  {
    if paths != [] {
      var first, last := paths[..|paths| - 1], paths[|paths| - 1];
      assert paths == first + [last];
      HasBareTabLast(paths);
      PiecesOfAll(first);
      Win32Quoting.PiecesOf(last);
      NonEmptyAppend(first, last);
    }
  }

  /** A program reads a list back as its paths exactly if none is empty and none has a tab outside quotes. */
  lemma {:induction false} Win32ListRoundTrip(paths: seq<string>)
    ensures Win32Quoting.Arguments(PathList(paths, ' ', ForWin32), None, 0, false) == Some(paths) <==>
      forall i :: 0 <= i < |paths| ==> paths[i] != [] && !Win32Quoting.BareTab(paths[i])
  {
    var list := PathList(paths, ' ', ForWin32);
    Win32ListArguments(paths, []);
    ThenNothing(None);
    assert list + [] == list && AllPieces(paths) + [] == AllPieces(paths);
    TabsOfAll(paths);
    if !HasBareTab(paths) {
      PiecesOfAll(paths);
    }
    NonEmptyIsAll(paths);
  }
}
