/** What happens to the steps of a build, as a history of events, and which histories are legal. */
module Histories {
  import opened Graphs

  datatype Event =
    | Discarded(step: nat)  // clean at the start of the build, together with everything it depends on
    | Bypassed(step: nat)   // its turn came, and its command turned out not to be needed
    | Started(step: nat)    // its command was handed to the command runner
    | Succeeded(step: nat)
    | Failed(step: nat)
  {
    /** The step is taken from the ready list. */
    ghost predicate Launches() { Discarded? || Bypassed? || Started? }

    /** The steps that depend on this one may now rely on it. */
    ghost predicate Completes() { Discarded? || Bypassed? || Succeeded? }
  }

  type History = seq<Event>

  ghost function Launched(h: History): set<nat> {
    set i | 0 <= i < |h| && h[i].Launches() :: h[i].step
  }

  ghost function Done(h: History): set<nat> {
    set i | 0 <= i < |h| && h[i].Completes() :: h[i].step
  }

  /** Steps that were really built, as opposed to skipped. */
  ghost function Built(h: History): set<nat> {
    set i | 0 <= i < |h| && h[i].Succeeded? :: h[i].step
  }

  ghost function FailedSteps(h: History): set<nat> {
    set i | 0 <= i < |h| && h[i].Failed? :: h[i].step
  }

  /** Steps whose command the runner has not yet reported on. */
  ghost function Running(h: History): set<nat> {
    Launched(h) - Done(h) - FailedSteps(h)
  }

  /**
   A step of the closure is launched at most once, and only when every step it depends on is
   done; the runner reports once on each command it was given.
   */
  ghost predicate LegalEvent(g: Graph, closure: set<nat>, before: History, e: Event) {
    if e.Launches() then
      && e.step in closure && e.step < |g|
      && e.step !in Launched(before)
      && forall d :: d in g[e.step] ==> d in Done(before)
    else
      e.step in Running(before)
  }

  ghost predicate Legal(g: Graph, closure: set<nat>, h: History) {
    forall i :: 0 <= i < |h| ==> LegalEvent(g, closure, h[..i], h[i])
  }

  lemma {:induction false} Append(h: History, e: Event)
    ensures Launched(h + [e]) == Launched(h) + (if e.Launches() then {e.step} else {})
    ensures Done(h + [e]) == Done(h) + (if e.Completes() then {e.step} else {})
    ensures Built(h + [e]) == Built(h) + (if e.Succeeded? then {e.step} else {})
    ensures FailedSteps(h + [e]) == FailedSteps(h) + (if e.Failed? then {e.step} else {})
  {
    var t := h + [e];
    assert forall i :: 0 <= i < |h| ==> t[i] == h[i];
    assert t[|h|] == e;
    forall x | x in Launched(h) ensures x in Launched(t) {
      var i :| 0 <= i < |h| && h[i].Launches() && h[i].step == x;
      assert t[i].Launches() && t[i].step == x;
    }
    forall x | x in Done(h) ensures x in Done(t) {
      var i :| 0 <= i < |h| && h[i].Completes() && h[i].step == x;
      assert t[i].Completes() && t[i].step == x;
    }
    forall x | x in Built(h) ensures x in Built(t) {
      var i :| 0 <= i < |h| && h[i].Succeeded? && h[i].step == x;
      assert t[i].Succeeded? && t[i].step == x;
    }
    forall x | x in FailedSteps(h) ensures x in FailedSteps(t) {
      var i :| 0 <= i < |h| && h[i].Failed? && h[i].step == x;
      assert t[i].Failed? && t[i].step == x;
    }
  }

  lemma {:induction false} LegalAppend(g: Graph, closure: set<nat>, h: History, e: Event)
    requires Legal(g, closure, h) && LegalEvent(g, closure, h, e)
    ensures Legal(g, closure, h + [e])
  {
    var t := h + [e];
    forall i | 0 <= i < |t| ensures LegalEvent(g, closure, t[..i], t[i]) {
      if i < |h| {
        assert t[..i] == h[..i];
      } else {
        assert t[..i] == h;
      }
    }
  }

  lemma {:induction false} LegalPrefix(g: Graph, closure: set<nat>, h: History, m: nat)
    requires Legal(g, closure, h) && m <= |h|
    ensures Legal(g, closure, h[..m])
  {
    forall i | 0 <= i < m ensures LegalEvent(g, closure, h[..m][..i], h[..m][i]) {
      assert h[..m][..i] == h[..i];
    }
  }

  /**
   Facts about every moment of a legal history: launched steps have all their dependencies
   done, only launched steps complete or fail, and none does both.
   */
  lemma {:induction false} LegalFacts(g: Graph, closure: set<nat>, h: History)
    requires Legal(g, closure, h)
    ensures forall n, d :: n in Launched(h) && n < |g| && d in g[n] ==> d in Done(h)
    ensures Launched(h) <= closure && Done(h) <= Launched(h) && FailedSteps(h) <= Launched(h)
    ensures Done(h) !! FailedSteps(h)
    ensures Built(h) <= Done(h)
  {
    if h != [] {
      var before, e := h[..|h| - 1], h[|h| - 1];
      LegalPrefix(g, closure, h, |h| - 1);
      LegalFacts(g, closure, before);
      assert LegalEvent(g, closure, before, e);
      assert h == before + [e];
      FactsAppend(g, closure, before, e);
    }
  }

  lemma {:induction false} FactsAppend(g: Graph, closure: set<nat>, h: History, e: Event)
    requires LegalEvent(g, closure, h, e) && Launched(h) <= closure && Done(h) <= Launched(h)
    requires FailedSteps(h) <= Launched(h) && Done(h) !! FailedSteps(h) && Built(h) <= Done(h)
    requires forall n, d :: n in Launched(h) && n < |g| && d in g[n] ==> d in Done(h)
    ensures
      var t := h + [e];
      && Launched(t) <= closure && Done(t) <= Launched(t) && FailedSteps(t) <= Launched(t)
      && Done(t) !! FailedSteps(t) && Built(t) <= Done(t)
      && forall n, d :: n in Launched(t) && n < |g| && d in g[n] ==> d in Done(t)
  {
    Append(h, e);
  }

  /** In a legal history, everything that a done step depends on is done. */
  lemma {:induction false} DoneIsClosed(g: Graph, closure: set<nat>, h: History)
    requires Legal(g, closure, h)
    ensures Closed(g, Done(h))
  {
    LegalFacts(g, closure, h);
  }

  /**
   The property of whole runs in terms of positions in the history: whenever a step is
   launched, each of its dependencies completed at some earlier position, and the step itself
   is launched at no other position.
   */
  lemma {:induction false} LaunchedOnceAfterDependencies(g: Graph, closure: set<nat>, h: History, i: nat)
    requires Legal(g, closure, h) && i < |h| && h[i].Launches()
    ensures h[i].step < |g|
    ensures forall d :: d in g[h[i].step] ==> exists j :: 0 <= j < i && h[j].Completes() && h[j].step == d
    ensures forall j :: 0 <= j < |h| && h[j].Launches() && h[j].step == h[i].step ==> j == i
  {
    assert LegalEvent(g, closure, h[..i], h[i]);
    forall d | d in g[h[i].step]
      ensures exists j :: 0 <= j < i && h[j].Completes() && h[j].step == d
    {
      var j :| 0 <= j < |h[..i]| && h[..i][j].Completes() && h[..i][j].step == d;
      assert h[j].Completes() && h[j].step == d;
    }
    forall j | 0 <= j < |h| && h[j].Launches() && j != i ensures h[j].step != h[i].step {
      var k, l := if i < j then i else j, if i < j then j else i;
      assert h[..l][k] == h[k] && h[k].step in Launched(h[..l]);
      assert LegalEvent(g, closure, h[..l], h[l]);
    }
  }
}
