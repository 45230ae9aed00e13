/** Folding the file accesses of a process into what it read, wrote and deleted. */
module EventConsolidators {
  datatype EventType = Read | ReadDirectory | Write | Create | Delete | FatalError

  datatype Event = Event(kind: EventType, path: string) {
    ghost predicate Reads(p: string) {
      path == p && (kind.Read? || kind.ReadDirectory?)
    }

    ghost predicate Makes(p: string) {
      path == p && (kind.Write? || kind.Create?)
    }

    ghost predicate Creates(p: string) {
      path == p && kind.Create?
    }

    ghost predicate Deletes(p: string) {
      path == p && kind.Delete?
    }
  }

  type History = seq<Event>

  // What the verdicts on a path mean. They are stated for whole histories.

  /** The last time that the path was written, created or deleted, it was not deleted. */
  ghost predicate IsOutput(h: History, p: string) {
    exists i :: 0 <= i < |h| && h[i].Makes(p) && forall j :: i < j < |h| ==> !h[j].Deletes(p)
  }

  /** The path was read while it was not an output, and not written or created after that. */
  ghost predicate IsInput(h: History, p: string) {
    exists i :: 0 <= i < |h| && h[i].Reads(p) && !IsOutput(h[..i], p) && forall j :: i < j < |h| ==> !h[j].Makes(p)
  }

  /** The path was deleted while it was not an output, and not created after that. */
  ghost predicate IsDeleted(h: History, p: string) {
    exists i :: 0 <= i < |h| && h[i].Deletes(p) && !IsOutput(h[..i], p) && forall j :: i < j < |h| ==> !h[j].Creates(p)
  }

  lemma {:induction false} OutputNext(h: History, e: Event, p: string)
    ensures IsOutput(h + [e], p) <==> e.Makes(p) || (IsOutput(h, p) && !e.Deletes(p))
  {
    var g := h + [e];
    if e.Makes(p) {
      assert g[|h|].Makes(p);
    } else if IsOutput(h, p) && !e.Deletes(p) {
      var i :| 0 <= i < |h| && h[i].Makes(p) && forall j :: i < j < |h| ==> !h[j].Deletes(p);
      assert g[i].Makes(p);
    }
    if IsOutput(g, p) && !e.Makes(p) {
      var i :| 0 <= i < |g| && g[i].Makes(p) && forall j :: i < j < |g| ==> !g[j].Deletes(p);
      assert h[i].Makes(p) && !g[|h|].Deletes(p);
      assert forall j :: i < j < |h| ==> h[j] == g[j];
    }
  }

  lemma {:induction false} InputNext(h: History, e: Event, p: string)
    ensures IsInput(h + [e], p) <==> (e.Reads(p) && !IsOutput(h, p)) || (IsInput(h, p) && !e.Makes(p))
  {
    var g := h + [e];
    assert g[..|h|] == h;
    if e.Reads(p) && !IsOutput(h, p) {
      assert g[|h|].Reads(p);
    } else if IsInput(h, p) && !e.Makes(p) {
      var i :| 0 <= i < |h| && h[i].Reads(p) && !IsOutput(h[..i], p) && forall j :: i < j < |h| ==> !h[j].Makes(p);
      assert g[i].Reads(p) && g[..i] == h[..i];
    }
    if IsInput(g, p) && !(e.Reads(p) && !IsOutput(h, p)) {
      var i :| 0 <= i < |g| && g[i].Reads(p) && !IsOutput(g[..i], p) && forall j :: i < j < |g| ==> !g[j].Makes(p);
      assert i < |h| && h[i].Reads(p) && g[..i] == h[..i] && !g[|h|].Makes(p);
      assert forall j :: i < j < |h| ==> h[j] == g[j];
    }
  }

  lemma {:induction false} DeletedNext(h: History, e: Event, p: string)
    ensures IsDeleted(h + [e], p) <==> (e.Deletes(p) && !IsOutput(h, p)) || (IsDeleted(h, p) && !e.Creates(p))
  {
    var g := h + [e];
    assert g[..|h|] == h;
    if e.Deletes(p) && !IsOutput(h, p) {
      assert g[|h|].Deletes(p);
    } else if IsDeleted(h, p) && !e.Creates(p) {
      var i :| 0 <= i < |h| && h[i].Deletes(p) && !IsOutput(h[..i], p) && forall j :: i < j < |h| ==> !h[j].Creates(p);
      assert g[i].Deletes(p) && g[..i] == h[..i];
    }
    if IsDeleted(g, p) && !(e.Deletes(p) && !IsOutput(h, p)) {
      var i :| 0 <= i < |g| && g[i].Deletes(p) && !IsOutput(g[..i], p) && forall j :: i < j < |g| ==> !g[j].Creates(p);
      assert i < |h| && h[i].Deletes(p) && g[..i] == h[..i] && !g[|h|].Creates(p);
      assert forall j :: i < j < |h| ==> h[j] == g[j];
    }
  }

  /** The events that concern a path. */
  ghost function Own(h: History, p: string): History {
    if h == [] then []
    else
      var last := h[|h| - 1];
      Own(h[..|h| - 1], p) + if last.path == p && last.kind != FatalError then [last] else []
  }

  /** The verdicts on a path depend on its own events only. */
  lemma {:induction false} VerdictsAreLocal(h: History, p: string)
    ensures IsOutput(h, p) <==> IsOutput(Own(h, p), p)
    ensures IsInput(h, p) <==> IsInput(Own(h, p), p)
    ensures IsDeleted(h, p) <==> IsDeleted(Own(h, p), p)
  {
    if h != [] {
      var first, last := h[..|h| - 1], h[|h| - 1];
      assert h == first + [last];
      VerdictsAreLocal(first, p);
      OutputNext(first, last, p);
      InputNext(first, last, p);
      DeletedNext(first, last, p);
      if last.path == p && last.kind != FatalError {
        OutputNext(Own(first, p), last, p);
        InputNext(Own(first, p), last, p);
        DeletedNext(Own(first, p), last, p);
      } else {
        assert Own(first, p) + [] == Own(first, p);
      }
    }
  }

  /** No path is both an input and an output. */
  lemma {:induction false} InputsAreNotOutputs(h: History, p: string)
    ensures !(IsInput(h, p) && IsOutput(h, p))
  {
    if h != [] {
      var first, last := h[..|h| - 1], h[|h| - 1];
      assert h == first + [last];
      InputsAreNotOutputs(first, p);
      OutputNext(first, last, p);
      InputNext(first, last, p);
    }
  }

  ghost function Errors(h: History): seq<string> {
    if h == [] then []
    else Errors(h[..|h| - 1]) + if h[|h| - 1].kind.FatalError? then [h[|h| - 1].path] else []
  }

  /** A list of the elements of a set, in some order. */
  ghost predicate Lists(xs: seq<string>, s: set<string>) {
    && (forall x :: x in xs <==> x in s)
    && forall i, j :: 0 <= i < j < |xs| ==> xs[i] != xs[j]
  }

  const WRONGLY_DELETED := "Process deleted file it did not create: "

  /** The verdicts of a history on all paths. */
  datatype Summary = Summary(inputs: set<string>, outputs: set<string>, deleted: set<string>)

  ghost predicate Summarizes(s: Summary, h: History) {
    forall p :: (p in s.inputs <==> IsInput(h, p)) && (p in s.outputs <==> IsOutput(h, p)) &&
      (p in s.deleted <==> IsDeleted(h, p))
  }

  /** How an event changes the verdicts, path by path. */
  ghost predicate Changes(s: Summary, e: Event, t: Summary) {
    && (forall p :: p in t.inputs <==> (e.Reads(p) && p !in s.outputs) || (p in s.inputs && !e.Makes(p)))
    && (forall p :: p in t.outputs <==> e.Makes(p) || (p in s.outputs && !e.Deletes(p)))
    && (forall p :: p in t.deleted <==> (e.Deletes(p) && p !in s.outputs) || (p in s.deleted && !e.Creates(p)))
  }

  lemma {:induction false} SummaryNext(s: Summary, h: History, e: Event, t: Summary)
    requires Summarizes(s, h) && Changes(s, e, t)
    ensures Summarizes(t, h + [e])
  {
    forall p: string
      ensures (p in t.inputs <==> IsInput(h + [e], p)) && (p in t.outputs <==> IsOutput(h + [e], p)) &&
        (p in t.deleted <==> IsDeleted(h + [e], p))
    {
      OutputNext(h, e, p);
      InputNext(h, e, p);
      DeletedNext(h, e, p);
    }
  }

  ghost function Messages(paths: seq<string>): seq<string> {
    seq(|paths|, i requires 0 <= i < |paths| => WRONGLY_DELETED + paths[i])
  }

  class EventConsolidator {
    var inputs: set<string>
    var outputs: set<string>
    var deleted: set<string>
    var errors: seq<string>
    ghost var history: History

    constructor ()
      ensures Valid() && history == []
    {
      inputs, outputs, deleted, errors, history := {}, {}, {}, [], [];
    }

    /** The sets hold exactly the paths that the history gives that verdict. */
    ghost predicate Valid()
      reads this
    {
      Summarizes(Summary(inputs, outputs, deleted), history) && errors == Errors(history)
    }

    method OnEvent(kind: EventType, path: string)
      requires Valid()
      modifies this
      ensures Valid() && history == old(history) + [Event(kind, path)]
    {
      ghost var e, before := Event(kind, path), Summary(inputs, outputs, deleted);
      Update(kind, path);
      SummaryNext(before, history, e, Summary(inputs, outputs, deleted));
      assert (history + [e])[..|history|] == history;
      history := history + [e];
    }

    method Update(kind: EventType, path: string)
      modifies this`inputs, this`outputs, this`deleted, this`errors
      ensures Changes(old(Summary(inputs, outputs, deleted)), Event(kind, path), Summary(inputs, outputs, deleted))
      ensures errors == old(errors) + if kind.FatalError? then [path] else []
    {
      match kind {
        case Read | ReadDirectory =>
          if path !in outputs {
            inputs := inputs + {path};
          }
        case Write =>
          if path in inputs {
            inputs := inputs - {path};
          }
          outputs := outputs + {path};
        case Create =>
          if path in inputs {
            inputs := inputs - {path};
          }
          deleted := deleted - {path};
          outputs := outputs + {path};
        case Delete =>
          if path !in outputs {
            deleted := deleted + {path};
          } else {
            outputs := outputs - {path};
          }
        case FatalError =>
          errors := errors + [path];
      }
    }

    static method List(s: set<string>) returns (xs: seq<string>)
      ensures Lists(xs, s)
    {
      xs := [];
      var left := s;
      while left != {}
        invariant left <= s && Lists(xs, s - left)
        decreases left
      {
        var x :| x in left;
        left := left - {x};
        xs := xs + [x];
      }
    }

    /** Lists the inputs, the outputs and the errors. A path that was deleted wrongly is an error. */
    method GenerateTrace()
      returns (inputList: seq<string>, outputList: seq<string>, errorList: seq<string>, ghost wrong: seq<string>)
      requires Valid()
      ensures Lists(inputList, inputs) && forall p :: p in inputList <==> IsInput(history, p)
      ensures Lists(outputList, outputs) && forall p :: p in outputList <==> IsOutput(history, p)
      ensures forall p :: !(p in inputList && p in outputList)
      ensures errorList == Errors(history) + Messages(wrong)
      ensures forall p :: p in wrong <==> IsDeleted(history, p) && !IsOutput(history, p)
      ensures forall i, j :: 0 <= i < j < |wrong| ==> wrong[i] != wrong[j]
    {
      inputList := List(inputs);
      outputList := List(outputs);
      forall p: string
        ensures !(IsInput(history, p) && IsOutput(history, p))
      {
        InputsAreNotOutputs(history, p);
      }
      errorList, wrong := errors, [];
      var paths := List(deleted);
      assert errors + Messages([]) == errors;
      for i := 0 to |paths|
        invariant errorList == errors + Messages(wrong)
        invariant forall p :: p in wrong <==> p in paths[..i] && p !in outputs
        invariant forall k, l :: 0 <= k < l < |wrong| ==> wrong[k] != wrong[l]
      {
        assert paths[..i + 1] == paths[..i] + [paths[i]];
        assert paths[i] !in paths[..i];
        if paths[i] !in outputs {
          assert errors + Messages(wrong + [paths[i]]) == (errors + Messages(wrong)) + [WRONGLY_DELETED + paths[i]];
          errorList := errorList + [WRONGLY_DELETED + paths[i]];
          wrong := wrong + [paths[i]];
        }
      }
      assert paths[..|paths|] == paths;
    }
  }
}
