/** Runs of the bridge seen as paths from state to state, with or without another start. */
module BridgePaths {
  import opened Wrappers
  import opened BridgeProtocol

  predicate NoStarts(run: seq<Label>) {
    forall i :: 0 <= i < |run| ==> !run[i].StartBegins?
  }

  /** One step, which begins a start only if that is allowed. */
  ghost predicate StepAt(path: seq<Proto>, i: nat, starts: bool)
    requires i + 1 < |path|
  {
    exists l :: Enabled(path[i], l) && (l.StartBegins? ==> starts) && Next(path[i], l) == path[i + 1]
  }

  /** The states of a run, one after the other. */
  ghost predicate IsPath(path: seq<Proto>, starts: bool) {
    path != [] && forall i :: 0 <= i < |path| - 1 ==> StepAt(path, i, starts)
  }

  ghost predicate LeadsWith(start: Proto, p: Proto, starts: bool) {
    exists path :: IsPath(path, starts) && path[0] == start && path[|path| - 1] == p
  }

  /** Without another start. */
  ghost predicate Leads(start: Proto, p: Proto) {
    LeadsWith(start, p, false)
  }

  lemma LeadsNowhere(p: Proto, starts: bool)
    ensures LeadsWith(p, p, starts)
  {
    assert IsPath([p], starts);
  }

  lemma PathOn(path: seq<Proto>, l: Label, q: Proto, starts: bool)
    requires IsPath(path, starts) && Enabled(path[|path| - 1], l) && (l.StartBegins? ==> starts)
      && Next(path[|path| - 1], l) == q
    ensures IsPath(path + [q], starts)
  {
    var longer := path + [q];
    forall i | 0 <= i < |longer| - 1 ensures StepAt(longer, i, starts) {
      if i < |path| - 1 {
        assert StepAt(path, i, starts) && longer[i] == path[i] && longer[i + 1] == path[i + 1];
      } else {
        assert longer[i] == path[|path| - 1] && longer[i + 1] == q;
      }
    }
  }

  lemma LeadsFurther(start: Proto, p: Proto, l: Label, q: Proto, starts: bool)
    requires LeadsWith(start, p, starts) && Enabled(p, l) && (l.StartBegins? ==> starts) && Next(p, l) == q
    ensures LeadsWith(start, q, starts)
  {
    var path :| IsPath(path, starts) && path[0] == start && path[|path| - 1] == p;
    PathOn(path, l, q, starts);
    assert (path + [q])[0] == start;
  }

  lemma LeadsOn(start: Proto, p: Proto, l: Label, q: Proto)
    requires Leads(start, p) && Enabled(p, l) && !l.StartBegins? && Next(p, l) == q
    ensures Leads(start, q)
  {
    LeadsFurther(start, p, l, q, false);
  }

  lemma JoinPaths(a: seq<Proto>, b: seq<Proto>, starts: bool)
    requires IsPath(a, starts) && IsPath(b, starts) && a[|a| - 1] == b[0]
    ensures IsPath(a + b[1..], starts)
  {
    var c := a + b[1..];
    forall i | 0 <= i < |c| - 1 ensures StepAt(c, i, starts) {
      if i < |a| - 1 {
        assert StepAt(a, i, starts) && c[i] == a[i] && c[i + 1] == a[i + 1];
      } else {
        assert StepAt(b, i - (|a| - 1), starts) && c[i] == b[i - (|a| - 1)] && c[i + 1] == b[i + 1 - (|a| - 1)];
      }
    }
  }

  lemma LeadsAcross(start: Proto, p: Proto, q: Proto, starts: bool)
    requires LeadsWith(start, p, starts) && LeadsWith(p, q, starts)
    ensures LeadsWith(start, q, starts)
  {
    var a :| IsPath(a, starts) && a[0] == start && a[|a| - 1] == p;
    var b :| IsPath(b, starts) && b[0] == p && b[|b| - 1] == q;
    JoinPaths(a, b, starts);
    assert (a + b[1..])[0] == start && (a + b[1..])[|a + b[1..]| - 1] == q;
  }

  /** What is reached without another start is reached with any. */
  lemma LeadsAnyway(start: Proto, p: Proto)
    requires Leads(start, p)
    ensures LeadsWith(start, p, true)
  {
    var path :| IsPath(path, false) && path[0] == start && path[|path| - 1] == p;
    forall i | 0 <= i < |path| - 1 ensures StepAt(path, i, true) {
      assert StepAt(path, i, false);
    }
    assert IsPath(path, true);
  }

  lemma StepLabel(path: seq<Proto>, n: nat, starts: bool) returns (l: Label)
    requires n + 1 < |path| && StepAt(path, n, starts)
    ensures Enabled(path[n], l) && (l.StartBegins? ==> starts) && Next(path[n], l) == path[n + 1]
  {
    l :| Enabled(path[n], l) && (l.StartBegins? ==> starts) && Next(path[n], l) == path[n + 1];
  }

  lemma PathInit(path: seq<Proto>, starts: bool)
    requires IsPath(path, starts) && |path| > 1
    ensures IsPath(path[..|path| - 1], starts) && StepAt(path, |path| - 2, starts)
  {
    var init := path[..|path| - 1];
    forall i | 0 <= i < |init| - 1 ensures StepAt(init, i, starts) {
      assert StepAt(path, i, starts);
    }
  }

  lemma RunOn(start: Proto, run: seq<Label>, p: Proto, l: Label, q: Proto)
    requires After(start, run) == Some(p) && Enabled(p, l) && Next(p, l) == q
    ensures After(start, run + [l]) == Some(q)
  {
    AfterSnoc(start, run, l);
  }

  lemma {:induction false} PathRun(path: seq<Proto>, starts: bool) returns (run: seq<Label>)
    requires IsPath(path, starts)
    ensures (!starts ==> NoStarts(run)) && After(path[0], run) == Some(path[|path| - 1])
    decreases |path|
  {
    run := [];
    if |path| > 1 {
      var n := |path| - 2;
      PathInit(path, starts);
      run := PathRun(path[..n + 1], starts);
      var l := StepLabel(path, n, starts);
      RunOn(path[0], run, path[n], l, path[n + 1]);
      run := run + [l];
    }
  }

  /** Where one state leads to another, a run does. */
  lemma LeadingRun(start: Proto, p: Proto, starts: bool) returns (run: seq<Label>)
    requires LeadsWith(start, p, starts)
    ensures (!starts ==> NoStarts(run)) && After(start, run) == Some(p)
  {
    var path :| IsPath(path, starts) && path[0] == start && path[|path| - 1] == p;
    run := PathRun(path, starts);
  }
}
