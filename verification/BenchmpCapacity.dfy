/** Whether the merged results of a benchmp run fit into the list allocated for them. */
module BenchmpCapacity {
  import opened Arith
  import opened Results
  import opened Benchmp
  import opened BenchmpCount
  import opened BenchmpInv
  import opened BenchmpSteps
  import opened BenchmpRuns
  import opened BenchmpProgress

  /** The list of a child always fits. */
  lemma ChildFits(st: Setup, s: State, c: nat)
    requires st.Valid() && Reachable(st, s) && c < |s.children|
    ensures |s.children[c].r| <= Capacity(st.repetitions)
  {
    ReachableHolds(st, s);
  }

  lemma {:induction false} TakenSize(st: Setup, cs: seq<Child>)
    requires forall c :: 0 <= c < |cs| ==> |cs[c].r| <= st.Intervals()
    ensures |TakenResults(cs)| <= Times(|cs|, st.Intervals())
  {
    if cs != [] {
      TakenSize(st, cs[1..]);
    }
  }

  // A run never merges more values than there are timed intervals ...
  lemma MergedSize(st: Setup, s: State)
    requires st.Valid() && Reachable(st, s)
    ensures |s.merged| <= Times(st.parallel, st.Intervals())
  {
    ReachableHolds(st, s);
    TakenSize(st, s.children);
    assert |s.merged| == |multiset(s.merged)|;
  }

  // ... and these fit.
  lemma IntervalsFit(st: Setup)
    requires st.repetitions >= 1 || st.parallel <= TRIES
    ensures Times(st.parallel, st.Intervals()) <= Capacity(st.parallel * st.repetitions)
  {
    TimesIsProduct(st.parallel, st.Intervals());
    if st.repetitions < 1 {
      assert st.Intervals() == 1;
      MulMonotone(st.parallel, st.repetitions, 0);
    }
  }

  lemma MergedFits(st: Setup, s: State)
    requires st.Valid() && Reachable(st, s) && (st.repetitions >= 1 || st.parallel <= TRIES)
    ensures |s.merged| <= Capacity(st.parallel * st.repetitions)
  {
    MergedSize(st, s);
    IntervalsFit(st);
  }

  /** So there is room whenever the parent merges the list of a child: what MergeInto asks for. */
  lemma MergeHasRoom(st: Setup, s: State, m: nat) returns (w: nat)
    requires st.Valid() && Reachable(st, s) && s.parent.ReadResult? && ParentEnabled(st, s, ParentRead(m))
    requires |s.parent.buf| + m == st.messageSize && (st.repetitions >= 1 || st.parallel <= TRIES)
    ensures w < |s.children| && ParentStep(st, s, ParentRead(m)).merged == Merged(s.merged, s.children[w].r)
    ensures |s.merged| + |s.children[w].r| <= Capacity(st.parallel * st.repetitions)
  {
    w := WholeLists(st, s, m);
    ReachableHolds(st, s);
    MergedFacts(s.merged, s.children[w].r);
    var t := ParentStep(st, s, ParentRead(m));
    ReachableNext(st, s, ParentRead(m));
    MergedFits(st, t);
  }

  lemma {:induction false} LeadsOn(st: Setup, s: State, steps: seq<Step>, t: State, step: Step)
    requires Leads(st, s, steps, t) && Enabled(st, t, step)
    ensures Leads(st, s, steps + [step], Next(st, t, step))
    decreases |steps|
  {
    if steps == [] {
      assert Leads(st, Next(st, s, step), [], Next(st, s, step));
      assert [step][1..] == [];
      assert steps + [step] == [step];
    } else {
      LeadsOn(st, Next(st, s, steps[0]), steps[1..], t, step);
      assert (steps + [step])[1..] == steps[1..] + [step];
    }
  }

  lemma ReachableNext(st: Setup, s: State, step: Step)
    requires Reachable(st, s) && Enabled(st, s, step)
    ensures Reachable(st, Next(st, s, step))
  {
    var steps :| Leads(st, Init(st), steps, s);
    LeadsOn(st, Init(st), steps, s, step);
  }

  // ---- A run to the end in which every interval takes some time ---------------------------------------

  ghost predicate Full(s: State) {
    forall c :: 0 <= c < |s.children| ==> |s.children[c].r| == s.children[c].i
  }

  lemma StepFull(st: Setup, s: State, step: Step, x: Measurement)
    requires Full(s) && Enabled(st, s, step) && Good(step, x) && x.u > 0
    ensures Full(Next(st, s, step))
  {
    if step.Interval? {
      InsertedLength(s.children[step.c].r, x);
    }
  }

  lemma {:induction false} RunFull(st: Setup, s: State, steps: seq<Step>, t: State, x: Measurement)
    requires Full(s) && Leads(st, s, steps, t) && x.u > 0
    requires forall k :: 0 <= k < |steps| ==> Good(steps[k], x)
    ensures Full(t)
    decreases |steps|
  {
    if steps != [] {
      StepFull(st, s, steps[0], x);
      RunFull(st, Next(st, s, steps[0]), steps[1..], t, x);
    }
  }

  lemma {:induction false} AllSize(st: Setup, cs: seq<Child>)
    requires forall c :: 0 <= c < |cs| ==> |cs[c].r| == st.Intervals()
    ensures |AllResults(cs)| == Times(|cs|, st.Intervals())
  {
    if cs != [] {
      AllSize(st, cs[1..]);
    }
  }

  // There is a run that merges as many values as there are timed intervals.
  lemma FullRun(st: Setup) returns (s: State)
    requires st.Valid() && st.parallel > 1
    ensures Reachable(st, s) && |s.merged| == st.parallel * st.Intervals()
  {
    InitHolds(st);
    var steps;
    steps, s := Completes(st, Init(st), 1);
    RunFull(st, Init(st), steps, s, Took(st, 1));
    NothingLeft(st, s);
    MergedAll(st, s);
    ReachableHolds(st, s);
    AllSize(st, s.children);
    TimesIsProduct(st.parallel, st.Intervals());
    assert |s.merged| == |multiset(s.merged)|;
  }

  lemma FullRunOverflows(st: Setup) returns (s: State)
    requires st.Valid() && st.repetitions < 1 && st.parallel > TRIES
    ensures Reachable(st, s) && |s.merged| > Capacity(st.parallel * st.repetitions)
  {
    s := FullRun(st);
    MulMonotone(st.parallel, st.repetitions, 0);
  }

  /** In all runs the merged results fit into the list benchmp_parent allocates if and only if at least
      one repetition is asked for, or there are no more children than the list holds anyway: with none,
      a child still records one value, but parallel * repetitions is not positive. */
  lemma FitsIff(st: Setup)
    requires st.Valid()
    ensures (forall s :: Reachable(st, s) ==> |s.merged| <= Capacity(st.parallel * st.repetitions)) <==>
            (st.repetitions >= 1 || st.parallel <= TRIES)
  {
    if st.repetitions >= 1 || st.parallel <= TRIES {
      forall s | Reachable(st, s)
        ensures |s.merged| <= Capacity(st.parallel * st.repetitions)
      {
        MergedFits(st, s);
      }
    } else {
      var s := FullRunOverflows(st);
    }
  }
}
