/** What the lists of a benchmp run hold: the times its children measured, and how many. */
module BenchmpTimes {
  import opened Results
  import opened Benchmp
  import opened BenchmpCount
  import opened BenchmpInv
  import opened BenchmpSteps
  import opened BenchmpRuns

  // A step in which child c measures a time that counts.
  predicate Measures(step: Step, c: nat) {
    step.Interval? && step.c == c && step.counted
  }

  /** The times child c has measured in these steps; an interval that took no time has none. */
  function MeasuredBy(steps: seq<Step>, c: nat): multiset<Measurement> {
    if steps == [] then multiset{}
    else (if Measures(steps[0], c) && steps[0].x.u > 0 then multiset{steps[0].x} else multiset{})
         + MeasuredBy(steps[1..], c)
  }

  /** The times all children have measured in these steps. */
  function Measured(steps: seq<Step>): multiset<Measurement> {
    if steps == [] then multiset{}
    else (if steps[0].Interval? && steps[0].counted && steps[0].x.u > 0 then multiset{steps[0].x} else multiset{})
         + Measured(steps[1..])
  }

  // How many intervals of child c have counted, no time or not.
  function IntervalsOf(steps: seq<Step>, c: nat): nat {
    if steps == [] then 0 else (if Measures(steps[0], c) then 1 else 0) + IntervalsOf(steps[1..], c)
  }

  // ---- One step ----------------------------------------------------------------------------------

  // What a step adds to the list of child c.
  function Adds(step: Step, c: nat): multiset<Measurement> {
    if Measures(step, c) && step.x.u > 0 then multiset{step.x} else multiset{}
  }

  lemma IntervalRecords(st: Setup, ch: Child, step: Step)
    requires step.Interval?
    ensures var ch' := AfterInterval(st, ch, step.x, step.counted, step.giveUp);
            && multiset(ch'.r) == multiset(ch.r) + Adds(step, step.c)
            && ch'.i == ch.i + if step.counted then 1 else 0
  {
    InsertedMultiset(ch.r, step.x);
  }

  lemma ParentRecordsNothing(st: Setup, s: State, step: Step, c: nat)
    requires !step.OfChild() && ParentEnabled(st, s, step) && c < |s.children|
    ensures |ParentStep(st, s, step).children| == |s.children|
    ensures var ch := ParentStep(st, s, step).children[c]; ch.r == s.children[c].r && ch.i == s.children[c].i
  {
  }

  lemma StepRecords(st: Setup, s: State, step: Step, c: nat)
    requires Enabled(st, s, step) && c < |s.children|
    ensures |Next(st, s, step).children| == |s.children|
    ensures multiset(Next(st, s, step).children[c].r) == multiset(s.children[c].r) + Adds(step, c)
    ensures Next(st, s, step).children[c].i == s.children[c].i + if Measures(step, c) then 1 else 0
  {
    if !step.OfChild() {
      ParentRecordsNothing(st, s, step, c);
    } else {
      assert ChildStep(st, s, step).children == s.children[step.c := ChildAfter(st, s, s.children[step.c], step)];
      if step.Interval? && step.c == c {
        IntervalRecords(st, s.children[c], step);
      }
    }
  }

  // A child's list grows, and so does what all of them hold.
  lemma {:induction false} AllResultsUpdate(cs: seq<Child>, c: nat, ch: Child, more: multiset<Measurement>)
    requires c < |cs| && multiset(ch.r) == multiset(cs[c].r) + more
    ensures AllResults(cs[c := ch]) == AllResults(cs) + more
  {
    var t := cs[c := ch];
    if c == 0 {
      assert t[1..] == cs[1..];
    } else {
      assert t[1..] == cs[1..][c - 1 := ch];
      AllResultsUpdate(cs[1..], c - 1, ch, more);
    }
  }

  lemma StepRecordsAll(st: Setup, s: State, step: Step)
    requires Enabled(st, s, step)
    ensures AllResults(Next(st, s, step).children) == AllResults(s.children) +
              if step.Interval? && step.counted && step.x.u > 0 then multiset{step.x} else multiset{}
  {
    var t := Next(st, s, step);
    if step.OfChild() {
      StepRecords(st, s, step, step.c);
      var more := if step.Interval? && step.counted && step.x.u > 0 then multiset{step.x} else multiset{};
      AllResultsUpdate(s.children, step.c, t.children[step.c], more);
    } else {
      OnlyMarked(st, s, step);
    }
  }

  lemma OnlyMarked(st: Setup, s: State, step: Step)
    requires !step.OfChild() && ParentEnabled(st, s, step)
    ensures AllResults(ParentStep(st, s, step).children) == AllResults(s.children)
  {
    var t := ParentStep(st, s, step);
    if t.children != s.children {
      var c := (s.parent.buf + s.response[..step.m])[0].child;
      AllResultsUpdate(s.children, c, t.children[c], multiset{});
    }
  }

  // ---- Whole runs --------------------------------------------------------------------------------

  lemma {:induction false} RunRecords(st: Setup, s: State, steps: seq<Step>, t: State, c: nat)
    requires Leads(st, s, steps, t) && c < |s.children|
    ensures |t.children| == |s.children|
    ensures multiset(t.children[c].r) == multiset(s.children[c].r) + MeasuredBy(steps, c)
    ensures t.children[c].i == s.children[c].i + IntervalsOf(steps, c)
    decreases |steps|
  {
    if steps != [] {
      StepRecords(st, s, steps[0], c);
      RunRecords(st, Next(st, s, steps[0]), steps[1..], t, c);
    }
  }

  lemma {:induction false} RunRecordsAll(st: Setup, s: State, steps: seq<Step>, t: State)
    requires Leads(st, s, steps, t)
    ensures AllResults(t.children) == AllResults(s.children) + Measured(steps)
    decreases |steps|
  {
    if steps != [] {
      StepRecordsAll(st, s, steps[0]);
      RunRecordsAll(st, Next(st, s, steps[0]), steps[1..], t);
    }
  }

  lemma {:induction false} NothingRecorded(cs: seq<Child>)
    requires forall c :: 0 <= c < |cs| ==> cs[c].r == []
    ensures AllResults(cs) == multiset{}
  {
    if cs != [] {
      NothingRecorded(cs[1..]);
    }
  }

  /** In every run the list of a child holds exactly the times it has measured, sorted. */
  lemma ChildHasItsTimes(st: Setup, steps: seq<Step>, s: State, c: nat)
    requires st.Valid() && Leads(st, Init(st), steps, s) && c < st.parallel
    ensures |s.children| == st.parallel
    ensures Sorted(s.children[c].r) && multiset(s.children[c].r) == MeasuredBy(steps, c)
  {
    RunRecords(st, Init(st), steps, s, c);
    InitHolds(st);
    RunKeeps(st, Init(st), steps, s);
    assert ChildFine(st, s.children[c]);
  }

  /** When the parent has collected all lists, it has exactly the times measured in the run, sorted. */
  lemma MergedIsMeasured(st: Setup, steps: seq<Step>, s: State)
    requires st.Valid() && Leads(st, Init(st), steps, s) && (s.parent.SendExit? || s.parent.Ended?)
    ensures Sorted(s.merged) && multiset(s.merged) == Measured(steps)
  {
    RunRecordsAll(st, Init(st), steps, s);
    NothingRecorded(Init(st).children);
    MergedAll(st, s);
  }

  /** And with several children these are as many intervals of each as repetitions were asked for, or one
      when none was. */
  lemma AsManyAsAsked(st: Setup, steps: seq<Step>, s: State, c: nat)
    requires st.Valid() && st.parallel > 1 && Leads(st, Init(st), steps, s) && Completed(s) && c < st.parallel
    ensures IntervalsOf(steps, c) == if st.repetitions < 1 then 1 else st.repetitions
  {
    RunRecords(st, Init(st), steps, s, c);
    NothingLeft(st, s);
  }
}
