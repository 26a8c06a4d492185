/** What a single child does in a run of the benchmp protocol, in which order. */
module BenchmpOrder {
  import opened Benchmp
  import opened BenchmpInv
  import opened BenchmpSteps
  import opened BenchmpRuns

  // What a child does to the pipes and in between, apart from looking whether there is something to read.
  datatype Deed = SendsReady | TakesStart | TimesOnce | TakesResult | WritesByte | TakesExit

  function DeedOf(step: Step): seq<Deed> {
    match step
    case SendReady(_) => [SendsReady]
    case TakeEarly(_) => [TakesStart]
    case TakeStart(_) => [TakesStart]
    case Interval(_, _, _, _) => [TimesOnce]
    case TakeResult(_) => [TakesResult]
    case WriteResult(_) => [WritesByte]
    case TakeExit(_) => [TakesExit]
    case _ => []
  }

  // The deeds of child c in a run.
  function Own(steps: seq<Step>, c: nat): seq<Deed> {
    if steps == [] then []
    else if steps[0].OfChild() && steps[0].c == c then DeedOf(steps[0]) + Own(steps[1..], c)
    else Own(steps[1..], c)
  }

  // The same n times, and then the rest.
  function Repeat(d: Deed, n: int, rest: seq<Deed>): seq<Deed>
    decreases n
  {
    if n <= 0 then rest else [d] + Repeat(d, n - 1, rest)
  }

  // What is left to do for a child that has written k bytes of its results ...
  function Report(st: Setup, k: nat): seq<Deed> {
    Repeat(WritesByte, st.messageSize - k, [TakesExit])
  }

  // ... and for one that is timing, and has i intervals behind it.
  function TimeAndReport(st: Setup, i: nat): seq<Deed> {
    Repeat(TimesOnce, st.Intervals() - i, [TakesResult] + Report(st, 0))
  }

  /** The life of a child with others, from where it is to its end. */
  function Plan(st: Setup, ch: Child): seq<Deed> {
    match ch.stage
    case Starting => [SendsReady] + ([TakesStart] + TimeAndReport(st, 0))
    case Called => [SendsReady] + ([TakesStart] + TimeAndReport(st, 0))
    case Early => [TakesStart] + ([SendsReady] + TimeAndReport(st, 0))
    case EarlyTaken => [SendsReady] + TimeAndReport(st, 0)
    case Warmup => [TakesStart] + TimeAndReport(st, 0)
    case StartSeen => [TakesStart] + TimeAndReport(st, 0)
    case Timing => TimeAndReport(st, ch.i)
    case Cooldown => [TakesResult] + Report(st, 0)
    case ResultSeen => [TakesResult] + Report(st, 0)
    case Writing(k) => Report(st, k)
    case Finishing => [TakesExit]
    case Exited => []
  }

  lemma RepeatNext(d: Deed, n: int, rest: seq<Deed>)
    requires n >= 1
    ensures Repeat(d, n, rest) == [d] + Repeat(d, n - 1, rest) && Repeat(d, 0, rest) == rest
  {
  }

  lemma TimesNext(st: Setup, ch: Child, step: Step)
    requires st.parallel > 1 && ChildFine(st, ch) && ch.stage.Timing? && step.Interval? && step.counted && !step.giveUp
    ensures Plan(st, ch) == [TimesOnce] + Plan(st, AfterInterval(st, ch, step.x, step.counted, step.giveUp))
  {
    var rest := [TakesResult] + Report(st, 0);
    RepeatNext(TimesOnce, st.Intervals() - ch.i, rest);
    var ch' := AfterInterval(st, ch, step.x, step.counted, step.giveUp);
    assert Plan(st, ch') == Repeat(TimesOnce, st.Intervals() - ch.i - 1, rest);
  }

  // A step of the child is the next thing in its plan, whoever else is in between.
  lemma OwnStepFollows(st: Setup, s: State, step: Step)
    requires st.Valid() && st.parallel > 1 && Inv(st, s) && step.OfChild() && ChildEnabled(st, s, step)
    ensures Plan(st, s.children[step.c]) == DeedOf(step) + Plan(st, ChildAfter(st, s, s.children[step.c], step))
  {
    var ch := s.children[step.c];
    assert ChildFine(st, ch);
    var rest := Plan(st, ChildAfter(st, s, ch, step));
    assert [] + rest == rest && rest + [] == rest;
    if step.Interval? {
      TimesNext(st, ch, step);
    } else if step.WriteResult? {
      assert rest == Report(st, ch.stage.k + 1);
    } else if s.children[step.c].stage.Rank() == 0 {
      WhereStarting(st, s, step.c);
    }
  }

  lemma Joins(plan: seq<Deed>, first: seq<Deed>, rest: seq<Deed>, own: seq<Deed>, end: seq<Deed>)
    requires plan == first + rest && rest == own + end
    ensures plan == first + own + end
  {
  }

  lemma ParentKeepsPlan(st: Setup, s: State, step: Step, c: nat)
    requires !step.OfChild() && ParentEnabled(st, s, step) && c < |s.children|
    ensures |ParentStep(st, s, step).children| == |s.children|
    ensures var ch := ParentStep(st, s, step).children[c]; ch.stage == s.children[c].stage && ch.i == s.children[c].i
  {
  }

  lemma OthersKeepPlan(st: Setup, s: State, step: Step, c: nat)
    requires Enabled(st, s, step) && c < |s.children| && (step.OfChild() ==> step.c != c)
    ensures Plan(st, Next(st, s, step).children[c]) == Plan(st, s.children[c])
  {
    if step.OfChild() {
      assert ChildStep(st, s, step).children[c] == s.children[c];
    } else {
      ParentKeepsPlan(st, s, step, c);
    }
  }

  /** In every run, with whatever interleaving and however small the pipes, what a child does is the
      beginning of its plan, and what remains of the plan is the plan of the state it has got to. */
  lemma {:induction false} RunFollows(st: Setup, s: State, steps: seq<Step>, t: State, c: nat)
    requires st.Valid() && st.parallel > 1 && Inv(st, s) && Leads(st, s, steps, t) && c < |s.children| == |t.children|
    ensures Plan(st, s.children[c]) == Own(steps, c) + Plan(st, t.children[c])
    decreases |steps|
  {
    if steps != [] {
      StepKeeps(st, s, steps[0]);
      RunFollows(st, Next(st, s, steps[0]), steps[1..], t, c);
      var u := Next(st, s, steps[0]);
      if steps[0].OfChild() && steps[0].c == c {
        OwnStepFollows(st, s, steps[0]);
        Joins(Plan(st, s.children[c]), DeedOf(steps[0]), Plan(st, u.children[c]), Own(steps[1..], c), Plan(st, t.children[c]));
      } else {
        OthersKeepPlan(st, s, steps[0], c);
        assert Own(steps, c) == Own(steps[1..], c);
      }
    }
  }

  // The done bytes child c sends on the way.
  function DoneBytes(st: Setup, s: State, steps: seq<Step>, c: nat): nat
    decreases |steps|
  {
    if steps == [] || !Enabled(st, s, steps[0]) then 0
    else
      var t := Next(st, s, steps[0]);
      DoneBytes(st, t, steps[1..], c) +
      if steps[0].Interval? && steps[0].c == c && t.response == s.response + [DoneByte] then 1 else 0
  }

  // A child that has sent its done byte.
  predicate Stopped(ch: Child) {
    ch.stage.Rank() >= 4
  }

  lemma StepStops(st: Setup, s: State, step: Step, c: nat)
    requires st.Valid() && Enabled(st, s, step) && c < |s.children|
    ensures var t := Next(st, s, step);
            && (Stopped(s.children[c]) ==> Stopped(t.children[c]) && !(step.Interval? && step.c == c))
            && (!Stopped(s.children[c]) ==>
                (Stopped(t.children[c]) <==> step.Interval? && step.c == c && t.response == s.response + [DoneByte]))
  {
    if step.Interval? {
      assert |s.response + [DoneByte]| != |s.response|;
    }
  }

  lemma {:induction false} RunStops(st: Setup, s: State, steps: seq<Step>, t: State, c: nat)
    requires st.Valid() && Leads(st, s, steps, t) && c < |s.children| == |t.children|
    ensures DoneBytes(st, s, steps, c) ==
            (if Stopped(t.children[c]) then 1 else 0) - (if Stopped(s.children[c]) then 1 else 0)
    decreases |steps|
  {
    if steps != [] {
      StepStops(st, s, steps[0], c);
      RunStops(st, Next(st, s, steps[0]), steps[1..], t, c);
    }
  }

  /** In a run that has come to its end each child has sent one ready byte, taken one start byte, timed
      exactly as many intervals as it was asked for, taken one result byte, written one message and taken
      one exit byte, in this order; and it has sent one done byte. */
  lemma EachChildOnce(st: Setup, steps: seq<Step>, t: State, c: nat)
    requires st.Valid() && st.parallel > 1 && Leads(st, Init(st), steps, t) && Completed(t) && c < |t.children|
    ensures Own(steps, c) == [SendsReady] + ([TakesStart] +
              Repeat(TimesOnce, st.Intervals(), [TakesResult] + Repeat(WritesByte, st.messageSize, [TakesExit])))
    ensures DoneBytes(st, Init(st), steps, c) == 1
  {
    InitHolds(st);
    RunKeeps(st, Init(st), steps, t);
    RunStops(st, Init(st), steps, t, c);
    RunFollows(st, Init(st), steps, t, c);
  }
}
