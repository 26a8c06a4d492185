/** The benchmp protocol cannot get stuck, and every run of it with more than one child ends. */
module BenchmpProgress {
  import opened Arith
  import opened Results
  import opened Benchmp
  import opened BenchmpCount
  import opened BenchmpInv
  import opened BenchmpSteps
  import opened BenchmpRuns

  // ---- Something can always happen ----------------------------------------------------------------

  // A timed interval that counts, and records x.
  predicate Good(step: Step, x: Measurement) {
    step.Interval? ==> step.counted && step.x == x
  }

  // A time measured over the right number of iterations.
  function Took(st: Setup, u: nat): Measurement
    requires st.Valid()
  {
    Value(u, st.iterations)
  }

  lemma CanStart(st: Setup, s: State, x: Measurement) returns (step: Step)
    requires st.Valid() && Inv(st, s) && s.start > 0
    ensures Enabled(st, s, step) && Good(step, x)
  {
    Falling(s.children);
    var c := SomeBelow(s.children, 3);
    if s.children[c].stage.Rank() == 0 {
      WhereStarting(st, s, c);
    }
    step := if s.children[c].stage.Warmup? then SeeStart(c) else TakeStart(c);
  }

  lemma CanFinish(st: Setup, s: State, x: Measurement) returns (step: Step)
    requires st.Valid() && Inv(st, s) && s.parent.CollectDone? && s.response == [] && x.n == st.iterations
    ensures Enabled(st, s, step) && Good(step, x)
  {
    if s.start > 0 {
      step := CanStart(st, s, x);
    } else {
      var c := SomeBelow(s.children, 4);
      AllAtLeast(s.children, 3, c);
      step := Interval(c, x, true, false);
    }
  }

  lemma CanReport(st: Setup, s: State, x: Measurement) returns (step: Step)
    requires st.Valid() && Inv(st, s) && s.parent.ReadResult? && s.response == []
    ensures Enabled(st, s, step) && Good(step, x)
  {
    var i, flow := s.parent.i, s.parent.buf + s.response;
    if AtLeast(s.children, 6) == i {
      var c := SomeBelow(s.children, 6);
      AllAtLeast(s.children, 4, c);
      step := if s.children[c].stage.Cooldown? then SeeResult(c) else TakeResult(c);
    } else {
      var w: nat :| Writes(st, s, w, |flow|) && flow == Message(w, |flow|);
      step := WriteResult(w);
    }
  }

  lemma CanExit(st: Setup, s: State, x: Measurement) returns (step: Step)
    requires st.Valid() && Inv(st, s) && (s.parent.SendExit? || s.parent.Ended?) && s.exit > 0
    ensures Enabled(st, s, step) && Good(step, x)
  {
    var c := SomeBelow(s.children, 8);
    AllAtLeast(s.children, 7, c);
    step := TakeExit(c);
  }

  lemma AllExited(st: Setup, s: State)
    requires st.Valid() && Inv(st, s) && s.parent.Ended? && s.exit == 0
    ensures Completed(s)
  {
    forall c | 0 <= c < |s.children|
      ensures s.children[c].stage.Exited?
    {
      AllAtLeast(s.children, 8, c);
    }
  }

  // A step that can be taken: the parent's if it is not waiting, else one of a child.
  lemma CanStep(st: Setup, s: State, x: Measurement) returns (step: Step)
    requires st.Valid() && Inv(st, s) && !Completed(s) && x.n == st.iterations
    ensures Enabled(st, s, step) && Good(step, x)
  {
    match s.parent
    case CollectReady(i) =>
      if s.response != [] {
        step := ParentRead(1);
      } else {
        var c := SomeBelow(s.children, 1);
        step := if s.children[c].stage.Starting? then Look(c) else SendReady(c);
      }
    case SendStart(k) =>
      if s.start < st.capacity {
        step := ParentWrite;
      } else {
        step := CanStart(st, s, x);
      }
    case CollectDone(i) =>
      if s.response != [] {
        step := ParentRead(1);
      } else {
        step := CanFinish(st, s, x);
      }
    case AskResult(i) =>
      AtLeastFalls(s.children, 6, 7);
      step := ParentWrite;
    case ReadResult(i, buf) =>
      if s.response != [] {
        step := ParentRead(1);
      } else {
        step := CanReport(st, s, x);
      }
    case SendExit(k) =>
      if s.exit < st.capacity {
        step := ParentWrite;
      } else {
        step := CanExit(st, s, x);
      }
    case Ended =>
      if s.exit == 0 {
        AllExited(st, s);
      }
      step := CanExit(st, s, x);
  }

  /** No deadlock: until all is over, some process can take a step, however small the pipes. */
  lemma NeverStuck(st: Setup, s: State)
    requires st.Valid() && Reachable(st, s)
    ensures Completed(s) <==> !exists step :: Enabled(st, s, step)
  {
    ReachableHolds(st, s);
    if !Completed(s) {
      var step := CanStep(st, s, Took(st, 0));
    } else if step :| Enabled(st, s, step) {
      assert false;
    }
  }

  // ---- Nothing goes on for ever -------------------------------------------------------------------

  // The steps a child has yet to take.
  function ChildWork(st: Setup, ch: Child): int {
    match ch.stage
    case Starting => st.Intervals() + st.messageSize + 7
    case Called => st.Intervals() + st.messageSize + 6
    case Early => st.Intervals() + st.messageSize + 6
    case EarlyTaken => st.Intervals() + st.messageSize + 5
    case Warmup => st.Intervals() + st.messageSize + 5
    case StartSeen => st.Intervals() + st.messageSize + 4
    case Timing => st.Intervals() - ch.i + st.messageSize + 3
    case Cooldown => st.messageSize + 3
    case ResultSeen => st.messageSize + 2
    case Writing(k) => st.messageSize - k + 1
    case Finishing => 1
    case Exited => 0
  }

  function ChildrenWork(st: Setup, cs: seq<Child>): int {
    if cs == [] then 0 else ChildWork(st, cs[0]) + ChildrenWork(st, cs[1..])
  }

  // The steps the parent has yet to take, if it reads one byte at a time.
  function ParentWork(st: Setup, p: Parent): int {
    var n := st.parallel;
    var lists := Times(n, st.messageSize + 1);
    match p
    case CollectReady(i) => n - i + n + n + lists + n
    case SendStart(k) => n - k + n + lists + n
    case CollectDone(i) => n - i + lists + n
    case AskResult(i) => Rounds(st, n - i) + n
    case ReadResult(i, buf) => Rounds(st, n - i - 1) + st.messageSize - |buf| + n
    case SendExit(k) => n - k
    case Ended => 0
  }

  function Rounds(st: Setup, i: int): nat {
    if i <= 0 then 0 else Times(i, st.messageSize + 1)
  }

  function Work(st: Setup, s: State): int {
    ChildrenWork(st, s.children) + ParentWork(st, s.parent)
  }

  lemma {:induction false} ChildrenWorkUpdate(st: Setup, cs: seq<Child>, c: nat, ch: Child)
    requires c < |cs|
    ensures ChildrenWork(st, cs[c := ch]) == ChildrenWork(st, cs) - ChildWork(st, cs[c]) + ChildWork(st, ch)
  {
    var t := cs[c := ch];
    if c == 0 {
      assert t[1..] == cs[1..];
    } else {
      assert t[1..] == cs[1..][c - 1 := ch];
      ChildrenWorkUpdate(st, cs[1..], c - 1, ch);
    }
  }

  lemma {:induction false} ChildrenWorkNonneg(st: Setup, cs: seq<Child>)
    requires forall c :: 0 <= c < |cs| ==> ChildFine(st, cs[c])
    ensures ChildrenWork(st, cs) >= 0
  {
    if cs != [] {
      ChildrenWorkNonneg(st, cs[1..]);
    }
  }

  lemma WorkNonneg(st: Setup, s: State)
    requires Inv(st, s)
    ensures Work(st, s) >= 0
  {
    ChildrenWorkNonneg(st, s.children);
  }

  // One step of a child is one fewer to come.
  lemma ChildWorkFalls(st: Setup, s: State, step: Step)
    requires st.Valid() && st.parallel > 1 && Inv(st, s) && step.OfChild() && ChildEnabled(st, s, step)
    ensures ChildWork(st, ChildAfter(st, s, s.children[step.c], step)) == ChildWork(st, s.children[step.c]) - 1
  {
    if s.children[step.c].stage.Rank() == 0 {
      WhereStarting(st, s, step.c);
    }
  }

  lemma ChildWorks(st: Setup, s: State, step: Step)
    requires st.Valid() && st.parallel > 1 && Inv(st, s) && step.OfChild() && ChildEnabled(st, s, step)
    ensures Work(st, ChildStep(st, s, step)) == Work(st, s) - 1
  {
    ChildWorkFalls(st, s, step);
    ChildrenWorkUpdate(st, s.children, step.c, ChildAfter(st, s, s.children[step.c], step));
  }

  // A parent that counts bytes, ...
  lemma ParentCounts(st: Setup, s: State, m: nat)
    requires st.Valid() && !s.parent.ReadResult? && ParentEnabled(st, s, ParentRead(m))
    ensures Work(st, ParentStep(st, s, ParentRead(m))) == Work(st, s) - m
  {
  }

  // ... one that reads on, ...
  lemma ParentReadsOn(st: Setup, s: State, m: nat)
    requires s.parent.ReadResult? && ParentEnabled(st, s, ParentRead(m))
    requires |s.parent.buf| + m < st.messageSize
    ensures Work(st, ParentStep(st, s, ParentRead(m))) == Work(st, s) - m
  {
  }

  // ... and one that has got the whole of a list.
  lemma ListDone(st: Setup, i: nat, buf: seq<Byte>)
    requires i < st.parallel && |buf| < st.messageSize
    ensures ParentWork(st, if i + 1 == st.parallel then SendExit(0) else AskResult(i + 1)) ==
            ParentWork(st, ReadResult(i, buf)) - (st.messageSize - |buf|)
  {
  }

  lemma MarkingIsNoWork(st: Setup, cs: seq<Child>, buf: seq<Byte>)
    ensures ChildrenWork(st, MarkTaken(cs, buf)) == ChildrenWork(st, cs)
  {
    if buf != [] && buf[0].ResultByte? && buf[0].child < |cs| {
      var w := buf[0].child;
      ChildrenWorkUpdate(st, cs, w, cs[w].(taken := true));
    }
  }

  lemma ParentMerges(st: Setup, s: State, m: nat)
    requires s.parent.ReadResult? && ParentEnabled(st, s, ParentRead(m))
    requires s.parent.i < st.parallel && |s.parent.buf| < st.messageSize == |s.parent.buf| + m
    ensures Work(st, ParentStep(st, s, ParentRead(m))) == Work(st, s) - m
  {
    ListDone(st, s.parent.i, s.parent.buf);
    MarkingIsNoWork(st, s.children, s.parent.buf + s.response[..m]);
  }

  // A byte written is a step less.
  lemma ParentWrites(st: Setup, s: State)
    requires ParentEnabled(st, s, ParentWrite) && (s.parent.AskResult? ==> s.parent.i < st.parallel)
    ensures Work(st, ParentStep(st, s, ParentWrite)) == Work(st, s) - 1
  {
    if s.parent.AskResult? {
      RoundNext(st, st.parallel - s.parent.i);
    } else if s.parent.SendStart? {
      assert Rounds(st, st.parallel) == Times(st.parallel, st.messageSize + 1);
    }
  }

  lemma RoundNext(st: Setup, k: int)
    requires k > 0
    ensures Rounds(st, k) == Rounds(st, k - 1) + st.messageSize + 1
  {
  }

  lemma ParentReads(st: Setup, s: State, m: nat)
    requires st.Valid() && Inv(st, s) && ParentEnabled(st, s, ParentRead(m))
    ensures Work(st, ParentStep(st, s, ParentRead(m))) == Work(st, s) - m
  {
    if !s.parent.ReadResult? {
      ParentCounts(st, s, m);
    } else if |s.parent.buf| + m < st.messageSize {
      ParentReadsOn(st, s, m);
    } else {
      assert |s.parent.buf| + m == st.messageSize;
      ParentMerges(st, s, m);
    }
  }

  /** With more than one child, every step is one fewer to come, or, for a parent that reads several
      bytes at once, several fewer. */
  lemma StepWorks(st: Setup, s: State, step: Step)
    requires st.Valid() && st.parallel > 1 && Inv(st, s) && Enabled(st, s, step)
    ensures Work(st, Next(st, s, step)) == Work(st, s) - (if step.ParentRead? then step.m else 1)
  {
    if step.OfChild() {
      ChildWorks(st, s, step);
    } else if step.ParentRead? {
      ParentReads(st, s, step.m);
    } else {
      ParentWrites(st, s);
    }
  }

  lemma {:induction false} RunWorks(st: Setup, s: State, steps: seq<Step>, t: State)
    requires st.Valid() && st.parallel > 1 && Inv(st, s) && Leads(st, s, steps, t)
    ensures |steps| + Work(st, t) <= Work(st, s)
    decreases |steps|
  {
    if steps != [] {
      StepWorks(st, s, steps[0]);
      StepKeeps(st, s, steps[0]);
      RunWorks(st, Next(st, s, steps[0]), steps[1..], t);
    }
  }

  lemma {:induction false} FreshWork(st: Setup, cs: seq<Child>)
    requires forall c :: 0 <= c < |cs| ==> cs[c].stage.Starting?
    ensures ChildrenWork(st, cs) == |cs| * (st.Intervals() + st.messageSize + 7)
  {
    if cs != [] {
      FreshWork(st, cs[1..]);
    }
  }

  lemma Sum(n: nat, a: nat, b: nat)
    ensures n * (a + b + 7) + 4 * n + n * (b + 1) == n * (a + 2 * b + 12)
  {
  }

  lemma InitWork(st: Setup)
    requires st.Valid()
    ensures Work(st, Init(st)) == st.parallel * (st.Intervals() + 2 * st.messageSize + 12)
  {
    FreshWork(st, Init(st).children);
    TimesIsProduct(st.parallel, st.messageSize + 1);
    Sum(st.parallel, st.Intervals(), st.messageSize);
  }

  /** Every run with more than one child ends, after so many steps at most; and it has not ended before
      everything is done (NeverStuck). */
  lemma RunsEnd(st: Setup, steps: seq<Step>, t: State)
    requires st.Valid() && st.parallel > 1 && Leads(st, Init(st), steps, t)
    ensures |steps| <= st.parallel * (st.Intervals() + 2 * st.messageSize + 12)
  {
    InitHolds(st);
    RunWorks(st, Init(st), steps, t);
    RunKeeps(st, Init(st), steps, t);
    WorkNonneg(st, t);
    InitWork(st);
  }

  lemma GoesOn(st: Setup, s: State, u: nat) returns (step: Step)
    requires st.Valid() && st.parallel > 1 && Inv(st, s) && !Completed(s)
    ensures Enabled(st, s, step) && Good(step, Took(st, u))
    ensures Inv(st, Next(st, s, step)) && 0 <= Work(st, Next(st, s, step)) < Work(st, s)
  {
    step := CanStep(st, s, Took(st, u));
    StepKeeps(st, s, step);
    StepWorks(st, s, step);
    WorkNonneg(st, Next(st, s, step));
  }

  /** From every reachable state the run can be completed, with any time measured for the intervals that
      are left. */
  lemma {:induction false} Completes(st: Setup, s: State, u: nat) returns (steps: seq<Step>, t: State)
    requires st.Valid() && st.parallel > 1 && Inv(st, s)
    ensures Leads(st, s, steps, t) && Completed(t)
    ensures forall k :: 0 <= k < |steps| ==> Good(steps[k], Took(st, u))
    decreases if Work(st, s) < 0 then 0 else Work(st, s)
  {
    if Completed(s) {
      steps, t := [], s;
    } else {
      var step := GoesOn(st, s, u);
      var more;
      more, t := Completes(st, Next(st, s, step), u);
      steps := [step] + more;
      assert steps[1..] == more;
    }
  }
}
