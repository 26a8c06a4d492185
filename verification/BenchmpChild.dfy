/** benchmp_interval, the code a child of benchmp runs between two batches of its benchmark
    (lib_timing.c), and the steps of the protocol it takes. */
module BenchmpChild {
  import opened Results
  import opened Benchmp
  import opened BenchmpInv
  import opened BenchmpSteps

  datatype BenchmpState = warmup | timing_interval | cooldown

  // (uint64)result, with nothing below 0.
  function Micros(result: real): nat {
    if result >= 0.0 then result.Floor else 0
  }

  // Whether the time of an interval is recorded.
  predicate Counts(parallel: nat, enough: nat, result: real) {
    parallel > 1 || result > 0.95 * enough as real
  }

  // The only child of a benchmp changes the length of its intervals when it is far off.
  predicate Adapts(parallel: nat, enough: nat, result: real) {
    parallel == 1 && (result < 0.99 * enough as real || result > 1.2 * enough as real)
  }

  function NextIterations(iterations: nat, enough: nat, result: real): nat {
    if result > 150.0 then
      Scales(iterations, enough, result);
      (iterations as real / result * (1.1 * enough as real) + 1.0).Floor
    else 8 * iterations
  }

  lemma Scales(iterations: nat, enough: nat, result: real)
    requires result > 0.0
    ensures iterations as real / result * (1.1 * enough as real) >= 0.0
  {
    assert iterations as real / result >= 0.0;
  }

  // It gives up when the interval has got very long and still takes no time worth mentioning.
  predicate GivesUp(parallel: nat, enough: nat, iterations: nat, result: real) {
    && Adapts(parallel, enough, result) && result <= 150.0
    && (8 * iterations > 0x800_0000 || (result < 0.0 && 8 * iterations > 0x10_0000))
  }

  /** A single child can record an interval and change the length of the next one: what it records need
      not be over one number of iterations. */
  lemma OneChildVaries()
    ensures exists enough: nat, iterations: nat, result: real ::
              Counts(1, enough, result) && Adapts(1, enough, result)
              && NextIterations(iterations, enough, result) != iterations
  {
    assert NextIterations(1000, 1000, 960.0) == (1000.0 / 960.0 * (1.1 * 1000.0) + 1.0).Floor;
    assert Counts(1, 1000, 960.0) && Adapts(1, 1000, 960.0);
  }

  /** A list after an interval of n iterations that took so long: it has one time more if that was at least
      a microsecond and long is true, and else the same. */
  ghost predicate Holds(s: seq<Measurement>, t: seq<Measurement>, long: bool, result: real, n: nat) {
    && multiset(t) == multiset(s) + (if long && result >= 1.0 && n > 0 then multiset{Value(result.Floor, n)} else multiset{})
    && (Sorted(s) ==> Sorted(t))
  }

  lemma RecordedHolds(s: seq<Measurement>, result: real, n: nat)
    requires n > 0
    ensures Holds(s, Recorded(s, Value(Micros(result), n)), true, result, n)
  {
    InsertedMultiset(s, Value(Micros(result), n));
    if Sorted(s) {
      InsertedSorted(s, Value(Micros(result), n));
    }
  }

  // An interval never gets empty.
  lemma StillIterates(iterations: nat, enough: nat, result: real)
    requires iterations > 0
    ensures NextIterations(iterations, enough, result) > 0
  {
    if result > 150.0 {
      Scales(iterations, enough, result);
    }
  }

  // ---- The length of an interval --------------------------------------------------------------------

  // What n iterations take at the rate of the last interval.
  function Expected(n: nat, iterations: nat, result: real): real
    requires iterations > 0
  {
    n as real * (result / iterations as real)
  }

  lemma Cancel(a: real, b: real)
    requires b > 0.0
    ensures a / b * b == a
  {
  }

  lemma Smaller(a: real, b: real, c: real)
    requires c > 0.0
    ensures a < b <==> a * c < b * c
  {
    assert (b - a) * c == b * c - a * c;
  }

  // At the rate of the last interval the length computed from it is worth the time asked for.
  lemma WorthTarget(iterations: nat, result: real, target: real)
    requires iterations > 0 && result > 0.0
    ensures iterations as real / result * target * (result / iterations as real) == target
  {
    Inverse(iterations as real, result);
    Regrouped(iterations as real / result, target, result / iterations as real);
  }

  lemma Inverse(a: real, b: real)
    requires a > 0.0 && b > 0.0
    ensures a / b * (b / a) == 1.0
  {
    Cancel(a, b);
    Cancel(b, a);
    assert a / b * (b / a) * a == a / b * (b / a * a);
    Smaller(a / b * (b / a), 1.0, a);
    Smaller(1.0, a / b * (b / a), a);
  }

  lemma Regrouped(q: real, x: real, p: real)
    requires q * p == 1.0
    ensures q * x * p == x
  {
    assert q * x * p == q * p * x;
  }

  /** After an interval of more than 150 microseconds the next one is expected to take at least 1.1 times
      what is enough, and no more than one iteration above that. */
  lemma NextIsEnough(iterations: nat, enough: nat, result: real)
    requires iterations > 0 && result > 150.0
    ensures var e := Expected(NextIterations(iterations, enough, result), iterations, result);
            1.1 * enough as real < e <= 1.1 * enough as real + result / iterations as real
  {
    Scales(iterations, enough, result);
    var n, x := NextIterations(iterations, enough, result), iterations as real / result * (1.1 * enough as real);
    var p := result / iterations as real;
    Cancel(result, iterations as real);
    assert p > 0.0;
    WorthTarget(iterations, result, 1.1 * enough as real);
    assert x < n as real <= x + 1.0;
    Smaller(x, n as real, p);
    Smaller(x + 1.0, n as real, p);
    assert (x + 1.0) * p == x * p + p;
  }

  /** At a constant rate one such step is all it takes: if an iteration takes no more than a tenth of what is
      enough, the next interval counts, and its length is left alone. */
  lemma Converges(iterations: nat, enough: nat, result: real)
    requires iterations > 0 && enough > 0 && result > 150.0 && result / iterations as real <= 0.1 * enough as real
    ensures var e := Expected(NextIterations(iterations, enough, result), iterations, result);
            Counts(1, enough, e) && !Adapts(1, enough, e)
  {
    NextIsEnough(iterations, enough, result);
  }

  /** An interval that is too short makes the next one longer, the more so if it took no time to speak of;
      one that is too long does not. */
  lemma ShortGetsLonger(iterations: nat, enough: nat, result: real)
    requires iterations > 0 && enough > 0
    ensures result < 0.99 * enough as real ==> NextIterations(iterations, enough, result) > iterations
    ensures result <= 150.0 ==> NextIterations(iterations, enough, result) == 8 * iterations
    ensures result > 150.0 && result > 1.2 * enough as real ==> NextIterations(iterations, enough, result) <= iterations
  {
    if result > 150.0 {
      var n, p := NextIterations(iterations, enough, result), result / iterations as real;
      Cancel(result, iterations as real);
      NextIsEnough(iterations, enough, result);
      if result < 0.99 * enough as real {
        Smaller(iterations as real, n as real, p);
      } else if result > 1.2 * enough as real {
        assert (iterations + 1) as real * p == result + p;
        Smaller(n as real, (iterations + 1) as real, p);
      }
    }
  }

  // Every interval is cut short and lengthened, and the child has not given up.
  ghost predicate Lengthens(enough: nat, iterations: seq<nat>, results: seq<real>) {
    && enough > 0 && |iterations| == |results| + 1 && iterations[0] > 0
    && forall k, k' :: 0 <= k && k' == k + 1 <= |results| ==>
         && Adapts(1, enough, results[k]) && results[k] <= 150.0 && !GivesUp(1, enough, iterations[k], results[k])
         && iterations[k'] == NextIterations(iterations[k], enough, results[k])
  }

  // Eight to the power of k.
  function Pow8(k: nat): nat {
    if k == 0 then 1 else 8 * Pow8(k - 1)
  }

  lemma {:induction false} LengthensBy8(enough: nat, iterations: seq<nat>, results: seq<real>, k: nat)
    requires Lengthens(enough, iterations, results) && k <= |results|
    ensures iterations[k] >= Pow8(k) > 0
  {
    if k > 0 {
      LengthensBy8(enough, iterations, results, k - 1);
      ShortGetsLonger(iterations[k - 1], enough, results[k - 1]);
    }
  }

  lemma NotYet(enough: nat, iterations: seq<nat>, results: seq<real>, k: nat)
    requires Lengthens(enough, iterations, results) && k < |results|
    ensures 8 * iterations[k] <= 0x800_0000
  {
    assert iterations[k + 1] == NextIterations(iterations[k], enough, results[k]);
  }

  lemma NinthPower()
    ensures Pow8(9) == 0x800_0000
  {
  }

  /** A child does not lengthen its intervals for ever: it gives up in the tenth interval in a row that takes
      no time to speak of, if not before. */
  lemma GivesUpInTime(enough: nat, iterations: seq<nat>, results: seq<real>)
    requires Lengthens(enough, iterations, results)
    ensures |results| <= 9
  {
    if |results| >= 10 {
      NinthPower();
      LengthensBy8(enough, iterations, results, 9);
      NotYet(enough, iterations, results, 9);
    }
  }

  // ---- What a call does, in terms of the protocol ---------------------------------------------------

  // What a call is told: what the last batch was worth, and what select() reports.
  datatype Input = Input(x: Measurement, counted: bool, giveUp: bool, startSet: bool, resultSet: bool)

  // The child after the call ...
  function CallChild(st: Setup, ch: Child, y: Input): Child {
    match ch.stage
    case Starting => ch.(stage := if y.startSet then Timing else Warmup)
    case Warmup => ch.(stage := if y.startSet then Timing else Warmup)
    case Timing => AfterInterval(st, ch, y.x, y.counted, y.giveUp)
    case Cooldown => if y.resultSet then ch.(stage := Exited) else ch
    case _ => ch
  }

  // ... and the bytes child c has written.
  function CallSent(st: Setup, c: nat, ch: Child, y: Input): seq<Byte> {
    match ch.stage
    case Starting => [ReadyByte]
    case Timing => if CallChild(st, ch, y).stage.Cooldown? then [DoneByte] else []
    case Cooldown => if y.resultSet then Message(c, st.messageSize) else []
    case _ => []
  }

  /** benchmp_child_state. */
  class ChildState {
    var state: BenchmpState
    var needWarmup: bool
    var i: nat
    var iterations: nat
    var exited: bool
    const childid: nat
    const parallel: nat
    const repetitions: int
    const enough: nat
    const iterationsBatch: nat
    const rSize: nat
    const r: ResultList

    ghost function Protocol(): Setup
      reads this
    {
      Setup(parallel, repetitions, iterations, 1, rSize)
    }

    ghost predicate Valid()
      reads this, r, r.v
    {
      && r.Valid() && parallel > 0 && rSize > 0 && iterations > 0
      && r.v.Length == Capacity(repetitions) && r.N <= i <= Protocol().Intervals()
      && (state != cooldown ==> i < Protocol().Intervals())
      && (needWarmup ==> state == warmup)
      && (exited ==> state == cooldown)
    }

    // The child of the protocol this is.
    ghost function View(): Child
      requires Valid()
      reads this, r, r.v
    {
      Child(if needWarmup then Starting
            else if exited then Exited
            else match state
              case warmup => Warmup
              case timing_interval => Timing
              case cooldown => Cooldown,
            i, r.Contents(), false)
    }

    /** What benchmp_child sets up before it calls benchmp_interval for ever. */
    constructor (childid: nat, parallel: nat, repetitions: int, enough: nat, iterations: nat, batch: nat, size: nat)
      requires parallel > 0 && iterations > 0 && size > 0
      ensures Valid() && fresh(r) && fresh(r.v)
      ensures View() == Child(Starting, 0, [], false)
      ensures Protocol() == Setup(parallel, repetitions, iterations, 1, size) && this.childid == childid
      ensures this.iterations == iterations && this.enough == enough && iterationsBatch == batch
    {
      this.childid, this.parallel, this.repetitions, this.enough := childid, parallel, repetitions, enough;
      this.iterations, iterationsBatch, rSize := iterations, batch, size;
      state, needWarmup, i, exited := warmup, true, 0, false;
      r := new ResultList(repetitions);
    }

    // The case timing_interval: the end of a timed interval.
    method EndInterval(result: real) returns (n: nat, sent: seq<Byte>)
      requires Valid() && state == timing_interval
      modifies this, r, r.v
      ensures Valid()
      ensures View() == AfterInterval(Protocol(), old(View()), Value(Micros(result), old(iterations)),
                                      Counts(parallel, enough, result),
                                      GivesUp(parallel, enough, old(iterations), result))
      ensures Holds(old(r.Contents()), r.Contents(), parallel > 1 || result > 0.95 * enough as real, result,
                    old(iterations))
      ensures sent == if View().stage.Cooldown? then [DoneByte] else []
      ensures iterations == if Adapts(parallel, enough, result)
                            then NextIterations(old(iterations), enough, result) else old(iterations)
      ensures n == if View().stage.Cooldown? then iterationsBatch else iterations
    {
      RecordInterval(result);
      Adapt(result);
      n, sent := iterations, [];
      if state == cooldown {
        sent := [DoneByte];
        n := iterationsBatch;
      }
    }

    // Lines 714-720.
    method RecordInterval(result: real)
      requires Valid() && state == timing_interval
      modifies `state, `i, r, r.v
      ensures Valid()
      ensures View() == AfterInterval(Protocol(), old(View()), Value(Micros(result), iterations),
                                      Counts(parallel, enough, result), false)
      ensures Holds(old(r.Contents()), r.Contents(), parallel > 1 || result > 0.95 * enough as real, result, iterations)
    {
      if parallel > 1 || result > 0.95 * enough as real {
        RecordedHolds(r.Contents(), result, iterations);
        Record(Value(Micros(result), iterations));
      }
    }

    // Lines 721-733.
    method Adapt(result: real)
      requires Valid() && !needWarmup && !exited
      modifies `state, `iterations
      ensures Valid() && !needWarmup && !exited
      ensures state == if GivesUp(parallel, enough, old(iterations), result) then cooldown else old(state)
      ensures iterations == if Adapts(parallel, enough, result)
                            then NextIterations(old(iterations), enough, result) else old(iterations)
    {
      var n := iterations;
      if parallel == 1 && (result < 0.99 * enough as real || result > 1.2 * enough as real) {
        StillIterates(n, enough, result);
        if result > 150.0 {
          n := (n as real / result * (1.1 * enough as real) + 1.0).Floor;
        } else {
          n := 8 * n;
          if n > 0x800_0000 || (result < 0.0 && n > 0x10_0000) {
            state := cooldown;
          }
        }
      }
      iterations := n;
    }

    // Lines 715-720.
    method Record(x: Measurement)
      requires Valid() && state == timing_interval
      modifies `state, `i, r, r.v
      ensures Valid() && View() == AfterInterval(Protocol(), old(View()), x, true, false)
      ensures r.Contents() == Recorded(old(r.Contents()), x)
    {
      r.InsertSort(x);
      i := i + 1;
      if i >= repetitions {
        state := cooldown;
      }
    }

    // What a call is told when the last batch took so long.
    ghost function Told(result: real, startSet: bool, resultSet: bool): Input
      requires iterations > 0
      reads this
    {
      Input(Value(Micros(result), iterations), Counts(parallel, enough, result),
            GivesUp(parallel, enough, iterations, result), startSet, resultSet)
    }

    /** benchmp_interval.  result is the time the last batch took, less the overhead; startSet and
        resultSet say whether select() found a byte in the start or the result pipe.  sent is what the
        call writes to the response pipe.  When it takes a result byte it goes on to wait for an exit
        byte, and the process ends. */
    method Interval(result: real, startSet: bool, resultSet: bool) returns (n: nat, sent: seq<Byte>)
      requires Valid() && !exited
      modifies this, r, r.v
      ensures Valid()
      ensures View() == CallChild(Protocol(), old(View()), old(Told(result, startSet, resultSet)))
      ensures sent == CallSent(Protocol(), childid, old(View()), old(Told(result, startSet, resultSet)))
      ensures iterations == if old(View().stage).Timing? && Adapts(parallel, enough, result)
                            then NextIterations(old(iterations), enough, result) else old(iterations)
      ensures n == if View().stage.Timing? then iterations else iterationsBatch
    {
      n, sent := iterationsBatch, [];
      match state {
        case warmup =>
          n, sent := WarmUp(startSet);
        case timing_interval =>
          n, sent := EndInterval(result);
        case cooldown =>
          sent := Report(resultSet);
      }
    }

    // The case cooldown.
    method Report(resultSet: bool) returns (sent: seq<Byte>)
      requires Valid() && state == cooldown && !exited
      modifies `exited
      ensures Valid() && View() == if resultSet then old(View()).(stage := Exited) else old(View())
      ensures sent == if resultSet then Message(childid, rSize) else []
    {
      sent := [];
      if resultSet {
        sent := Message(childid, rSize);
        exited := true;
      }
    }

    // The case warmup.
    method WarmUp(startSet: bool) returns (n: nat, sent: seq<Byte>)
      requires Valid() && state == warmup
      modifies `state, `needWarmup
      ensures Valid() && View() == old(View()).(stage := if startSet then Timing else Warmup)
      ensures sent == if old(needWarmup) then [ReadyByte] else []
      ensures n == if startSet then iterations else iterationsBatch
    {
      n, sent := iterationsBatch, [];
      if startSet {
        state := timing_interval;
        n := iterations;
      }
      if needWarmup {
        needWarmup := false;
        sent := [ReadyByte];
      }
    }
  }

  // ---- The calls are the steps of the protocol -------------------------------------------------------

  // One step of a run, and then a run.
  lemma OneStep(st: Setup, s: State, step: Step, steps: seq<Step>, t: State)
    requires Enabled(st, s, step) && Leads(st, Next(st, s, step), steps, t)
    ensures Leads(st, s, [step] + steps, t)
  {
    assert ([step] + steps)[1..] == steps;
  }

  // A child of the protocol is told by select() what there is.
  predicate Sees(s: State, y: Input) {
    (y.startSet <==> s.start > 0) && (y.resultSet <==> s.result > 0)
  }

  // The machine after a call.
  function AfterCall(st: Setup, s: State, c: nat, y: Input): State
    requires c < |s.children|
  {
    var ch := s.children[c];
    var took := y.startSet && (ch.stage.Starting? || ch.stage.Warmup?);
    s.(children := s.children[c := CallChild(st, ch, y)], response := s.response + CallSent(st, c, ch, y),
       start := if took && s.start > 0 then s.start - 1 else s.start)
  }

  /** The first call of a child, as steps of the protocol. */
  lemma FirstCall(st: Setup, s: State, c: nat, y: Input)
    requires c < |s.children| && s.children[c].stage.Starting? && Sees(s, y) && Room(st, s)
    ensures Leads(st, s, if y.startSet then [Look(c), TakeEarly(c), SendReady(c)] else [Look(c), SendReady(c)],
                  AfterCall(st, s, c, y))
  {
    var t := Next(st, s, Look(c));
    var u := if y.startSet then Next(st, t, TakeEarly(c)) else t;
    var v := Next(st, u, SendReady(c));
    assert v == AfterCall(st, s, c, y);
    OneStep(st, u, SendReady(c), [], v);
    if y.startSet {
      OneStep(st, t, TakeEarly(c), [SendReady(c)], v);
      OneStep(st, s, Look(c), [TakeEarly(c), SendReady(c)], v);
    } else {
      OneStep(st, s, Look(c), [SendReady(c)], v);
    }
  }

  /** A call while the child is warming up: it takes a start byte, or nothing happens. */
  lemma WarmupCall(st: Setup, s: State, c: nat, y: Input)
    requires c < |s.children| && s.children[c].stage.Warmup? && Sees(s, y)
    ensures Leads(st, s, if y.startSet then [SeeStart(c), TakeStart(c)] else [], AfterCall(st, s, c, y))
  {
    if y.startSet {
      var t := Next(st, s, SeeStart(c));
      var u := Next(st, t, TakeStart(c));
      assert u == AfterCall(st, s, c, y);
      OneStep(st, t, TakeStart(c), [], u);
      OneStep(st, s, SeeStart(c), [TakeStart(c)], u);
    } else {
      assert AfterCall(st, s, c, y) == s;
    }
  }

  // What a call of a child with others is told.
  predicate Among(st: Setup, enough: nat, result: real, y: Input) {
    && y.x == Value(Micros(result), st.iterations) && (y.counted <==> Counts(st.parallel, enough, result))
    && (y.giveUp <==> GivesUp(st.parallel, enough, st.iterations, result))
  }

  /** A call at the end of a timed interval is one step of the protocol; with several children it is an
      enabled one whatever the time measured, if there is room for a done byte. */
  lemma TimedCall(st: Setup, s: State, c: nat, y: Input, enough: nat, result: real)
    requires st.Valid() && st.parallel > 1 && c < |s.children| && s.children[c].stage.Timing? && Room(st, s)
    requires Among(st, enough, result, y)
    ensures Leads(st, s, [Interval(c, y.x, y.counted, y.giveUp)], AfterCall(st, s, c, y))
  {
    var step := Interval(c, y.x, y.counted, y.giveUp);
    assert ChildStep(st, s, step) == AfterCall(st, s, c, y);
    OneStep(st, s, step, [], AfterCall(st, s, c, y));
  }

  // ---- The call that reports, among the steps of all others ---------------------------------------------

  // The steps of the call that are left, when k bytes have been written ...
  function Writes(st: Setup, c: nat, k: nat): seq<Step>
    decreases st.messageSize - k
  {
    if k >= st.messageSize then [TakeExit(c)] else [WriteResult(c)] + Writes(st, c, k + 1)
  }

  // ... or whatever the stage of a child that has cooled down.
  function CallSteps(st: Setup, c: nat, stage: Stage): seq<Step> {
    match stage
    case Cooldown => [SeeResult(c)] + ([TakeResult(c)] + Writes(st, c, 0))
    case ResultSeen => [TakeResult(c)] + Writes(st, c, 0)
    case Writing(k) => Writes(st, c, k)
    case Finishing => [TakeExit(c)]
    case _ => []
  }

  // The bytes it has yet to write.
  function Unsent(st: Setup, c: nat, stage: Stage): seq<Byte> {
    match stage
    case Cooldown => Message(c, st.messageSize)
    case ResultSeen => Message(c, st.messageSize)
    case Writing(k) => if k <= st.messageSize then Message(c, st.messageSize)[k..] else []
    case _ => []
  }

  // The steps of child c in a run.
  function OwnSteps(steps: seq<Step>, c: nat): seq<Step> {
    if steps == [] then []
    else if steps[0].OfChild() && steps[0].c == c then [steps[0]] + OwnSteps(steps[1..], c)
    else OwnSteps(steps[1..], c)
  }

  // The bytes child c puts on the response pipe in a run.
  function SentBy(st: Setup, s: State, steps: seq<Step>, c: nat): seq<Byte>
    decreases |steps|
  {
    if steps == [] || !Enabled(st, s, steps[0]) then []
    else
      var t := Next(st, s, steps[0]);
      if steps[0].OfChild() && steps[0].c == c then Added(s, t) + SentBy(st, t, steps[1..], c)
      else SentBy(st, t, steps[1..], c)
  }

  // The bytes one step puts on the response pipe.
  function Added(s: State, t: State): seq<Byte> {
    if |t.response| > |s.response| then t.response[|s.response|..] else []
  }

  lemma WritesNext(st: Setup, stage: Stage, c: nat)
    requires stage.Writing? && stage.k < st.messageSize
    ensures var next := if stage.k + 1 < st.messageSize then Writing(stage.k + 1) else Finishing;
            CallSteps(st, c, stage) == [WriteResult(c)] + CallSteps(st, c, next)
  {
    assert Writes(st, c, stage.k) == [WriteResult(c)] + Writes(st, c, stage.k + 1);
  }

  lemma ReportStep(st: Setup, s: State, step: Step)
    requires step.OfChild() && ChildEnabled(st, s, step) && s.children[step.c].stage.Rank() >= 4
    requires ChildFine(st, s.children[step.c])
    ensures var t, c := ChildStep(st, s, step), step.c;
            CallSteps(st, c, s.children[c].stage) == [step] + CallSteps(st, c, t.children[c].stage)
  {
    var t, c := ChildStep(st, s, step), step.c;
    var after := t.children[c];
    assert after == ChildAfter(st, s, s.children[c], step);
    match step
    case SeeResult(_) => assert after.stage == ResultSeen;
    case TakeResult(_) => assert after.stage == Writing(0);
    case WriteResult(_) => WritesNext(st, s.children[c].stage, c);
    case TakeExit(_) => assert CallSteps(st, c, after.stage) == [] && [step] + [] == [step];
  }

  lemma WriteBytes(st: Setup, s: State, c: nat)
    requires ChildEnabled(st, s, WriteResult(c)) && s.children[c].stage.k < st.messageSize
    ensures var t := ChildStep(st, s, WriteResult(c));
            Unsent(st, c, s.children[c].stage) == Added(s, t) + Unsent(st, c, t.children[c].stage)
  {
    var t, k, m := ChildStep(st, s, WriteResult(c)), s.children[c].stage.k, Message(c, st.messageSize);
    assert Added(s, t) == [m[k]];
    assert m[k..] == [m[k]] + m[k + 1..];
  }

  lemma ReportBytes(st: Setup, s: State, step: Step)
    requires step.OfChild() && ChildEnabled(st, s, step) && s.children[step.c].stage.Rank() >= 4
    requires ChildFine(st, s.children[step.c])
    ensures var t, c := ChildStep(st, s, step), step.c;
            Unsent(st, c, s.children[c].stage) == Added(s, t) + Unsent(st, c, t.children[c].stage)
  {
    var t, c := ChildStep(st, s, step), step.c;
    if step.WriteResult? {
      WriteBytes(st, s, c);
    } else {
      var rest := Unsent(st, c, t.children[c].stage);
      assert Added(s, t) == [] && [] + rest == rest;
      if step.TakeResult? {
        assert Message(c, st.messageSize)[0..] == Message(c, st.messageSize);
      }
    }
  }

  lemma Joins<T>(plan: seq<T>, first: seq<T>, rest: seq<T>, own: seq<T>, end: seq<T>)
    requires plan == first + rest && rest == own + end
    ensures plan == first + own + end
  {
  }

  lemma OthersReport(st: Setup, s: State, step: Step, c: nat)
    requires Inv(st, s) && Enabled(st, s, step) && c < |s.children| && (step.OfChild() ==> step.c != c)
    ensures Next(st, s, step).children[c].stage == s.children[c].stage
  {
  }

  /** The call in which a child reports: whatever the other processes do in between, and however small the
      pipe, its steps are SeeResult, TakeResult, one WriteResult for every byte of the message and TakeExit,
      and the bytes it puts on the pipe are its message, in order. */
  lemma {:induction false} ReportCall(st: Setup, s: State, steps: seq<Step>, t: State, c: nat)
    requires st.Valid() && Inv(st, s) && Leads(st, s, steps, t) && c < |s.children| == |t.children|
    requires s.children[c].stage.Rank() >= 4
    ensures CallSteps(st, c, s.children[c].stage) == OwnSteps(steps, c) + CallSteps(st, c, t.children[c].stage)
    ensures Unsent(st, c, s.children[c].stage) == SentBy(st, s, steps, c) + Unsent(st, c, t.children[c].stage)
    decreases |steps|, 1
  {
    if steps != [] {
      var u := Next(st, s, steps[0]);
      StepKeeps(st, s, steps[0]);
      if steps[0].OfChild() && steps[0].c == c {
        OwnReport(st, s, steps, t);
      } else {
        OthersReport(st, s, steps[0], c);
        ReportCall(st, u, steps[1..], t, c);
        NotOwn(st, s, steps, c);
      }
    }
  }

  lemma NotOwn(st: Setup, s: State, steps: seq<Step>, c: nat)
    requires steps != [] && Enabled(st, s, steps[0]) && (steps[0].OfChild() ==> steps[0].c != c)
    ensures OwnSteps(steps, c) == OwnSteps(steps[1..], c)
    ensures SentBy(st, s, steps, c) == SentBy(st, Next(st, s, steps[0]), steps[1..], c)
  {
  }

  lemma {:induction false} OwnReport(st: Setup, s: State, steps: seq<Step>, t: State)
    requires st.Valid() && Inv(st, s) && Leads(st, s, steps, t) && steps != [] && steps[0].OfChild()
    requires steps[0].c < |s.children| == |t.children| && s.children[steps[0].c].stage.Rank() >= 4
    ensures var c := steps[0].c;
            && CallSteps(st, c, s.children[c].stage) == OwnSteps(steps, c) + CallSteps(st, c, t.children[c].stage)
            && Unsent(st, c, s.children[c].stage) == SentBy(st, s, steps, c) + Unsent(st, c, t.children[c].stage)
    decreases |steps|, 0
  {
    var c, u := steps[0].c, Next(st, s, steps[0]);
    StepKeeps(st, s, steps[0]);
    ReportStep(st, s, steps[0]);
    ReportBytes(st, s, steps[0]);
    StillReports(st, s, steps[0]);
    ReportCall(st, u, steps[1..], t, c);
    Joins(CallSteps(st, c, s.children[c].stage), [steps[0]], CallSteps(st, c, u.children[c].stage),
          OwnSteps(steps[1..], c), CallSteps(st, c, t.children[c].stage));
    Joins(Unsent(st, c, s.children[c].stage), Added(s, u), Unsent(st, c, u.children[c].stage),
          SentBy(st, u, steps[1..], c), Unsent(st, c, t.children[c].stage));
  }

  lemma StillReports(st: Setup, s: State, step: Step)
    requires step.OfChild() && ChildEnabled(st, s, step) && s.children[step.c].stage.Rank() >= 4
    ensures ChildStep(st, s, step).children[step.c].stage.Rank() >= 4
  {
  }

  /** So from the beginning of the call to the end of the process the child sends what the call is said to
      send. */
  lemma WholeReport(st: Setup, s: State, steps: seq<Step>, t: State, c: nat, y: Input)
    requires st.Valid() && Inv(st, s) && Leads(st, s, steps, t) && c < |s.children| == |t.children|
    requires s.children[c].stage.Cooldown? && t.children[c].stage.Exited? && y.resultSet
    ensures SentBy(st, s, steps, c) == CallSent(st, c, s.children[c], y)
    ensures OwnSteps(steps, c) == CallSteps(st, c, Cooldown)
    ensures t.children[c].stage == CallChild(st, s.children[c], y).stage
  {
    ReportCall(st, s, steps, t, c);
  }
}
