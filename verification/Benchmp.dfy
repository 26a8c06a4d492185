/** The protocol between benchmp_parent and its children (lib_timing.c), as a state machine over
    four pipes.

    A step of the machine is one pipe operation of one process, with the computation that leads up
    to it.  select(), the read() it guards and the write() that may follow are separate steps, so other
    processes can run in between.
    Pipes are bounded; parallel and the number of repetitions are arbitrary. */
module Benchmp {
  import opened Results

  // What does not change: the number of children, the timed intervals each has to complete, the
  // length of an interval with several children (iterations of benchmp), the capacity of a pipe in
  // bytes, and the size of a result message in bytes.
  datatype Setup = Setup(parallel: nat, repetitions: int, iterations: nat, capacity: nat, messageSize: nat)
  {
    predicate Valid() {
      parallel > 0 && iterations > 0 && capacity > 0 && messageSize > 0
    }

    // state->i has to reach repetitions, and is compared after it has been incremented.
    function Intervals(): nat {
      if repetitions <= 0 then 1 else repetitions
    }
  }

  // Where a child is in benchmp_interval, in the order in which it gets there.
  datatype Stage =
    | Starting           // has not called benchmp_interval (state warmup, need_warmup)
    | Called             // in its first call, select() has reported nothing
    | Early              // in its first call, select() has reported a start byte
    | EarlyTaken         // and it has read it
    | Warmup             // has sent its ready byte
    | StartSeen          // select() has reported a start byte
    | Timing             // has read the start byte (state timing_interval)
    | Cooldown           // has sent its done byte
    | ResultSeen         // select() has reported a result byte
    | Writing(k: nat)    // has read it, and written k bytes of its results
    | Finishing          // has written its results, and waits for an exit byte
    | Exited
  {
    function Rank(): nat {
      match this
      case Starting => 0
      case Called => 0
      case Early => 0
      case EarlyTaken => 0
      case Warmup => 1
      case StartSeen => 2
      case Timing => 3
      case Cooldown => 4
      case ResultSeen => 5
      case Writing(_) => 6
      case Finishing => 7
      case Exited => 8
    }
  }

  // A child: its stage, the timed intervals it has completed, and the results it has recorded.
  // taken is not part of the program: it says whether the parent has merged the results.
  datatype Child = Child(stage: Stage, i: nat, r: seq<Measurement>, taken: bool)

  // The bytes on the response pipe.  The parent cannot tell them apart; it only counts.
  datatype Byte = ReadyByte | DoneByte | ResultByte(child: nat, k: nat)

  // Where the parent is.
  datatype Parent =
    | CollectReady(i: nat)                 // has read i ready bytes
    | SendStart(k: nat)                    // has written k start bytes
    | CollectDone(i: nat)                  // has read i done bytes
    | AskResult(i: nat)                    // has merged i lists
    | ReadResult(i: nat, buf: seq<Byte>)   // has asked for one more, and read so much of it
    | SendExit(k: nat)                     // has written k exit bytes
    | Ended

  datatype State = State(
    parent: Parent,
    children: seq<Child>,
    response: seq<Byte>,   // bytes in the response pipe
    start: nat,            // bytes in the start pipe ...
    result: nat,
    exit: nat,
    merged: seq<Measurement>)

  datatype Step =
    | Look(c: nat)                   // a child's first call: select()
    | TakeEarly(c: nat)              // ... read(), if there was a byte
    | SendReady(c: nat)              // ... write()
    | SeeStart(c: nat)
    | TakeStart(c: nat)
    | Interval(c: nat, x: Measurement, counted: bool, giveUp: bool)  // a timed interval ends
    | SeeResult(c: nat)
    | TakeResult(c: nat)
    | WriteResult(c: nat)
    | TakeExit(c: nat)
    | ParentRead(m: nat)             // the parent reads m bytes
    | ParentWrite                    // the parent writes one byte
  {
    predicate OfChild() {
      Look? || TakeEarly? || SendReady? || SeeStart? || TakeStart? || Interval? || SeeResult? || TakeResult? || WriteResult? || TakeExit?
    }
  }

  // ---- Children ---------------------------------------------------------------------------------

  // The end of a timed interval, lines 713-735.  With one child only, an interval may not count (it
  // was too short), the child may give up, or change the length of its intervals.
  function AfterInterval(st: Setup, ch: Child, x: Measurement, counted: bool, giveUp: bool): Child {
    var i := if counted then ch.i + 1 else ch.i;
    var r := if counted then Recorded(ch.r, x) else ch.r;
    ch.(i := i, r := r, stage := if (counted && i >= st.repetitions) || giveUp then Cooldown else Timing)
  }

  // The child a step leads to.
  function ChildAfter(st: Setup, s: State, ch: Child, step: Step): Child
    requires step.OfChild()
  {
    match step
    case Look(_) => ch.(stage := if s.start > 0 then Early else Called)
    case TakeEarly(_) => ch.(stage := EarlyTaken)
    case SendReady(_) => ch.(stage := if ch.stage.EarlyTaken? then Timing else Warmup)
    case SeeStart(_) => ch.(stage := StartSeen)
    case TakeStart(_) => ch.(stage := Timing)
    case Interval(_, x, counted, giveUp) => AfterInterval(st, ch, x, counted, giveUp)
    case SeeResult(_) => ch.(stage := ResultSeen)
    case TakeResult(_) => ch.(stage := Writing(0))
    case WriteResult(_) =>
      if ch.stage.Writing? && ch.stage.k + 1 < st.messageSize then ch.(stage := Writing(ch.stage.k + 1))
      else ch.(stage := Finishing)
    case TakeExit(_) => ch.(stage := Exited)
  }

  predicate Room(st: Setup, s: State) {
    |s.response| < st.capacity
  }

  predicate ChildEnabled(st: Setup, s: State, step: Step)
    requires step.OfChild()
  {
    step.c < |s.children| &&
    var ch := s.children[step.c];
    match step
    case Look(_) => ch.stage.Starting?
    case TakeEarly(_) => ch.stage.Early? && s.start > 0
    case SendReady(_) => (ch.stage.Called? || ch.stage.EarlyTaken?) && Room(st, s)
    case SeeStart(_) => ch.stage.Warmup? && s.start > 0
    case TakeStart(_) => ch.stage.StartSeen? && s.start > 0
    case Interval(_, x, counted, giveUp) =>
      && ch.stage.Timing? && (st.parallel > 1 ==> counted && !giveUp && x.n == st.iterations)
      && (AfterInterval(st, ch, x, counted, giveUp).stage.Cooldown? ==> Room(st, s))
    case SeeResult(_) => ch.stage.Cooldown? && s.result > 0
    case TakeResult(_) => ch.stage.ResultSeen? && s.result > 0
    case WriteResult(_) => ch.stage.Writing? && Room(st, s)
    case TakeExit(_) => ch.stage.Finishing? && s.exit > 0
  }

  function ChildStep(st: Setup, s: State, step: Step): State
    requires step.OfChild() && ChildEnabled(st, s, step)
  {
    var ch := s.children[step.c];
    var t := s.(children := s.children[step.c := ChildAfter(st, s, ch, step)]);
    match step
    case Look(_) => t
    case TakeEarly(_) => t.(start := s.start - 1)
    case SendReady(_) => t.(response := s.response + [ReadyByte])
    case SeeStart(_) => t
    case TakeStart(_) => t.(start := s.start - 1)
    case Interval(_, x, counted, giveUp) =>
      if AfterInterval(st, ch, x, counted, giveUp).stage.Cooldown? then t.(response := s.response + [DoneByte]) else t
    case SeeResult(_) => t
    case TakeResult(_) => t.(result := s.result - 1)
    case WriteResult(c) => t.(response := s.response + [ResultByte(c, ch.stage.k)])
    case TakeExit(_) => t.(exit := s.exit - 1)
  }

  // ---- The parent ---------------------------------------------------------------------------------

  // The first k bytes of the result message of child c.
  function Message(c: nat, k: nat): seq<Byte> {
    seq(k, (j: nat) => ResultByte(c, j))
  }

  // What the parent takes the bytes of a full buffer for: the results of a child if they are the
  // message of that child, and otherwise nothing it could use.
  function Decoded(st: Setup, children: seq<Child>, buf: seq<Byte>): seq<Measurement> {
    if buf != [] && buf[0].ResultByte? && buf[0].child < |children| && buf == Message(buf[0].child, st.messageSize)
    then children[buf[0].child].r else []
  }

  // The history variable: the sender of the buffer has been merged.
  function MarkTaken(children: seq<Child>, buf: seq<Byte>): seq<Child> {
    if buf != [] && buf[0].ResultByte? && buf[0].child < |children|
    then children[buf[0].child := children[buf[0].child].(taken := true)] else children
  }

  // How many bytes the parent still asks read() for.
  function Wanted(st: Setup, p: Parent): int {
    match p
    case CollectReady(i) => st.parallel - i
    case CollectDone(i) => st.parallel - i
    case ReadResult(_, buf) => st.messageSize - |buf|
    case _ => 0
  }

  predicate ParentEnabled(st: Setup, s: State, step: Step)
    requires !step.OfChild()
  {
    match step
    case ParentRead(m) => 0 < m <= |s.response| && m <= Wanted(st, s.parent)
    case ParentWrite =>
      match s.parent
      case SendStart(_) => s.start < st.capacity
      case AskResult(_) => s.result < st.capacity
      case SendExit(_) => s.exit < st.capacity
      case _ => false
  }

  function ParentStep(st: Setup, s: State, step: Step): State
    requires !step.OfChild() && ParentEnabled(st, s, step)
  {
    match step
    case ParentRead(m) =>
      var rest, got := s.response[m..], s.response[..m];
      (match s.parent
       case CollectReady(i) =>
         s.(response := rest, parent := if i + m == st.parallel then SendStart(0) else CollectReady(i + m))
       case CollectDone(i) =>
         s.(response := rest, parent := if i + m == st.parallel then AskResult(0) else CollectDone(i + m))
       case ReadResult(i, buf) =>
         if |buf| + m < st.messageSize then s.(response := rest, parent := ReadResult(i, buf + got))
         else s.(
           response := rest,
           merged := Merged(s.merged, Decoded(st, s.children, buf + got)),
           children := MarkTaken(s.children, buf + got),
           parent := if i + 1 == st.parallel then SendExit(0) else AskResult(i + 1))
       case _ => s)
    case ParentWrite =>
      match s.parent
      case SendStart(k) =>
        s.(start := s.start + 1, parent := if k + 1 == st.parallel then CollectDone(0) else SendStart(k + 1))
      case AskResult(i) => s.(result := s.result + 1, parent := ReadResult(i, []))
      case SendExit(k) =>
        s.(exit := s.exit + 1, parent := if k + 1 == st.parallel then Ended else SendExit(k + 1))
      case _ => s
  }

  // ---- Runs -----------------------------------------------------------------------------------------

  predicate Enabled(st: Setup, s: State, step: Step) {
    if step.OfChild() then ChildEnabled(st, s, step) else ParentEnabled(st, s, step)
  }

  function Next(st: Setup, s: State, step: Step): State
    requires Enabled(st, s, step)
  {
    if step.OfChild() then ChildStep(st, s, step) else ParentStep(st, s, step)
  }

  function Init(st: Setup): State {
    State(CollectReady(0), seq(st.parallel, c => Child(Starting, 0, [], false)), [], 0, 0, 0, [])
  }

  // The steps can be taken one after the other, from s to t.
  ghost predicate Leads(st: Setup, s: State, steps: seq<Step>, t: State)
    decreases |steps|
  {
    if steps == [] then s == t
    else Enabled(st, s, steps[0]) && Leads(st, Next(st, s, steps[0]), steps[1..], t)
  }

  ghost predicate Reachable(st: Setup, s: State) {
    exists steps :: Leads(st, Init(st), steps, s)
  }
}
