/** The invariant of the benchmp protocol: every step of every run keeps it.

    Bytes on a pipe are all alike, so what they mean has to follow from counting: the bytes written
    so far, the bytes read so far, and how many children have got how far. */
module BenchmpInv {
  import opened Results
  import opened Benchmp
  import opened BenchmpCount

  // ---- What the parent has written and merged -----------------------------------------------------

  function StartsSent(st: Setup, p: Parent): nat {
    match p
    case CollectReady(_) => 0
    case SendStart(k) => k
    case _ => st.parallel
  }

  function ResultsAsked(st: Setup, p: Parent): nat {
    match p
    case AskResult(i) => i
    case ReadResult(i, _) => i + 1
    case SendExit(_) => st.parallel
    case Ended => st.parallel
    case _ => 0
  }

  function ExitsSent(st: Setup, p: Parent): nat {
    match p
    case SendExit(k) => k
    case Ended => st.parallel
    case _ => 0
  }

  function ListsMerged(st: Setup, p: Parent): nat {
    match p
    case AskResult(i) => i
    case ReadResult(i, _) => i
    case SendExit(_) => st.parallel
    case Ended => st.parallel
    case _ => 0
  }

  // ---- The invariant ------------------------------------------------------------------------------

  // Bytes written == bytes in the pipe + bytes read, and nobody has seen a byte before there was one.
  ghost predicate Balanced(st: Setup, s: State) {
    && StartsSent(st, s.parent) == s.start + AtLeast(s.children, 3)
    && ResultsAsked(st, s.parent) == s.result + AtLeast(s.children, 6)
    && ExitsSent(st, s.parent) == s.exit + AtLeast(s.children, 8)
    && (StartsSent(st, s.parent) == 0 ==> AtLeast(s.children, 2) == 0)
    && (ResultsAsked(st, s.parent) == 0 ==> AtLeast(s.children, 5) == 0)
  }

  ghost predicate AllAre(bytes: seq<Byte>, b: Byte) {
    forall j :: 0 <= j < |bytes| ==> bytes[j] == b
  }

  // Child w has written the first k bytes of its results, and nobody has taken them for merged.
  predicate Writes(st: Setup, s: State, w: nat, k: nat) {
    && w < |s.children| && !s.children[w].taken
    && (s.children[w].stage == Writing(k) || (k == st.messageSize && s.children[w].stage.Rank() >= 7))
  }

  // flow is what has been written after the parent asked for list i: nothing yet, or the beginning of
  // the results of one child.
  ghost predicate OneMessage(st: Setup, s: State, i: nat, flow: seq<Byte>) {
    var begun, written := AtLeast(s.children, 6), AtLeast(s.children, 7);
    if flow == [] && begun == i then written == i
    else
      && begun == i + 1 && |flow| <= st.messageSize
      && written == (if |flow| == st.messageSize then i + 1 else i)
      && exists w: nat :: Writes(st, s, w, |flow|) && flow == Message(w, |flow|)
  }

  // What is on the response pipe while the parent is where it is.
  ghost predicate Phase(st: Setup, s: State) {
    var n := st.parallel;
    match s.parent
    case CollectReady(i) =>
      i < n && AllAre(s.response, ReadyByte) && i + |s.response| == AtLeast(s.children, 1)
    case SendStart(k) =>
      k < n && AtLeast(s.children, 1) == n && AllAre(s.response, DoneByte) && |s.response| == AtLeast(s.children, 4)
    case CollectDone(i) =>
      i < n && AtLeast(s.children, 1) == n && AllAre(s.response, DoneByte) && i + |s.response| == AtLeast(s.children, 4)
    case AskResult(i) =>
      i < n && AtLeast(s.children, 4) == n && s.response == [] && AtLeast(s.children, 7) == i
    case ReadResult(i, buf) =>
      i < n && AtLeast(s.children, 4) == n && |buf| < st.messageSize && OneMessage(st, s, i, buf + s.response)
    case SendExit(k) =>
      k < n && AtLeast(s.children, 7) == n && s.response == []
    case Ended =>
      AtLeast(s.children, 7) == n && s.response == []
  }

  // With more than one child every interval counts, all are of the same length, and a child stops after
  // exactly Intervals().
  ghost predicate ChildFine(st: Setup, ch: Child) {
    && Sorted(ch.r) && |ch.r| <= ch.i <= st.Intervals() && (forall x :: x in ch.r ==> x.u > 0)
    && (ch.stage.Rank() <= 2 ==> ch.i == 0)
    && (ch.stage.Rank() <= 3 ==> ch.i < st.Intervals())
    && (ch.stage.Rank() >= 4 && st.parallel > 1 ==> ch.i == st.Intervals())
    && (ch.stage.Writing? ==> ch.stage.k < st.messageSize)
    && (ch.taken ==> ch.stage.Rank() >= 7)
    && !ch.stage.Early? && !ch.stage.EarlyTaken?
    && (st.parallel > 1 ==> forall x :: x in ch.r ==> x.n == st.iterations)
  }

  ghost predicate ChildrenFine(st: Setup, cs: seq<Child>) {
    |cs| == st.parallel && forall c :: 0 <= c < |cs| ==> ChildFine(st, cs[c])
  }

  // merged holds the lists of the children that are taken, and of nobody else.
  ghost predicate MergedFine(st: Setup, s: State) {
    && TakenCount(s.children) == ListsMerged(st, s.parent)
    && Sorted(s.merged) && multiset(s.merged) == TakenResults(s.children)
  }

  ghost predicate Inv(st: Setup, s: State) {
    ChildrenFine(st, s.children) && Balanced(st, s) && Phase(st, s) && MergedFine(st, s)
  }

  lemma InitHolds(st: Setup)
    requires st.Valid()
    ensures Inv(st, Init(st))
  {
    NoneYet(Init(st).children);
  }

  // ---- What the invariant says where a child is ---------------------------------------------------

  // The counts fall from stage to stage.
  lemma Falling(cs: seq<Child>)
    ensures forall j, k :: 0 <= j <= k ==> AtLeast(cs, k) <= AtLeast(cs, j)
  {
    forall j: nat, k: nat | j <= k
      ensures AtLeast(cs, k) <= AtLeast(cs, j)
    {
      AtLeastFalls(cs, j, k);
    }
  }

  // While a child has not started, the parent is collecting ready bytes.
  lemma WhereStarting(st: Setup, s: State, c: nat)
    requires Inv(st, s) && c < |s.children| && s.children[c].stage.Rank() == 0
    ensures s.parent.CollectReady? && s.start == 0
  {
    if !s.parent.CollectReady? {
      AtLeastFalls(s.children, 1, 4);
      AtLeastFalls(s.children, 1, 7);
      AllAtLeast(s.children, 1, c);
    }
  }

  // While a child has not finished timing, the parent is not asking for results.
  lemma WhereBusy(st: Setup, s: State, c: nat)
    requires Inv(st, s) && c < |s.children| && s.children[c].stage.Rank() <= 3
    ensures s.parent.CollectReady? || s.parent.SendStart? || s.parent.CollectDone?
  {
    Between(s.children, 0, 4, c);
    AtLeastFalls(s.children, 4, 7);
  }

  // While a child is timing, the parent is sending start bytes or collecting done bytes.
  lemma WhereTiming(st: Setup, s: State, c: nat)
    requires Inv(st, s) && c < |s.children| && s.children[c].stage.Timing?
    ensures s.parent.SendStart? || s.parent.CollectDone?
  {
    Between(s.children, 3, 4, c);
    AtLeastFalls(s.children, 4, 7);
  }

  // While a child is about to write its results, nobody else is.
  lemma WhereAsked(st: Setup, s: State, c: nat)
    requires Inv(st, s) && c < |s.children| && s.children[c].stage.ResultSeen? && s.result > 0
    ensures s.parent.ReadResult? && s.parent.buf == [] && s.response == [] && AtLeast(s.children, 6) == s.parent.i
  {
    AtLeastFalls(s.children, 6, 7);
  }

  // While a child is writing its results, the parent is reading them, and it has got its beginning.
  lemma WhereWriting(st: Setup, s: State, c: nat)
    requires Inv(st, s) && c < |s.children| && s.children[c].stage.Writing?
    ensures s.parent.ReadResult? && AtLeast(s.children, 6) == s.parent.i + 1 && AtLeast(s.children, 7) == s.parent.i
    ensures s.parent.buf + s.response == Message(c, s.children[c].stage.k)
  {
    Between(s.children, 6, 7, c);
    var i, flow := s.parent.i, s.parent.buf + s.response;
    var w: nat :| Writes(st, s, w, |flow|) && flow == Message(w, |flow|);
    OnlyBetween(s.children, 6, 7, c, w);
  }
}
