/** Every step of the benchmp protocol keeps its invariant. */
module BenchmpSteps {
  import opened Results
  import opened Benchmp
  import opened BenchmpCount
  import opened BenchmpInv

  // ---- Steps of children --------------------------------------------------------------------------

  // A child that is not merged moves on.
  lemma Moves(st: Setup, s: State, c: nat, ch: Child)
    requires Inv(st, s) && c < |s.children| && ChildFine(st, ch)
    requires ch.taken == s.children[c].taken && (ch.taken ==> ch.r == s.children[c].r)
    ensures ChildrenFine(st, s.children[c := ch]) && MergedFine(st, s.(children := s.children[c := ch]))
    ensures forall k: nat :: AtLeast(s.children[c := ch], k) == AtLeast(s.children, k) +
              (if ch.stage.Rank() >= k then 1 else 0) - (if s.children[c].stage.Rank() >= k then 1 else 0)
  {
    TakenUpdate(s.children, c, ch);
    TakenResultsKept(s.children, c, ch);
    forall k: nat
      ensures AtLeast(s.children[c := ch], k) == AtLeast(s.children, k) +
                (if ch.stage.Rank() >= k then 1 else 0) - (if s.children[c].stage.Rank() >= k then 1 else 0)
    {
      AtLeastUpdate(s.children, c, ch, k);
    }
  }

  // The message on its way stays the message of the same child when another one moves.
  lemma SameMessage(st: Setup, s: State, t: State, c: nat, i: nat, flow: seq<Byte>)
    requires OneMessage(st, s, i, flow) && c < |s.children| && |t.children| == |s.children|
    requires forall d :: 0 <= d < |s.children| && d != c ==> t.children[d] == s.children[d]
    requires t.children[c].taken == s.children[c].taken && !s.children[c].stage.Writing?
    requires s.children[c].stage.Rank() >= 7 ==> t.children[c].stage.Rank() >= 7
    requires AtLeast(t.children, 6) == AtLeast(s.children, 6) && AtLeast(t.children, 7) == AtLeast(s.children, 7)
    ensures OneMessage(st, t, i, flow)
  {
    if flow == [] && AtLeast(s.children, 6) == i {
    } else {
      var w: nat :| Writes(st, s, w, |flow|) && flow == Message(w, |flow|);
      assert Writes(st, t, w, |flow|);
    }
  }

  lemma LookKeeps(st: Setup, s: State, c: nat)
    requires st.Valid() && Inv(st, s) && ChildEnabled(st, s, Look(c))
    ensures Inv(st, ChildStep(st, s, Look(c)))
  {
    WhereStarting(st, s, c);
    Moves(st, s, c, ChildAfter(st, s, s.children[c], Look(c)));
  }

  lemma SendReadyKeeps(st: Setup, s: State, c: nat)
    requires st.Valid() && Inv(st, s) && ChildEnabled(st, s, SendReady(c))
    ensures Inv(st, ChildStep(st, s, SendReady(c)))
  {
    WhereStarting(st, s, c);
    Moves(st, s, c, ChildAfter(st, s, s.children[c], SendReady(c)));
  }

  lemma SeeStartKeeps(st: Setup, s: State, c: nat)
    requires st.Valid() && Inv(st, s) && ChildEnabled(st, s, SeeStart(c))
    ensures Inv(st, ChildStep(st, s, SeeStart(c)))
  {
    WhereBusy(st, s, c);
    Moves(st, s, c, ChildAfter(st, s, s.children[c], SeeStart(c)));
  }

  lemma TakeStartKeeps(st: Setup, s: State, c: nat)
    requires st.Valid() && Inv(st, s) && ChildEnabled(st, s, TakeStart(c))
    ensures Inv(st, ChildStep(st, s, TakeStart(c)))
  {
    WhereBusy(st, s, c);
    Moves(st, s, c, ChildAfter(st, s, s.children[c], TakeStart(c)));
  }

  // A timed interval leaves the child's list sorted, and no longer than the intervals counted.
  lemma AfterIntervalFine(st: Setup, ch: Child, x: Measurement, counted: bool, giveUp: bool)
    requires st.Valid() && ChildFine(st, ch) && ch.stage.Timing?
    requires st.parallel > 1 ==> counted && !giveUp && x.n == st.iterations
    ensures ChildFine(st, AfterInterval(st, ch, x, counted, giveUp))
  {
    if counted && x.u > 0 {
      InsertedSorted(ch.r, x);
      InsertedLength(ch.r, x);
      InsertedMultiset(ch.r, x);
      forall y | y in Inserted(ch.r, x)
        ensures y.u > 0 && (st.parallel > 1 ==> y.n == st.iterations)
      {
        assert y in multiset(Inserted(ch.r, x));
      }
    }
  }

  // A child that times on, or one that has done its last interval and says so.
  lemma TimesOn(st: Setup, s: State, c: nat, ch: Child)
    requires Inv(st, s) && c < |s.children| && s.children[c].stage.Timing? && !s.children[c].taken
    requires ChildFine(st, ch) && ch.stage.Timing? && !ch.taken
    ensures Inv(st, s.(children := s.children[c := ch]))
  {
    WhereTiming(st, s, c);
    Moves(st, s, c, ch);
  }

  lemma Stops(st: Setup, s: State, c: nat, ch: Child)
    requires Inv(st, s) && c < |s.children| && s.children[c].stage.Timing? && !s.children[c].taken
    requires ChildFine(st, ch) && ch.stage.Cooldown? && !ch.taken
    ensures Inv(st, s.(children := s.children[c := ch], response := s.response + [DoneByte]))
  {
    WhereTiming(st, s, c);
    Moves(st, s, c, ch);
  }

  lemma IntervalKeeps(st: Setup, s: State, step: Step)
    requires st.Valid() && Inv(st, s) && step.Interval? && ChildEnabled(st, s, step)
    ensures Inv(st, ChildStep(st, s, step))
  {
    var ch := AfterInterval(st, s.children[step.c], step.x, step.counted, step.giveUp);
    AfterIntervalFine(st, s.children[step.c], step.x, step.counted, step.giveUp);
    if ch.stage.Cooldown? {
      Stops(st, s, step.c, ch);
    } else {
      TimesOn(st, s, step.c, ch);
    }
  }

  lemma SeeResultMessage(st: Setup, s: State, c: nat)
    requires Inv(st, s) && ChildEnabled(st, s, SeeResult(c)) && s.parent.ReadResult?
    ensures var t := ChildStep(st, s, SeeResult(c)); OneMessage(st, t, s.parent.i, s.parent.buf + t.response)
  {
    var t := ChildStep(st, s, SeeResult(c));
    AtLeastUpdate(s.children, c, t.children[c], 6);
    AtLeastUpdate(s.children, c, t.children[c], 7);
    SameMessage(st, s, t, c, s.parent.i, s.parent.buf + s.response);
  }

  lemma SeeResultKeeps(st: Setup, s: State, c: nat)
    requires st.Valid() && Inv(st, s) && ChildEnabled(st, s, SeeResult(c))
    ensures Inv(st, ChildStep(st, s, SeeResult(c)))
  {
    Moves(st, s, c, ChildAfter(st, s, s.children[c], SeeResult(c)));
    if s.parent.ReadResult? {
      SeeResultMessage(st, s, c);
    }
  }

  lemma TakeResultKeeps(st: Setup, s: State, c: nat)
    requires st.Valid() && Inv(st, s) && ChildEnabled(st, s, TakeResult(c))
    ensures Inv(st, ChildStep(st, s, TakeResult(c)))
  {
    var t := ChildStep(st, s, TakeResult(c));
    WhereAsked(st, s, c);
    Moves(st, s, c, t.children[c]);
    assert Writes(st, t, c, 0);
    assert s.parent.buf + s.response == Message(c, 0);
  }

  // One more byte of the message is on its way.
  lemma WritesOn(st: Setup, s: State, c: nat)
    requires st.Valid() && ChildEnabled(st, s, WriteResult(c)) && ChildFine(st, s.children[c]) && s.parent.ReadResult?
    requires s.parent.buf + s.response == Message(c, s.children[c].stage.k)
    ensures var t, k := ChildStep(st, s, WriteResult(c)), s.children[c].stage.k;
            Writes(st, t, c, k + 1) && s.parent.buf + t.response == Message(c, k + 1)
  {
    var t, k := ChildStep(st, s, WriteResult(c)), s.children[c].stage.k;
    assert s.parent.buf + t.response == s.parent.buf + s.response + [ResultByte(c, k)] == Message(c, k + 1);
  }

  lemma WriteResultMessage(st: Setup, s: State, c: nat)
    requires st.Valid() && Inv(st, s) && ChildEnabled(st, s, WriteResult(c)) && s.parent.ReadResult?
    requires AtLeast(s.children, 6) == s.parent.i + 1 && AtLeast(s.children, 7) == s.parent.i
    requires s.parent.buf + s.response == Message(c, s.children[c].stage.k)
    ensures var t := ChildStep(st, s, WriteResult(c)); OneMessage(st, t, s.parent.i, s.parent.buf + t.response)
  {
    var t := ChildStep(st, s, WriteResult(c));
    assert ChildFine(st, s.children[c]);
    AtLeastUpdate(s.children, c, t.children[c], 6);
    AtLeastUpdate(s.children, c, t.children[c], 7);
    WritesOn(st, s, c);
  }

  lemma SameMerged(st: Setup, s: State, t: State, c: nat)
    requires c < |s.children| == |t.children| && t.parent == s.parent && t.merged == s.merged
    requires t.children == s.children[c := t.children[c]]
    requires MergedFine(st, s.(children := s.children[c := t.children[c]]))
    ensures MergedFine(st, t)
  {
  }

  // While the parent reads a list only the message and the counts around it matter.
  lemma Reporting(st: Setup, s: State, t: State)
    requires Inv(st, s) && s.parent.ReadResult? && t.parent == s.parent
    requires ChildrenFine(st, t.children) && MergedFine(st, t)
    requires t.start == s.start && t.result == s.result && t.exit == s.exit
    requires forall k :: 2 <= k <= 6 || k == 8 ==> AtLeast(t.children, k) == AtLeast(s.children, k)
    requires OneMessage(st, t, s.parent.i, s.parent.buf + t.response)
    ensures Inv(st, t)
  {
  }

  lemma WriteResultKeeps(st: Setup, s: State, c: nat)
    requires st.Valid() && Inv(st, s) && ChildEnabled(st, s, WriteResult(c))
    ensures Inv(st, ChildStep(st, s, WriteResult(c)))
  {
    WhereWriting(st, s, c);
    var t := ChildStep(st, s, WriteResult(c));
    Moves(st, s, c, t.children[c]);
    WriteResultMessage(st, s, c);
    SameMerged(st, s, t, c);
    Reporting(st, s, t);
  }

  lemma TakeExitKeeps(st: Setup, s: State, c: nat)
    requires st.Valid() && Inv(st, s) && ChildEnabled(st, s, TakeExit(c))
    ensures Inv(st, ChildStep(st, s, TakeExit(c)))
  {
    Moves(st, s, c, ChildStep(st, s, TakeExit(c)).children[c]);
  }

  lemma ChildStepKeeps(st: Setup, s: State, step: Step)
    requires st.Valid() && Inv(st, s) && step.OfChild() && ChildEnabled(st, s, step)
    ensures Inv(st, ChildStep(st, s, step))
  {
    match step
    case Look(c) => LookKeeps(st, s, c);
    case TakeEarly(c) =>
    case SendReady(c) => SendReadyKeeps(st, s, c);
    case SeeStart(c) => SeeStartKeeps(st, s, c);
    case TakeStart(c) => TakeStartKeeps(st, s, c);
    case Interval(_, _, _, _) => IntervalKeeps(st, s, step);
    case SeeResult(c) => SeeResultKeeps(st, s, c);
    case TakeResult(c) => TakeResultKeeps(st, s, c);
    case WriteResult(c) => WriteResultKeeps(st, s, c);
    case TakeExit(c) => TakeExitKeeps(st, s, c);
  }

  // ---- Steps of the parent --------------------------------------------------------------------------

  lemma ReadReadyKeeps(st: Setup, s: State, m: nat)
    requires st.Valid() && Inv(st, s) && s.parent.CollectReady? && ParentEnabled(st, s, ParentRead(m))
    ensures Inv(st, ParentStep(st, s, ParentRead(m)))
  {
    Falling(s.children);
  }

  lemma ReadDoneKeeps(st: Setup, s: State, m: nat)
    requires st.Valid() && Inv(st, s) && s.parent.CollectDone? && ParentEnabled(st, s, ParentRead(m))
    ensures Inv(st, ParentStep(st, s, ParentRead(m)))
  {
    Falling(s.children);
  }

  // A full buffer is the message of one child that has written it all and has not been merged yet.
  lemma FullBuffer(st: Setup, s: State, m: nat) returns (w: nat)
    requires st.Valid() && Inv(st, s) && s.parent.ReadResult? && ParentEnabled(st, s, ParentRead(m))
    requires |s.parent.buf| + m == st.messageSize
    ensures w < |s.children| && !s.children[w].taken && s.children[w].stage.Rank() >= 7
    ensures s.parent.buf + s.response[..m] == Message(w, st.messageSize) && s.response[m..] == []
    ensures AtLeast(s.children, 7) == s.parent.i + 1
  {
    var flow := s.parent.buf + s.response;
    w :| Writes(st, s, w, |flow|) && flow == Message(w, |flow|);
    assert s.response[..m] == s.response;
  }

  lemma ReadResultKeeps(st: Setup, s: State, m: nat)
    requires st.Valid() && Inv(st, s) && s.parent.ReadResult? && ParentEnabled(st, s, ParentRead(m))
    ensures Inv(st, ParentStep(st, s, ParentRead(m)))
  {
    var buf, i, t := s.parent.buf, s.parent.i, ParentStep(st, s, ParentRead(m));
    if |buf| + m < st.messageSize {
      assert (buf + s.response[..m]) + s.response[m..] == buf + s.response;
      var w: nat :| Writes(st, s, w, |buf + s.response|) && buf + s.response == Message(w, |buf + s.response|);
      assert Writes(st, t, w, |buf + s.response|);
    } else {
      var w := FullBuffer(st, s, m);
      assert (buf + s.response[..m])[0] == ResultByte(w, 0);
      MergeKeeps(st, s, m, w);
    }
  }

  lemma MergeKeeps(st: Setup, s: State, m: nat, w: nat)
    requires st.Valid() && Inv(st, s) && s.parent.ReadResult? && ParentEnabled(st, s, ParentRead(m))
    requires |s.parent.buf| + m == st.messageSize && w < |s.children| && !s.children[w].taken
    requires s.children[w].stage.Rank() >= 7 && s.response[m..] == [] && AtLeast(s.children, 7) == s.parent.i + 1
    requires s.parent.buf + s.response[..m] == Message(w, st.messageSize)
    requires (s.parent.buf + s.response[..m])[0] == ResultByte(w, 0)
    ensures Inv(st, ParentStep(st, s, ParentRead(m)))
  {
    var cs := s.children[w := s.children[w].(taken := true)];
    var merged := Merged(s.merged, s.children[w].r);
    Taken(st, s, w);
    MergedFacts(s.merged, s.children[w].r);
    AfterMerge(st, s, cs, merged, [], s.parent.i);
    assert MarkTaken(s.children, s.parent.buf + s.response[..m]) == cs;
  }

  // The parent goes on to the next list, or is done.
  lemma AfterMerge(st: Setup, s: State, cs: seq<Child>, merged: seq<Measurement>, rest: seq<Byte>, i: nat)
    requires Inv(st, s) && s.parent.ReadResult? && s.parent.i == i && rest == [] && AtLeast(s.children, 7) == i + 1
    requires ChildrenFine(st, cs) && forall k: nat :: AtLeast(cs, k) == AtLeast(s.children, k)
    requires TakenCount(cs) == i + 1 && Sorted(merged) && multiset(merged) == TakenResults(cs)
    ensures Inv(st, s.(response := rest, merged := merged, children := cs,
                       parent := if i + 1 == st.parallel then SendExit(0) else AskResult(i + 1)))
  {
    AtLeastFalls(s.children, 6, 7);
    AtLeastFalls(s.children, 7, 8);
  }

  // Only what has been merged changes when a child is marked.
  lemma Taken(st: Setup, s: State, w: nat)
    requires ChildrenFine(st, s.children) && w < |s.children| && !s.children[w].taken
    requires s.children[w].stage.Rank() >= 7
    ensures var cs := s.children[w := s.children[w].(taken := true)];
            && ChildrenFine(st, cs) && TakenCount(cs) == TakenCount(s.children) + 1
            && TakenResults(cs) == TakenResults(s.children) + multiset(s.children[w].r)
            && forall k: nat :: AtLeast(cs, k) == AtLeast(s.children, k)
  {
    var ch := s.children[w].(taken := true);
    forall k: nat
      ensures AtLeast(s.children[w := ch], k) == AtLeast(s.children, k)
    {
      AtLeastUpdate(s.children, w, ch, k);
    }
    TakenUpdate(s.children, w, ch);
    TakenResultsAdd(s.children, w);
  }

  lemma SendStartKeeps(st: Setup, s: State)
    requires st.Valid() && Inv(st, s) && s.parent.SendStart? && ParentEnabled(st, s, ParentWrite)
    ensures Inv(st, ParentStep(st, s, ParentWrite))
  {
    AtLeastFalls(s.children, 2, 3);
  }

  lemma AskResultKeeps(st: Setup, s: State)
    requires st.Valid() && Inv(st, s) && s.parent.AskResult? && ParentEnabled(st, s, ParentWrite)
    ensures Inv(st, ParentStep(st, s, ParentWrite))
  {
    AtLeastFalls(s.children, 6, 7);
  }

  lemma SendExitKeeps(st: Setup, s: State)
    requires st.Valid() && Inv(st, s) && s.parent.SendExit? && ParentEnabled(st, s, ParentWrite)
    ensures Inv(st, ParentStep(st, s, ParentWrite))
  {
  }

  lemma WriteKeeps(st: Setup, s: State)
    requires st.Valid() && Inv(st, s) && ParentEnabled(st, s, ParentWrite)
    ensures Inv(st, ParentStep(st, s, ParentWrite))
  {
    if s.parent.SendStart? {
      SendStartKeeps(st, s);
    } else if s.parent.AskResult? {
      AskResultKeeps(st, s);
    } else {
      SendExitKeeps(st, s);
    }
  }

  lemma ParentStepKeeps(st: Setup, s: State, step: Step)
    requires st.Valid() && Inv(st, s) && !step.OfChild() && ParentEnabled(st, s, step)
    ensures Inv(st, ParentStep(st, s, step))
  {
    match step
    case ParentWrite => WriteKeeps(st, s);
    case ParentRead(m) =>
      if s.parent.CollectReady? {
        ReadReadyKeeps(st, s, m);
      } else if s.parent.CollectDone? {
        ReadDoneKeeps(st, s, m);
      } else {
        ReadResultKeeps(st, s, m);
      }
  }

  /** Every step keeps the invariant ... */
  lemma StepKeeps(st: Setup, s: State, step: Step)
    requires st.Valid() && Inv(st, s) && Enabled(st, s, step)
    ensures Inv(st, Next(st, s, step))
  {
    if step.OfChild() {
      ChildStepKeeps(st, s, step);
    } else {
      ParentStepKeeps(st, s, step);
    }
  }

  // ... so a run does ...
  lemma {:induction false} RunKeeps(st: Setup, s: State, steps: seq<Step>, t: State)
    requires st.Valid() && Inv(st, s) && Leads(st, s, steps, t)
    ensures Inv(st, t)
    decreases |steps|
  {
    if steps != [] {
      StepKeeps(st, s, steps[0]);
      RunKeeps(st, Next(st, s, steps[0]), steps[1..], t);
    }
  }

  /** ... and it holds in every state that can be reached. */
  lemma ReachableHolds(st: Setup, s: State)
    requires st.Valid() && Reachable(st, s)
    ensures Inv(st, s)
  {
    var steps :| Leads(st, Init(st), steps, s);
    InitHolds(st);
    RunKeeps(st, Init(st), steps, s);
  }
}
