/** What the invariant of the benchmp protocol means for its runs. */
module BenchmpRuns {
  import opened Results
  import opened Benchmp
  import opened BenchmpCount
  import opened BenchmpInv
  import opened BenchmpSteps

  // ---- Safety -------------------------------------------------------------------------------------

  /** The barrier: a child that is timing, or has been, finds all others ready, and the parent has
      taken all their ready bytes. */
  lemma Barrier(st: Setup, s: State, c: nat, d: nat)
    requires st.Valid() && Reachable(st, s) && c < |s.children| && d < |s.children|
    requires s.children[c].stage.Rank() >= 3
    ensures s.children[d].stage.Rank() >= 1 && !s.parent.CollectReady?
  {
    ReachableHolds(st, s);
    Between(s.children, 3, 9, c);
    AtLeastFalls(s.children, 1, 4);
    AtLeastFalls(s.children, 1, 7);
    AllAtLeast(s.children, 1, d);
  }

  /** While one child has yet to finish timing, no other has stopped working: none has seen, let alone
      taken, a request for its results. */
  lemma KeepRunning(st: Setup, s: State, c: nat, d: nat)
    requires st.Valid() && Reachable(st, s) && c < |s.children| && d < |s.children|
    requires s.children[c].stage.Rank() <= 3
    ensures s.children[d].stage.Rank() <= 4
  {
    ReachableHolds(st, s);
    Between(s.children, 0, 4, c);
    AtLeastFalls(s.children, 4, 7);
    if s.children[d].stage.Rank() > 4 {
      Between(s.children, 5, 9, d);
    }
  }

  /** One child writes its results at a time, and what it has written is all the parent has got, or has
      still to get, of the list it is reading. */
  lemma OneWriter(st: Setup, s: State, c: nat, d: nat)
    requires st.Valid() && Reachable(st, s) && c < |s.children| && d < |s.children|
    requires s.children[c].stage.Writing? && s.children[d].stage.Writing?
    ensures c == d && s.parent.ReadResult?
    ensures s.parent.buf + s.response == Message(c, s.children[c].stage.k)
  {
    ReachableHolds(st, s);
    WhereWriting(st, s, c);
    OnlyBetween(s.children, 6, 7, c, d);
  }

  /** The response pipe never mixes what it carries: it holds the bytes the parent is counting, or done
      bytes it will count next, or bytes of one child's results, in order. */
  lemma NoMixing(st: Setup, s: State)
    requires st.Valid() && Reachable(st, s)
    ensures s.parent.CollectReady? ==> AllAre(s.response, ReadyByte)
    ensures s.parent.SendStart? || s.parent.CollectDone? ==> AllAre(s.response, DoneByte)
    ensures s.parent.ReadResult? ==> exists w: nat :: w < st.parallel && FromOne(w, s.parent.buf, s.response)
    ensures s.parent.AskResult? || s.parent.SendExit? || s.parent.Ended? ==> s.response == []
  {
    ReachableHolds(st, s);
    if s.parent.ReadResult? {
      var flow := s.parent.buf + s.response;
      if flow == [] {
        assert FromOne(0, s.parent.buf, s.response);
      } else {
        var w: nat :| Writes(st, s, w, |flow|) && flow == Message(w, |flow|);
        assert FromOne(w, s.parent.buf, s.response);
      }
    }
  }

  ghost predicate FromOne(w: nat, buf: seq<Byte>, response: seq<Byte>) {
    buf + response == Message(w, |buf| + |response|)
  }

  /** Whenever the parent fills its buffer, it has read the whole list of one child, the pipe is empty,
      and exactly that list is merged. */
  lemma WholeLists(st: Setup, s: State, m: nat) returns (w: nat)
    requires st.Valid() && Reachable(st, s) && s.parent.ReadResult? && ParentEnabled(st, s, ParentRead(m))
    requires |s.parent.buf| + m == st.messageSize
    ensures w < |s.children| && !s.children[w].taken && s.children[w].stage.Rank() >= 7
    ensures var t := ParentStep(st, s, ParentRead(m));
            t.response == [] && t.merged == Merged(s.merged, s.children[w].r) && t.children[w].taken
  {
    ReachableHolds(st, s);
    w := FullBuffer(st, s, m);
    assert (s.parent.buf + s.response[..m])[0] == ResultByte(w, 0);
  }

  // ---- Completion ---------------------------------------------------------------------------------

  ghost predicate Completed(s: State) {
    s.parent.Ended? && forall c :: 0 <= c < |s.children| ==> s.children[c].stage.Exited?
  }

  /** Once the parent has asked the children to exit, it has the lists of all of them, sorted; ... */
  lemma MergedAll(st: Setup, s: State)
    requires st.Valid() && Reachable(st, s) && (s.parent.SendExit? || s.parent.Ended?)
    ensures Sorted(s.merged) && multiset(s.merged) == AllResults(s.children)
  {
    ReachableHolds(st, s);
    AllTakenResults(s.children);
  }

  /** ... and when all is over, the pipes are empty, and with more than one child each has completed
      exactly the intervals it was asked for. */
  lemma NothingLeft(st: Setup, s: State)
    requires st.Valid() && Reachable(st, s) && Completed(s)
    ensures s.response == [] && s.start == 0 && s.result == 0 && s.exit == 0
    ensures st.parallel > 1 ==> forall c :: 0 <= c < |s.children| ==> s.children[c].i == st.Intervals()
  {
    ReachableHolds(st, s);
    if AtLeast(s.children, 8) < |s.children| {
      var c := SomeBelow(s.children, 8);
    }
    Falling(s.children);
  }


  // ---- The median -----------------------------------------------------------------------------------

  lemma {:induction false} TakenLength(st: Setup, cs: seq<Child>, x: Measurement)
    requires forall c :: 0 <= c < |cs| ==> forall y :: y in cs[c].r ==> y.n == st.iterations
    requires x in TakenResults(cs)
    ensures x.n == st.iterations
  {
    if x in TakenResults(cs[1..]) {
      TakenLength(st, cs[1..], x);
    }
  }

  /** With several children every value merged is for the same number of iterations in every run, so that
      set_results always keeps a median. */
  lemma MergedHasMedian(st: Setup, s: State)
    requires st.Valid() && st.parallel > 1 && Reachable(st, s)
    ensures SameIterations(s.merged) && HasMedian(s.merged)
  {
    ReachableHolds(st, s);
    forall i | 0 <= i < |s.merged|
      ensures s.merged[i].n == st.iterations
    {
      assert s.merged[i] in multiset(s.merged);
      assert forall c :: 0 <= c < |s.children| ==> ChildFine(st, s.children[c]);
      TakenLength(st, s.children, s.merged[i]);
    }
    SameHasMedian(s.merged);
  }
}
