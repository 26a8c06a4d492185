/** Counting children: how many have got to a stage, and what they have recorded. */
module BenchmpCount {
  import opened Results
  import opened Benchmp

  // How many children are at least at stage number k.
  function AtLeast(cs: seq<Child>, k: nat): (n: nat)
    ensures n <= |cs|
  {
    if cs == [] then 0 else AtLeast(cs[1..], k) + if cs[0].stage.Rank() >= k then 1 else 0
  }

  function TakenCount(cs: seq<Child>): (n: nat)
    ensures n <= |cs|
  {
    if cs == [] then 0 else TakenCount(cs[1..]) + if cs[0].taken then 1 else 0
  }

  // Everything the children whose lists have been merged have recorded.
  function TakenResults(cs: seq<Child>): multiset<Measurement> {
    if cs == [] then multiset{} else TakenResults(cs[1..]) + if cs[0].taken then multiset(cs[0].r) else multiset{}
  }

  function AllResults(cs: seq<Child>): multiset<Measurement> {
    if cs == [] then multiset{} else AllResults(cs[1..]) + multiset(cs[0].r)
  }

  // ---- One child changes ------------------------------------------------------------------------

  lemma {:induction false} AtLeastUpdate(cs: seq<Child>, c: nat, ch: Child, k: nat)
    requires c < |cs|
    ensures AtLeast(cs[c := ch], k) ==
            AtLeast(cs, k) + (if ch.stage.Rank() >= k then 1 else 0) - (if cs[c].stage.Rank() >= k then 1 else 0)
  {
    var t := cs[c := ch];
    if c == 0 {
      assert t[1..] == cs[1..];
    } else {
      assert t[1..] == cs[1..][c - 1 := ch];
      AtLeastUpdate(cs[1..], c - 1, ch, k);
    }
  }

  lemma {:induction false} TakenUpdate(cs: seq<Child>, c: nat, ch: Child)
    requires c < |cs|
    ensures TakenCount(cs[c := ch]) == TakenCount(cs) + (if ch.taken then 1 else 0) - (if cs[c].taken then 1 else 0)
  {
    var t := cs[c := ch];
    if c == 0 {
      assert t[1..] == cs[1..];
    } else {
      assert t[1..] == cs[1..][c - 1 := ch];
      TakenUpdate(cs[1..], c - 1, ch);
    }
  }

  // A child that is not merged may record what it likes ...
  lemma {:induction false} TakenResultsKept(cs: seq<Child>, c: nat, ch: Child)
    requires c < |cs| && ch.taken == cs[c].taken && (ch.taken ==> ch.r == cs[c].r)
    ensures TakenResults(cs[c := ch]) == TakenResults(cs)
  {
    var t := cs[c := ch];
    if c == 0 {
      assert t[1..] == cs[1..];
    } else {
      assert t[1..] == cs[1..][c - 1 := ch];
      TakenResultsKept(cs[1..], c - 1, ch);
    }
  }

  // ... and one that is merged adds its list.
  lemma {:induction false} TakenResultsAdd(cs: seq<Child>, c: nat)
    requires c < |cs| && !cs[c].taken
    ensures TakenResults(cs[c := cs[c].(taken := true)]) == TakenResults(cs) + multiset(cs[c].r)
  {
    var t := cs[c := cs[c].(taken := true)];
    if c == 0 {
      assert t[1..] == cs[1..];
    } else {
      assert t[1..] == cs[1..][c - 1 := t[c]];
      TakenResultsAdd(cs[1..], c - 1);
    }
  }

  // ---- What a count says about single children --------------------------------------------------

  lemma {:induction false} AtLeastFalls(cs: seq<Child>, j: nat, k: nat)
    requires j <= k
    ensures AtLeast(cs, k) <= AtLeast(cs, j)
  {
    if cs != [] {
      AtLeastFalls(cs[1..], j, k);
    }
  }

  lemma {:induction false} AllAtLeast(cs: seq<Child>, k: nat, c: nat)
    requires AtLeast(cs, k) == |cs| && c < |cs|
    ensures cs[c].stage.Rank() >= k
  {
    if c > 0 {
      AllAtLeast(cs[1..], k, c - 1);
    }
  }

  lemma {:induction false} SomeBelow(cs: seq<Child>, k: nat) returns (c: nat)
    requires AtLeast(cs, k) < |cs|
    ensures c < |cs| && cs[c].stage.Rank() < k
  {
    c := 0;
    if cs[0].stage.Rank() >= k {
      var d := SomeBelow(cs[1..], k);
      c := d + 1;
    }
  }

  // A child exactly between two stages shows in the counts.
  lemma {:induction false} Between(cs: seq<Child>, j: nat, k: nat, c: nat)
    requires c < |cs| && j <= cs[c].stage.Rank() < k
    ensures AtLeast(cs, j) >= AtLeast(cs, k) + 1
  {
    if c == 0 {
      AtLeastFalls(cs[1..], j, k);
    } else {
      Between(cs[1..], j, k, c - 1);
    }
  }

  // If the counts differ by one only, there is one such child only.
  lemma OnlyBetween(cs: seq<Child>, j: nat, k: nat, c: nat, d: nat)
    requires c < |cs| && d < |cs| && j <= cs[c].stage.Rank() < k <= 8 && j <= cs[d].stage.Rank() < k
    requires AtLeast(cs, j) == AtLeast(cs, k) + 1
    ensures c == d
  {
    if c != d {
      var ch := cs[c].(stage := Exited);
      AtLeastUpdate(cs, c, ch, j);
      AtLeastUpdate(cs, c, ch, k);
      Between(cs[c := ch], j, k, d);
    }
  }

  lemma {:induction false} AllTaken(cs: seq<Child>, c: nat)
    requires TakenCount(cs) == |cs| && c < |cs|
    ensures cs[c].taken
  {
    if c > 0 {
      AllTaken(cs[1..], c - 1);
    }
  }

  lemma {:induction false} AllTakenResults(cs: seq<Child>)
    requires TakenCount(cs) == |cs|
    ensures TakenResults(cs) == AllResults(cs)
  {
    if cs != [] {
      AllTakenResults(cs[1..]);
    }
  }

  lemma {:induction false} NoneYet(cs: seq<Child>)
    requires forall c :: 0 <= c < |cs| ==> cs[c] == Child(Starting, 0, [], false)
    ensures TakenCount(cs) == 0 && TakenResults(cs) == multiset{}
    ensures forall k: nat :: k > 0 ==> AtLeast(cs, k) == 0
  {
    if cs != [] {
      NoneYet(cs[1..]);
    }
  }
}
