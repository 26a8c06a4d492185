/** Placement of benchmark processes on processors (lib_sched.c). */
module Sched {
  import opened Arith
  import opened Bits
  import opened Words

  // The number of bits reverse_bits reverses: enough for the largest processor id, and at least 1.
  function BitsFor(ncpus: nat): nat
    requires ncpus > 0
  {
    if ncpus <= 2 then 1 else Log2(ncpus - 1) + 1
  }

  /** reverse_bits, lines 106-122. */
  method ReverseCpu(cpu: nat, ncpus: nat) returns (r: nat)
    requires ncpus > 0
    ensures r == Rev(cpu, BitsFor(ncpus))
  {
    var max := ncpus - 1;
    var nbits := 1;
    var i := max / 2;
    while i > 0
      invariant i >= 0 && BitsFor(ncpus) == nbits + if i == 0 then 0 else 1 + Log2(i)
    {
      i := i / 2;
      nbits := nbits + 1;
    }
    r := ReverseBits(cpu, nbits);
  }

  // The values of LMBENCH_SCHED that compute a processor from ids.
  datatype Policy = Single | Balanced | BalancedSpread | Unique | UniqueSpread

  // The logical number of a process, line 77.
  function ProcessId(childno: nat, benchproc: nat, nbenchprocs: nat): nat {
    childno * (nbenchprocs + 1) + benchproc
  }

  /** The processor handle_scheduler pins a process to, lines 54-97. */
  method Place(policy: Policy, childno: nat, benchproc: nat, nbenchprocs: nat, ncpus: nat) returns (cpu: nat)
    requires ncpus > 0
    ensures cpu < ncpus
    ensures cpu == Cpu(policy, childno, benchproc, nbenchprocs, ncpus)
  {
    cpu := 0;
    match policy {
      case Single => cpu := 0;
      case Balanced => cpu := childno;
      case BalancedSpread => cpu := ReverseCpu(childno, ncpus);
      case Unique => cpu := childno * (nbenchprocs + 1) + benchproc;
      case UniqueSpread => cpu := ReverseCpu(childno * (nbenchprocs + 1) + benchproc, ncpus);
    }
    cpu := cpu % ncpus;
  }

  function Cpu(policy: Policy, childno: nat, benchproc: nat, nbenchprocs: nat, ncpus: nat): nat
    requires ncpus > 0
  {
    match policy
    case Single => 0 % ncpus
    case Balanced => childno % ncpus
    case BalancedSpread => Rev(childno, BitsFor(ncpus)) % ncpus
    case Unique => ProcessId(childno, benchproc, nbenchprocs) % ncpus
    case UniqueSpread => Rev(ProcessId(childno, benchproc, nbenchprocs), BitsFor(ncpus)) % ncpus
  }

  // Where the process with logical number id goes when ids are spread.
  function Spread(id: nat, ncpus: nat): nat
    requires ncpus > 0
  {
    Rev(id, BitsFor(ncpus)) % ncpus
  }

  // No two of the ids that fit on the machine share a processor.
  ghost predicate SpreadsApart(ncpus: nat)
    requires ncpus > 0
  {
    forall id: nat, id': nat :: id < id' < ncpus ==> Spread(id, ncpus) != Spread(id', ncpus)
  }

  lemma BitsBound(ncpus: nat)
    requires ncpus > 0
    ensures ncpus <= Pow2(BitsFor(ncpus))
    ensures ncpus > 2 ==> Pow2(BitsFor(ncpus) - 1) < ncpus
  {
  }

  lemma {:induction false} RevOnes(k: nat)
    ensures Rev(Pow2(k) - 1, k) == Pow2(k) - 1
  {
    if k > 0 {
      RevOnes(k - 1);
      assert (Pow2(k) - 1) / 2 == Pow2(k - 1) - 1 && (Pow2(k) - 1) % 2 == 1;
    }
  }

  lemma RevInjective(x: nat, y: nat, k: nat)
    requires x < Pow2(k) && y < Pow2(k) && Rev(x, k) == Rev(y, k)
    ensures x == y
  {
    RevInvolution(x, k);
    RevInvolution(y, k);
  }

  // An even number has its top bit clear when reversed.
  lemma RevOfEven(x: nat, k: nat)
    requires k > 0 && x % 2 == 0
    ensures Rev(x, k) < Pow2(k - 1)
  {
    RevBound(x / 2, k - 1);
    assert x % 2 * Pow2(k - 1) == 0;
  }

  lemma RevOfOne(k: nat)
    requires k > 0
    ensures Rev(1, k) == Pow2(k - 1)
  {
    RevZero(k - 1);
  }

  lemma SpreadWorks(ncpus: nat)
    requires ncpus > 0 && (IsPow2(ncpus) || IsPow2(ncpus + 1))
    ensures SpreadsApart(ncpus)
  {
    var k := BitsFor(ncpus);
    BitsBound(ncpus);
    var n: nat :| ncpus == Pow2(n) || ncpus + 1 == Pow2(n);
    PowerBetween(n, ncpus);
    forall id: nat | id < ncpus
      ensures Rev(id, k) < ncpus
    {
      RevBound(id, k);
      if ncpus + 1 == Pow2(k) && Rev(id, k) == ncpus {
        RevOnes(k);
        RevInjective(id, ncpus, k);
      }
    }
    forall id: nat, id': nat | id < id' < ncpus
      ensures Spread(id, ncpus) != Spread(id', ncpus)
    {
      SmallMod(Rev(id, k), ncpus);
      SmallMod(Rev(id', k), ncpus);
      if Rev(id, k) == Rev(id', k) {
        RevInjective(id, id', k);
      }
    }
  }

  // The number of bits is the right one.
  lemma PowerBetween(n: nat, ncpus: nat)
    requires ncpus > 0 && (ncpus == Pow2(n) || ncpus + 1 == Pow2(n))
    ensures ncpus == 1 || ncpus == Pow2(BitsFor(ncpus)) || ncpus + 1 == Pow2(BitsFor(ncpus))
  {
    var k := BitsFor(ncpus);
    BitsBound(ncpus);
    if ncpus > 2 {
      if n < k {
        Pow2Monotone(n, k - 1);
      } else if n > k {
        Pow2Monotone(k + 1, n);
      }
    }
  }

  lemma SpreadFails(ncpus: nat)
    requires ncpus > 0 && !IsPow2(ncpus) && !IsPow2(ncpus + 1)
    ensures !SpreadsApart(ncpus)
  {
    var k := BitsFor(ncpus);
    BitsBound(ncpus);
    assert ncpus > 2 by {
      assert Pow2(0) == 1 && Pow2(1) == 2;
    }
    assert ncpus != Pow2(k) && ncpus + 1 != Pow2(k);
    if ncpus % 2 == 0 {
      // ncpus, reversed, is a processor id; reversed again it wraps around to 0, the place of 0.
      Collision(ncpus, k, ncpus, 0);
      RevZero(k);
    } else {
      // ncpus + 1, reversed, wraps around to 1, the place of Pow2(k - 1).
      RevOfOne(k);
      Collision(ncpus, k, ncpus + 1, 1);
    }
  }

  // If v is even, not below ncpus and wraps around to w, the ids Rev(v) and Rev(w) share processor w.
  lemma Collision(ncpus: nat, k: nat, v: nat, w: nat)
    requires ncpus > 2 && k == BitsFor(ncpus) && v % 2 == 0 && w <= 1
    requires v == ncpus + w && v < Pow2(k)
    ensures !SpreadsApart(ncpus)
  {
    BitsBound(ncpus);
    RevOfEven(v, k);
    RevInvolution(v, k);
    RevInvolution(w, k);
    RevZero(k);
    RevOfOne(k);
    DivUnique(v, ncpus, 1, w);
    SmallMod(w, ncpus);
    var id, id' := Rev(v, k), Rev(w, k);
    assert id < ncpus && id' < ncpus && Spread(id, ncpus) == w == Spread(id', ncpus);
    if id == id' {
      RevInjective(v, w, k);
    }
  }

  /** When does spreading give every process its own processor?  For machines of Pow2(k) or of
      Pow2(k) - 1 processors, and for no others. */
  lemma SpreadIff(ncpus: nat)
    requires ncpus > 0
    ensures SpreadsApart(ncpus) <==> IsPow2(ncpus) || IsPow2(ncpus + 1)
  {
    if IsPow2(ncpus) || IsPow2(ncpus + 1) {
      SpreadWorks(ncpus);
    } else {
      SpreadFails(ncpus);
    }
  }

  lemma IdsDiffer(c: nat, p: nat, c': nat, p': nat, n: nat)
    requires p <= n && p' <= n && (c != c' || p != p')
    ensures ProcessId(c, p, n) != ProcessId(c', p', n)
  {
    if ProcessId(c, p, n) == ProcessId(c', p', n) {
      assert (n + 1) * c + p == (n + 1) * c' + p';
      EuclidUnique(n + 1, c, p, c', p');
    }
  }

  /** SINGLE uses one processor for all; BALANCED gives different children that fit different processors,
      and BALANCED_SPREAD does on the machines of SpreadIff; the processes of a child share its processor. */
  lemma BalancedPlacement(c: nat, p: nat, c': nat, p': nat, n: nat, ncpus: nat)
    requires ncpus > 0
    ensures Cpu(Single, c, p, n, ncpus) == Cpu(Single, c', p', n, ncpus) == 0
    ensures Cpu(Balanced, c, p, n, ncpus) == Cpu(Balanced, c, p', n, ncpus)
    ensures Cpu(BalancedSpread, c, p, n, ncpus) == Cpu(BalancedSpread, c, p', n, ncpus)
    ensures c < c' < ncpus ==> Cpu(Balanced, c, p, n, ncpus) == c < Cpu(Balanced, c', p', n, ncpus)
    ensures c < c' < ncpus && (IsPow2(ncpus) || IsPow2(ncpus + 1)) ==>
      Cpu(BalancedSpread, c, p, n, ncpus) != Cpu(BalancedSpread, c', p', n, ncpus)
  {
    SmallMod(0, ncpus);
    if c < c' < ncpus {
      SmallMod(c, ncpus);
      SmallMod(c', ncpus);
      SpreadIff(ncpus);
      assert SpreadsApart(ncpus) ==> Spread(c, ncpus) != Spread(c', ncpus);
    }
  }

  /** Where spreading works, and always with BALANCED_SPREAD, the first processes are sent to opposite halves
      of the machine: neighbours differ in the highest bit. */
  lemma NeighboursFarApart(id: nat, ncpus: nat)
    requires ncpus > 2 && id % 2 == 0
    ensures Rev(id, BitsFor(ncpus)) < Pow2(BitsFor(ncpus) - 1) <= Rev(id + 1, BitsFor(ncpus))
  {
    RevOfEven(id, BitsFor(ncpus));
  }

  /** On such a machine UNIQUE_SPREAD pins distinct processes to distinct processors, as long as all
      of them fit; UNIQUE does so on every machine. */
  lemma UniquePlacement(c: nat, p: nat, c': nat, p': nat, n: nat, ncpus: nat)
    requires ncpus > 0 && p <= n && p' <= n && (c != c' || p != p')
    requires ProcessId(c, p, n) < ncpus && ProcessId(c', p', n) < ncpus
    ensures Cpu(Unique, c, p, n, ncpus) != Cpu(Unique, c', p', n, ncpus)
    ensures IsPow2(ncpus) || IsPow2(ncpus + 1) ==>
      Cpu(UniqueSpread, c, p, n, ncpus) != Cpu(UniqueSpread, c', p', n, ncpus)
  {
    IdsDiffer(c, p, c', p', n);
    var id, id' := ProcessId(c, p, n), ProcessId(c', p', n);
    SmallMod(id, ncpus);
    SmallMod(id', ncpus);
    SpreadIff(ncpus);
    if SpreadsApart(ncpus) {
      assert Spread(if id < id' then id else id', ncpus) != Spread(if id < id' then id' else id, ncpus);
    }
  }
}
