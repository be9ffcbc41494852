/**
  The admission controller (csv-admission/src/lib.rs): a counter and a per-chain table
  shared by every clone of the controller, updated under one lock by acquiring a permit
  and by dropping it. Each locked section is one atomic step, so every concurrent
  execution is a sequence of steps.
 */
module Admission {
  import opened Bytes

  type Chain = string

  datatype Limits = Limits(maxTransfers: nat, maxPerChain: nat)

  datatype State = State(inFlight: nat, byChain: map<Chain, nat>)

  datatype AdmissionError =
    | TransferLimit(inFlight: nat, limit: nat)
    | ChainLimit(chain: Chain, inFlight: nat, limit: nat)

  // ---- The per-chain table ------------------------------------------------------------

  function CountOf(m: map<Chain, nat>, c: Chain): nat
  {
    if c in m then m[c] else 0
  }

  function SaturatingPred(n: nat): nat { if n == 0 then 0 else n - 1 }

  function Increment(m: map<Chain, nat>, c: Chain): map<Chain, nat>
  {
    m[c := CountOf(m, c) + 1]
  }

  /** An entry that reaches zero is removed; a chain without an entry is left alone. */
  function Decrement(m: map<Chain, nat>, c: Chain): map<Chain, nat>
  {
    if c !in m then m
    else if SaturatingPred(m[c]) == 0 then m - {c}
    else m[c := SaturatingPred(m[c])]
  }

  function IncrementAll(m: map<Chain, nat>, chains: seq<Chain>): map<Chain, nat>
  {
    if chains == [] then m else Increment(IncrementAll(m, chains[..|chains| - 1]), chains[|chains| - 1])
  }

  function DecrementAll(m: map<Chain, nat>, chains: seq<Chain>): map<Chain, nat>
  {
    if chains == [] then m else Decrement(DecrementAll(m, chains[..|chains| - 1]), chains[|chains| - 1])
  }

  predicate NoZeroes(m: map<Chain, nat>)
  {
    forall c :: c in m ==> m[c] > 0
  }

  predicate Distinct(chains: seq<Chain>)
  {
    forall i, j :: 0 <= i < j < |chains| ==> chains[i] != chains[j]
  }

  function Touch(chains: seq<Chain>, c: Chain): nat { if c in chains then 1 else 0 }

  lemma {:induction false} IncrementCounts(m: map<Chain, nat>, chains: seq<Chain>, c: Chain)
    requires Distinct(chains)
    ensures CountOf(IncrementAll(m, chains), c) == CountOf(m, c) + Touch(chains, c)
  {
    if chains != [] {
      var front, last := chains[..|chains| - 1], chains[|chains| - 1];
      IncrementCounts(m, front, c);
      assert c in chains <==> c in front || c == last;
    }
  }

  lemma {:induction false} DecrementCounts(m: map<Chain, nat>, chains: seq<Chain>, c: Chain)
    requires Distinct(chains) && Touch(chains, c) <= CountOf(m, c)
    ensures CountOf(DecrementAll(m, chains), c) == CountOf(m, c) - Touch(chains, c)
  {
    if chains != [] {
      var front, last := chains[..|chains| - 1], chains[|chains| - 1];
      assert c in chains <==> c in front || c == last;
      DecrementCounts(m, front, c);
    }
  }

  lemma {:induction false} NoZeroesKept(m: map<Chain, nat>, chains: seq<Chain>)
    requires NoZeroes(m)
    ensures NoZeroes(IncrementAll(m, chains)) && NoZeroes(DecrementAll(m, chains))
  {
    if chains != [] { NoZeroesKept(m, chains[..|chains| - 1]); }
  }

  /** A table without zero entries is determined by its counts. */
  lemma SameCountsSameTable(a: map<Chain, nat>, b: map<Chain, nat>)
    requires NoZeroes(a) && NoZeroes(b) && forall c :: CountOf(a, c) == CountOf(b, c)
    ensures a == b
  {
    assert forall c :: c in a <==> CountOf(a, c) > 0;
    assert forall c :: c in b <==> CountOf(b, c) > 0;
    assert a.Keys == b.Keys;
    assert forall c :: c in a ==> a[c] == CountOf(a, c);
  }

  // ---- Acquiring and releasing ---------------------------------------------------------

  function UniqueChains(source: Chain, destination: Chain): (chains: seq<Chain>)
    ensures Distinct(chains) && 0 < |chains| <= 2
    ensures forall c :: c in chains <==> c == source || c == destination
    ensures chains[0] == source
  {
    if source == destination then [source] else [source, destination]
  }

  /** The first chain that is full, if any. */
  function FullChain(limits: Limits, m: map<Chain, nat>, chains: seq<Chain>): (r: Option<AdmissionError>)
    ensures r.None? <==> forall i :: 0 <= i < |chains| ==> CountOf(m, chains[i]) < limits.maxPerChain
  {
    if chains == [] then None
    else if CountOf(m, chains[0]) >= limits.maxPerChain then
      Some(ChainLimit(chains[0], CountOf(m, chains[0]), limits.maxPerChain))
    else FullChain(limits, m, chains[1..])
  }

  lemma FullFrom(limits: Limits, m: map<Chain, nat>, chains: seq<Chain>, i: nat)
    requires i < |chains|
    ensures FullChain(limits, m, chains[i..]) ==
              if CountOf(m, chains[i]) >= limits.maxPerChain
              then Some(ChainLimit(chains[i], CountOf(m, chains[i]), limits.maxPerChain))
              else FullChain(limits, m, chains[i + 1..])
  {
    assert chains[i..][1..] == chains[i + 1..];
  }

  lemma NothingFull(limits: Limits, m: map<Chain, nat>, chains: seq<Chain>)
    ensures FullChain(limits, m, chains[|chains|..]) == None && IncrementAll(m, chains[..0]) == m
  {
  }

  lemma IncrementOneMore(m: map<Chain, nat>, chains: seq<Chain>, i: nat)
    requires i < |chains|
    ensures IncrementAll(m, chains[..i + 1]) == Increment(IncrementAll(m, chains[..i]), chains[i])
  {
    assert chains[..i + 1][..i] == chains[..i];
  }

  function Acquired(limits: Limits, s: State, chains: seq<Chain>): Result<State, AdmissionError>
  {
    if s.inFlight >= limits.maxTransfers then Err(TransferLimit(s.inFlight, limits.maxTransfers))
    else
      match FullChain(limits, s.byChain, chains)
      case Some(e) => Err(e)
      case None => Ok(State(s.inFlight + 1, IncrementAll(s.byChain, chains)))
  }

  function Released(s: State, chains: seq<Chain>): State
  {
    State(SaturatingPred(s.inFlight), DecrementAll(s.byChain, chains))
  }

  /** Dropping a permit straight after acquiring it restores the state exactly. */
  lemma ReleaseUndoesAcquire(limits: Limits, s: State, chains: seq<Chain>)
    requires Distinct(chains) && NoZeroes(s.byChain) && Acquired(limits, s, chains).Ok?
    ensures Released(Acquired(limits, s, chains).value, chains) == s
  {
    hide IncrementAll, DecrementAll;
    var m := IncrementAll(s.byChain, chains);
    var n := DecrementAll(m, chains);
    forall c ensures CountOf(n, c) == CountOf(s.byChain, c) {
      IncrementCounts(s.byChain, chains, c);
      DecrementCounts(m, chains, c);
    }
    NoZeroesKept(s.byChain, chains);
    NoZeroesKept(m, chains);
    SameCountsSameTable(n, s.byChain);
  }

  class AdmissionController {
    const limits: Limits
    var inFlight: nat
    var byChain: map<Chain, nat>

    constructor (limits: Limits)
      ensures this.limits == limits && Current() == State(0, map[])
    {
      this.limits := limits;
      inFlight := 0;
      byChain := map[];
    }

    function Current(): State
      reads this
    {
      State(inFlight, byChain)
    }

    method AcquireTransfer(source: Chain, destination: Chain) returns (r: Result<AdmissionPermit, AdmissionError>)
      modifies this
      ensures var acquired := Acquired(limits, old(Current()), UniqueChains(source, destination));
              match acquired
              case Ok(s) =>
                && Current() == s
                && r.Ok? && fresh(r.value) && r.value.controller == this && !r.value.released
                && r.value.chains == UniqueChains(source, destination)
              case Err(e) => r == Err(e) && Current() == old(Current())
    {
      hide FullChain, IncrementAll;
      if inFlight >= limits.maxTransfers {
        return Err(TransferLimit(inFlight, limits.maxTransfers));
      }
      var chains := UniqueChains(source, destination);
      for i := 0 to |chains|
        invariant Current() == old(Current())
        invariant FullChain(limits, byChain, chains) == FullChain(limits, byChain, chains[i..])
      {
        var count := if chains[i] in byChain then byChain[chains[i]] else 0;
        FullFrom(limits, byChain, chains, i);
        if count >= limits.maxPerChain {
          return Err(ChainLimit(chains[i], count, limits.maxPerChain));
        }
      }
      NothingFull(limits, byChain, chains);
      inFlight := inFlight + 1;
      for i := 0 to |chains|
        invariant inFlight == old(inFlight) + 1
        invariant byChain == IncrementAll(old(byChain), chains[..i])
      {
        IncrementOneMore(old(byChain), chains, i);
        var count := if chains[i] in byChain then byChain[chains[i]] else 0;
        byChain := byChain[chains[i] := count + 1];
      }
      assert chains[..|chains|] == chains;
      var permit := new AdmissionPermit(this, chains);
      r := Ok(permit);
    }

    method ReleaseTransfer(chains: seq<Chain>)
      modifies this
      ensures Current() == Released(old(Current()), chains)
    {
      inFlight := SaturatingPred(inFlight);
      for i := 0 to |chains|
        invariant inFlight == SaturatingPred(old(inFlight))
        invariant byChain == DecrementAll(old(byChain), chains[..i])
      {
        assert chains[..i + 1][..i] == chains[..i];
        var c := chains[i];
        if c in byChain {
          byChain := byChain[c := SaturatingPred(byChain[c])];
          if byChain[c] == 0 {
            byChain := byChain - {c};
          }
        }
      }
      assert chains[..|chains|] == chains;
    }
  }

  class AdmissionPermit {
    const controller: AdmissionController
    const chains: seq<Chain>
    var released: bool

    constructor (controller: AdmissionController, chains: seq<Chain>)
      ensures this.controller == controller && this.chains == chains && !released
    {
      this.controller := controller;
      this.chains := chains;
      released := false;
    }

    /** What going out of scope does; a released permit does nothing. */
    method Drop()
      modifies this, controller
      ensures released
      ensures controller.Current() ==
          if old(released) then old(controller.Current()) else Released(old(controller.Current()), chains)
    {
      if !released {
        controller.ReleaseTransfer(chains);
        released := true;
      }
    }
  }

  // ---- Every interleaving ---------------------------------------------------------------

  datatype Permit = Permit(chains: seq<Chain>, released: bool)

  /** The shared state, with every permit ever issued. */
  datatype World = World(state: State, permits: seq<Permit>)

  datatype Step = Acquire(source: Chain, destination: Chain) | Drop(permit: nat)

  const START: World := World(State(0, map[]), [])

  function Do(limits: Limits, w: World, step: Step): World
  {
    match step
    case Acquire(source, destination) =>
      var chains := UniqueChains(source, destination);
      (match Acquired(limits, w.state, chains)
       case Ok(s) => World(s, w.permits + [Permit(chains, false)])
       case Err(_) => w)
    case Drop(k) =>
      if k < |w.permits| && !w.permits[k].released then
        World(Released(w.state, w.permits[k].chains), w.permits[k := w.permits[k].(released := true)])
      else w
  }

  function Run(limits: Limits, steps: seq<Step>): World
  {
    if steps == [] then START else Do(limits, Run(limits, steps[..|steps| - 1]), steps[|steps| - 1])
  }

  /** The chain lists of the permits not yet dropped. */
  function Live(permits: seq<Permit>): seq<seq<Chain>>
  {
    if permits == [] then []
    else
      var last := permits[|permits| - 1];
      Live(permits[..|permits| - 1]) + if last.released then [] else [last.chains]
  }

  /** How many of the chain lists touch a chain. */
  function Touching(live: seq<seq<Chain>>, c: Chain): nat
  {
    if live == [] then 0 else Touching(live[..|live| - 1], c) + Touch(live[|live| - 1], c)
  }

  lemma {:induction false} TouchingWithout(live: seq<seq<Chain>>, k: nat, c: Chain)
    requires k < |live|
    ensures Touching(live, c) == Touching(live[..k] + live[k + 1..], c) + Touch(live[k], c)
    decreases |live|
  {
    var front, last := live[..|live| - 1], live[|live| - 1];
    if k == |live| - 1 {
      assert live[..k] + live[k + 1..] == front;
    } else {
      TouchingWithout(front, k, c);
      var rest := live[..k] + live[k + 1..];
      assert rest[..|rest| - 1] == front[..k] + front[k + 1..];
      assert rest[|rest| - 1] == last;
    }
  }

  lemma OneFewer<T>(s: seq<T>, k: nat)
    requires k < |s|
    ensures multiset(s[..k] + s[k + 1..]) == multiset(s) - multiset{s[k]}
  {
    assert s == s[..k] + [s[k]] + s[k + 1..];
  }

  /** Removing the last element of one sequence and an equal one of a permutation leaves permutations. */
  lemma RemoveFromBoth<T>(a: seq<T>, b: seq<T>) returns (k: nat)
    requires multiset(a) == multiset(b) && a != []
    ensures k < |b| && b[k] == a[|a| - 1]
    ensures multiset(a[..|a| - 1]) == multiset(b[..k] + b[k + 1..])
  {
    var last := |a| - 1;
    assert a[last] in multiset(b);
    k :| 0 <= k < |b| && b[k] == a[last];
    OneFewer(a, last);
    OneFewer(b, k);
    assert a[..last] + a[last + 1..] == a[..last];
  }

  /** The load on a chain depends only on the multiset of live permits. */
  lemma {:induction false} TouchingIgnoresOrder(a: seq<seq<Chain>>, b: seq<seq<Chain>>, c: Chain)
    requires multiset(a) == multiset(b)
    ensures Touching(a, c) == Touching(b, c)
    decreases |a|
  {
    assert b != [] ==> b[0] in multiset(b);
    if a != [] {
      var k := RemoveFromBoth(a, b);
      TouchingIgnoresOrder(a[..|a| - 1], b[..k] + b[k + 1..], c);
      TouchingWithout(b, k, c);
    }
  }

  lemma OneMoreLive(permits: seq<Permit>, chains: seq<Chain>)
    ensures Live(permits + [Permit(chains, false)]) == Live(permits) + [chains]
    ensures forall c :: Touching(Live(permits) + [chains], c) == Touching(Live(permits), c) + Touch(chains, c)
  {
    var more, live := permits + [Permit(chains, false)], Live(permits) + [chains];
    assert more[..|more| - 1] == permits && live[..|live| - 1] == Live(permits);
  }

  /** Counter and table are exactly what the live permits account for. */
  ghost predicate Accounts(s: State, live: seq<seq<Chain>>)
  {
    && s.inFlight == |live|
    && NoZeroes(s.byChain)
    && forall c :: CountOf(s.byChain, c) == Touching(live, c)
  }

  ghost predicate WithinLimits(limits: Limits, s: State)
  {
    s.inFlight <= limits.maxTransfers && forall c :: c in s.byChain ==> s.byChain[c] <= limits.maxPerChain
  }

  ghost predicate Balanced(limits: Limits, w: World)
  {
    && Accounts(w.state, Live(w.permits))
    && WithinLimits(limits, w.state)
    && forall i :: 0 <= i < |w.permits| ==> Distinct(w.permits[i].chains)
  }

  lemma AcquireBalances(limits: Limits, w: World, chains: seq<Chain>)
    requires Balanced(limits, w) && Distinct(chains) && Acquired(limits, w.state, chains).Ok?
    ensures Balanced(limits, World(Acquired(limits, w.state, chains).value, w.permits + [Permit(chains, false)]))
  {
    hide IncrementAll, NoZeroes, Live, Touching, Distinct, FullChain;
    var s := Acquired(limits, w.state, chains).value;
    OneMoreLive(w.permits, chains);
    forall c
      ensures CountOf(s.byChain, c) == Touching(Live(w.permits) + [chains], c)
      ensures c in s.byChain ==> s.byChain[c] <= limits.maxPerChain
    {
      IncrementCounts(w.state.byChain, chains, c);
    }
    NoZeroesKept(w.state.byChain, chains);
  }

  /** Dropping the k-th permit removes one occurrence of its chains from the live ones. */
  lemma {:induction false} DropRemovesOne(permits: seq<Permit>, k: nat) returns (j: nat)
    requires k < |permits| && !permits[k].released
    ensures var live := Live(permits);
            && j < |live| && live[j] == permits[k].chains
            && Live(permits[k := permits[k].(released := true)]) == live[..j] + live[j + 1..]
    decreases |permits|
  {
    var n := |permits| - 1;
    var front, last := permits[..n], permits[n];
    var after := permits[k := permits[k].(released := true)];
    if k == n {
      j := |Live(front)|;
      assert after[..n] == front;
    } else {
      j := DropRemovesOne(front, k);
      assert after[..n] == front[k := front[k].(released := true)];
    }
  }

  /** A live permit is still counted, in total and on each of its chains, so nothing saturates. */
  lemma ReleaseNeverSaturates(limits: Limits, w: World, k: nat)
    requires Balanced(limits, w) && k < |w.permits| && !w.permits[k].released
    ensures w.state.inFlight > 0
    ensures forall c :: c in w.permits[k].chains ==> c in w.state.byChain && w.state.byChain[c] > 0
  {
    hide Touching;
    var j := DropRemovesOne(w.permits, k);
    forall c | c in w.permits[k].chains
      ensures c in w.state.byChain && w.state.byChain[c] > 0
    {
      TouchingWithout(Live(w.permits), j, c);
    }
  }

  lemma DropBalances(limits: Limits, w: World, k: nat)
    requires Balanced(limits, w) && k < |w.permits| && !w.permits[k].released
    ensures Balanced(limits, Do(limits, w, Drop(k)))
  {
    hide DecrementAll, NoZeroes, Touching;
    var after := Do(limits, w, Drop(k));
    var chains, live := w.permits[k].chains, Live(w.permits);
    var j := DropRemovesOne(w.permits, k);
    ReleaseNeverSaturates(limits, w, k);
    forall c
      ensures CountOf(after.state.byChain, c) == Touching(Live(after.permits), c)
      ensures c in after.state.byChain ==> after.state.byChain[c] <= limits.maxPerChain
    {
      TouchingWithout(live, j, c);
      DecrementCounts(w.state.byChain, chains, c);
    }
    NoZeroesKept(w.state.byChain, chains);
  }

  lemma StartBalances(limits: Limits)
    ensures Balanced(limits, START)
  {
  }

  /** After every interleaving of acquires and drops, state, live permits and limits agree. */
  lemma {:induction false} EveryRunBalances(limits: Limits, steps: seq<Step>)
    ensures Balanced(limits, Run(limits, steps))
  {
    hide Balanced, Acquired, Released;
    if steps == [] {
      StartBalances(limits);
    } else {
      var w, step := Run(limits, steps[..|steps| - 1]), steps[|steps| - 1];
      EveryRunBalances(limits, steps[..|steps| - 1]);
      match step
      case Acquire(source, destination) =>
        var chains := UniqueChains(source, destination);
        if Acquired(limits, w.state, chains).Ok? { AcquireBalances(limits, w, chains); }
      case Drop(k) =>
        if k < |w.permits| && !w.permits[k].released { DropBalances(limits, w, k); }
    }
  }

  /** Two runs, of whatever history, with the same live permits have the same state. */
  lemma StateDependsOnlyOnLivePermits(limits: Limits, s: seq<Step>, other: Limits, t: seq<Step>)
    requires multiset(Live(Run(limits, s).permits)) == multiset(Live(Run(other, t).permits))
    ensures Run(limits, s).state == Run(other, t).state
  {
    hide Run, Live, Touching;
    EveryRunBalances(limits, s);
    EveryRunBalances(other, t);
    var a, b := Run(limits, s), Run(other, t);
    var x, y := Live(a.permits), Live(b.permits);
    assert |x| == |multiset(x)| == |multiset(y)| == |y|;
    forall c ensures CountOf(a.state.byChain, c) == CountOf(b.state.byChain, c) {
      TouchingIgnoresOrder(x, y, c);
    }
    SameCountsSameTable(a.state.byChain, b.state.byChain);
  }

  /** Acquisition is refused exactly when the live permits already fill the runtime or one of the chains. */
  lemma RefusedExactlyWhenFull(limits: Limits, steps: seq<Step>, source: Chain, destination: Chain)
    ensures var w := Run(limits, steps);
            var live := Live(w.permits);
            Acquired(limits, w.state, UniqueChains(source, destination)).Err? <==>
              || |live| == limits.maxTransfers
              || Touching(live, source) >= limits.maxPerChain
              || Touching(live, destination) >= limits.maxPerChain
  {
    hide Run, Live, Touching, IncrementAll;
    EveryRunBalances(limits, steps);
    var w := Run(limits, steps);
    var chains := UniqueChains(source, destination);
    assert source in chains && destination in chains;
    assert forall i :: 0 <= i < |chains| ==> chains[i] in chains;
    assert (forall i :: 0 <= i < |chains| ==> CountOf(w.state.byChain, chains[i]) < limits.maxPerChain) <==>
           (forall c :: c in chains ==> CountOf(w.state.byChain, c) < limits.maxPerChain);
  }
}
