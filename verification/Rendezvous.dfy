/** The rendezvous behind the collectives of the CPU plug-in, as interleaved semaphore operations. */
module Rendezvous {
  import opened Options

  // Every rank posts `sig`; rank 0 takes one `sig` token for each rank and then posts `sig_2` once
  // for each; every rank takes one `sig_2` token and returns. Ranks interleave freely, and each
  // makes `rounds` collective calls in a row.

  /**
    Where a rank is: outside a call, before its post to `sig`; rank 0 after `i` of its waits on
    `sig`; rank 0 after `i` of its posts to `sig_2`; or about to wait on `sig_2`.
   */
  datatype Pc = Outside | Collecting(i: nat) | Releasing(i: nat) | Leaving

  datatype Local = Local(pc: Pc, done: nat)

  datatype State = State(sig: nat, sig2: nat, ranks: seq<Local>)

  /** `XcclCommInitRank` opens both semaphores at zero. */
  function Init(n: nat): State {
    State(0, 0, seq(n, _ => Local(Outside, 0)))
  }

  /** One semaphore operation by rank `r`; None when it is blocked or has made all its calls. */
  function Act(rounds: nat, s: State, r: nat): Option<State>
    requires r < |s.ranks|
  {
    var n, l := |s.ranks|, s.ranks[r];
    match l.pc
    case Outside =>
      if l.done == rounds then None
      else Some(State(s.sig + 1, s.sig2, s.ranks[r := l.(pc := if r == 0 then Collecting(0) else Leaving)]))
    case Collecting(i) =>
      if s.sig == 0 then None
      else Some(State(s.sig - 1, s.sig2,
        s.ranks[r := l.(pc := if i + 1 == n then Releasing(0) else Collecting(i + 1))]))
    case Releasing(i) =>
      Some(State(s.sig, s.sig2 + 1, s.ranks[r := l.(pc := if i + 1 == n then Leaving else Releasing(i + 1))]))
    case Leaving =>
      if s.sig2 == 0 then None
      else Some(State(s.sig, s.sig2 - 1, s.ranks[r := Local(Outside, l.done + 1)]))
  }

  /** The state after a schedule of ranks, if every step of it can be taken. */
  function Run(n: nat, rounds: nat, schedule: seq<nat>): Option<State> {
    if schedule == [] then Some(Init(n))
    else
      var k := |schedule| - 1;
      match Run(n, rounds, schedule[..k])
      case None => None
      case Some(s) => if schedule[k] < |s.ranks| then Act(rounds, s, schedule[k]) else None
  }

  ghost predicate Reachable(n: nat, rounds: nat, s: State) {
    exists schedule :: Run(n, rounds, schedule) == Some(s)
  }

  predicate AllDone(rounds: nat, s: State) {
    forall r :: 0 <= r < |s.ranks| ==> s.ranks[r] == Local(Outside, rounds)
  }

  /** No rank can move. */
  predicate Stuck(rounds: nat, s: State) {
    forall r :: 0 <= r < |s.ranks| ==> Act(rounds, s, r).None?
  }

  // ---------- token counts ----------

  function Entered(l: Local): nat {
    l.done + if l.pc.Outside? then 0 else 1
  }

  /** Posts to sig so far. */
  function Arrivals(ranks: seq<Local>): nat {
    if ranks == [] then 0 else Entered(ranks[0]) + Arrivals(ranks[1..])
  }

  /** Waits on sig_2 so far. */
  function Departures(ranks: seq<Local>): nat {
    if ranks == [] then 0 else ranks[0].done + Departures(ranks[1..])
  }

  /** Rounds whose tokens rank 0 has fully collected. */
  function FullRounds(ranks: seq<Local>): nat
    requires ranks != []
  {
    ranks[0].done + if ranks[0].pc.Releasing? || ranks[0].pc.Leaving? then 1 else 0
  }

  /** Waits on sig so far, all by rank 0. */
  function Collected(ranks: seq<Local>): nat
    requires ranks != []
  {
    FullRounds(ranks) * |ranks| + if ranks[0].pc.Collecting? then ranks[0].pc.i else 0
  }

  /** Posts to sig_2 so far, all by rank 0. */
  function Released(ranks: seq<Local>): nat
    requires ranks != []
  {
    if ranks[0].pc.Releasing? then ranks[0].done * |ranks| + ranks[0].pc.i
    else FullRounds(ranks) * |ranks|
  }

  ghost predicate Invariant(n: nat, rounds: nat, s: State) {
    && |s.ranks| == n > 0
    && (forall r :: 0 <= r < n ==> WellPlaced(n, rounds, r, s.ranks[r]))
    && Arrivals(s.ranks) == s.sig + Collected(s.ranks)
    && Departures(s.ranks) + s.sig2 == Released(s.ranks)
  }

  predicate WellPlaced(n: nat, rounds: nat, r: nat, l: Local) {
    && l.done <= rounds && (!l.pc.Outside? ==> l.done < rounds)
    && (l.pc.Collecting? ==> r == 0 && l.pc.i < n)
    && (l.pc.Releasing? ==> r == 0 && l.pc.i < n)
  }

  lemma {:induction false} ArrivalsUpdate(ranks: seq<Local>, r: nat, l: Local)
    requires r < |ranks|
    ensures Arrivals(ranks[r := l]) == Arrivals(ranks) - Entered(ranks[r]) + Entered(l)
  {
    if r == 0 {
      assert ranks[r := l][1..] == ranks[1..];
    } else {
      assert ranks[r := l][1..] == ranks[1..][r - 1 := l];
      ArrivalsUpdate(ranks[1..], r - 1, l);
    }
  }

  lemma {:induction false} DeparturesUpdate(ranks: seq<Local>, r: nat, l: Local)
    requires r < |ranks|
    ensures Departures(ranks[r := l]) == Departures(ranks) - ranks[r].done + l.done
  {
    if r == 0 {
      assert ranks[r := l][1..] == ranks[1..];
    } else {
      assert ranks[r := l][1..] == ranks[1..][r - 1 := l];
      DeparturesUpdate(ranks[1..], r - 1, l);
    }
  }

  lemma {:induction false} InitInvariant(n: nat, rounds: nat)
    requires n > 0
    ensures Invariant(n, rounds, Init(n))
    ensures Arrivals(Init(n).ranks) == Departures(Init(n).ranks) == 0
  {
    NothingYet(Init(n).ranks);
  }

  lemma {:induction false} NothingYet(ranks: seq<Local>)
    requires forall r :: 0 <= r < |ranks| ==> ranks[r] == Local(Outside, 0)
    ensures Arrivals(ranks) == Departures(ranks) == 0
  {
    if ranks != [] {
      NothingYet(ranks[1..]);
    }
  }

  /** Semaphore operations performed so far. */
  function Operations(s: State): nat
    requires s.ranks != []
  {
    Arrivals(s.ranks) + Collected(s.ranks) + Released(s.ranks) + Departures(s.ranks)
  }

  lemma ActKeepsInvariant(n: nat, rounds: nat, s: State, r: nat)
    requires Invariant(n, rounds, s) && r < n && Act(rounds, s, r).Some?
    ensures Invariant(n, rounds, Act(rounds, s, r).value)
    ensures Operations(Act(rounds, s, r).value) == Operations(s) + 1
  {
    var s' := Act(rounds, s, r).value;
    assert WellPlaced(n, rounds, r, s.ranks[r]) && WellPlaced(n, rounds, 0, s.ranks[0]);
    ArrivalsUpdate(s.ranks, r, s'.ranks[r]);
    DeparturesUpdate(s.ranks, r, s'.ranks[r]);
    assert s'.ranks == s.ranks[r := s'.ranks[r]];
    assert (s.ranks[0].done + 1) * n == s.ranks[0].done * n + n;
    assert WellPlaced(n, rounds, r, s'.ranks[r]);
  }

  lemma {:induction false} RunInvariant(n: nat, rounds: nat, schedule: seq<nat>)
    requires n > 0 && Run(n, rounds, schedule).Some?
    ensures Invariant(n, rounds, Run(n, rounds, schedule).value)
    ensures Operations(Run(n, rounds, schedule).value) == |schedule|
  {
    InitInvariant(n, rounds);
    if schedule != [] {
      var k := |schedule| - 1;
      RunInvariant(n, rounds, schedule[..k]);
      ActKeepsInvariant(n, rounds, Run(n, rounds, schedule[..k]).value, schedule[k]);
    }
  }

  /** Tokens are conserved over any number of collectives. */
  lemma TokenConservation(n: nat, rounds: nat, s: State)
    requires n > 0 && Reachable(n, rounds, s)
    ensures |s.ranks| == n
    ensures Departures(s.ranks) + s.sig2 == Released(s.ranks)
    ensures Released(s.ranks) <= n * FullRounds(s.ranks) <= Arrivals(s.ranks)
    ensures Arrivals(s.ranks) == s.sig + Collected(s.ranks)
  {
    var schedule :| Run(n, rounds, schedule) == Some(s);
    RunInvariant(n, rounds, schedule);
    assert WellPlaced(n, rounds, 0, s.ranks[0]);
    assert (s.ranks[0].done + 1) * n == s.ranks[0].done * n + n;
  }

  // ---------- bounds on the counts ----------

  lemma {:induction false} ArrivalsBound(ranks: seq<Local>, c: nat)
    requires forall r :: 0 <= r < |ranks| ==> Entered(ranks[r]) <= c
    ensures Arrivals(ranks) <= |ranks| * c
    ensures Arrivals(ranks) == |ranks| * c ==> forall r :: 0 <= r < |ranks| ==> Entered(ranks[r]) == c
  {
    if ranks != [] {
      ArrivalsBound(ranks[1..], c);
      assert |ranks| * c == |ranks[1..]| * c + c;
      assert forall r :: 1 <= r < |ranks| ==> ranks[r] == ranks[1..][r - 1];
    }
  }

  lemma {:induction false} DeparturesBound(ranks: seq<Local>, c: nat)
    requires forall r :: 0 <= r < |ranks| ==> ranks[r].done <= c
    ensures Departures(ranks) <= |ranks| * c
    ensures Departures(ranks) == |ranks| * c <==> forall r :: 0 <= r < |ranks| ==> ranks[r].done == c
  {
    if ranks != [] {
      DeparturesBound(ranks[1..], c);
      assert |ranks| * c == |ranks[1..]| * c + c;
      assert forall r :: 1 <= r < |ranks| ==> ranks[r] == ranks[1..][r - 1];
    }
  }

  lemma {:induction false} SomeDeparture(ranks: seq<Local>, r: nat)
    requires r < |ranks|
    ensures Departures(ranks) >= ranks[r].done
  {
    if r > 0 {
      SomeDeparture(ranks[1..], r - 1);
    }
  }

  lemma InvariantBounds(n: nat, rounds: nat, s: State)
    requires Invariant(n, rounds, s)
    ensures Departures(s.ranks) <= Released(s.ranks) <= Collected(s.ranks) <= Arrivals(s.ranks) <= n * rounds
    ensures Departures(s.ranks) == n * rounds <==> AllDone(rounds, s)
  {
    assert WellPlaced(n, rounds, 0, s.ranks[0]);
    forall r | 0 <= r < n ensures Entered(s.ranks[r]) <= rounds && s.ranks[r].done <= rounds
      ensures s.ranks[r].done == rounds <==> s.ranks[r] == Local(Outside, rounds)
    {
      assert WellPlaced(n, rounds, r, s.ranks[r]);
    }
    ArrivalsBound(s.ranks, rounds);
    DeparturesBound(s.ranks, rounds);
    assert (s.ranks[0].done + 1) * n == s.ranks[0].done * n + n;
  }

  lemma Sandwich(a: nat, b: nat, c: nat, d: nat, top: nat)
    requires d <= c <= b <= a <= top
    ensures a + b + c + d <= 4 * top
    ensures a + b + c + d == 4 * top <==> d == top
  {
  }

  /** Runs are bounded, and exactly the complete ones have all 4 * n * rounds operations, ending with no token left. */
  lemma RunLength(n: nat, rounds: nat, schedule: seq<nat>)
    requires n > 0 && Run(n, rounds, schedule).Some?
    ensures |schedule| <= 4 * (n * rounds)
    ensures var s := Run(n, rounds, schedule).value;
      && (|schedule| == 4 * (n * rounds) <==> AllDone(rounds, s))
      && (AllDone(rounds, s) ==> s.sig == s.sig2 == 0)
  {
    var s := Run(n, rounds, schedule).value;
    RunInvariant(n, rounds, schedule);
    InvariantBounds(n, rounds, s);
    Sandwich(Arrivals(s.ranks), Collected(s.ranks), Released(s.ranks), Departures(s.ranks), n * rounds);
  }

  // ---------- the barrier ----------

  /** No rank has returned from more calls than every rank has entered. */
  predicate Barrier(s: State) {
    forall r, q :: 0 <= r < |s.ranks| && 0 <= q < |s.ranks| ==> s.ranks[r].done <= Entered(s.ranks[q])
  }

  ghost predicate AlwaysBarrier(n: nat, rounds: nat) {
    forall s :: Reachable(n, rounds, s) ==> Barrier(s)
  }

  ghost predicate DeadlockFree(n: nat, rounds: nat) {
    forall s :: Reachable(n, rounds, s) && Stuck(rounds, s) ==> AllDone(rounds, s)
  }

  lemma SingleCallBarrier(n: nat, rounds: nat, s: State)
    requires Invariant(n, rounds, s) && (rounds <= 1 || n == 1)
    ensures Barrier(s)
  {
    InvariantBounds(n, rounds, s);
    forall r, q | 0 <= r < n && 0 <= q < n ensures s.ranks[r].done <= Entered(s.ranks[q]) {
      assert WellPlaced(n, rounds, r, s.ranks[r]) && WellPlaced(n, rounds, 0, s.ranks[0]);
      if n > 1 && s.ranks[r].done == 1 {
        SomeDeparture(s.ranks, r);
        assert FullRounds(s.ranks) >= 1;
        assert FullRounds(s.ranks) * n >= n;
        forall k | 0 <= k < n ensures Entered(s.ranks[k]) <= 1 {
          assert WellPlaced(n, rounds, k, s.ranks[k]);
        }
        ArrivalsBound(s.ranks, 1);
      }
    }
  }

  lemma SingleCallProgress(n: nat, rounds: nat, s: State)
    requires Invariant(n, rounds, s) && (rounds <= 1 || n == 1) && Stuck(rounds, s)
    ensures AllDone(rounds, s)
  {
    InvariantBounds(n, rounds, s);
    var l := s.ranks[0];
    assert WellPlaced(n, rounds, 0, l);
    if n == 1 {
      assert s.ranks == [l];
      assert Arrivals(s.ranks) == Entered(l) + Arrivals(s.ranks[1..]);
      assert Departures(s.ranks) == l.done + Departures(s.ranks[1..]);
      assert Act(rounds, s, 0).None?;
    } else if rounds == 1 {
      forall r | 0 <= r < n ensures Entered(s.ranks[r]) == 1 {
        assert WellPlaced(n, rounds, r, s.ranks[r]) && Act(rounds, s, r).None?;
      }
      AllEntered(s.ranks);
      assert Act(rounds, s, 0).None?;
      assert Released(s.ranks) == n;
      forall r | 0 <= r < n ensures s.ranks[r].done <= 1 && (s.sig2 > 0 ==> s.ranks[r].done == 1) {
        assert WellPlaced(n, rounds, r, s.ranks[r]) && Act(rounds, s, r).None?;
      }
      DeparturesBound(s.ranks, 1);
    } else {
      DeparturesBound(s.ranks, 0);
    }
  }

  lemma {:induction false} AllEntered(ranks: seq<Local>)
    requires forall r :: 0 <= r < |ranks| ==> Entered(ranks[r]) == 1
    ensures Arrivals(ranks) == |ranks|
  {
    if ranks != [] {
      AllEntered(ranks[1..]);
    }
  }

  /** A single collective always completes: any partial run extends to one of 4 * n operations. */
  lemma {:induction false} SingleCallCompletes(n: nat, schedule: seq<nat>) returns (rest: seq<nat>)
    requires n > 0 && Run(n, 1, schedule).Some?
    ensures Run(n, 1, schedule + rest).Some? && AllDone(1, Run(n, 1, schedule + rest).value)
    ensures |schedule| + |rest| == 4 * n
    decreases 4 * n - |schedule|
  {
    RunLength(n, 1, schedule);
    if AllDone(1, Run(n, 1, schedule).value) {
      rest := [];
      assert schedule + rest == schedule;
    } else {
      var r := NextMove(n, schedule);
      var more := SingleCallCompletes(n, schedule + [r]);
      rest := [r] + more;
      assert schedule + rest == schedule + [r] + more;
    }
  }

  lemma NextMove(n: nat, schedule: seq<nat>) returns (r: nat)
    requires n > 0 && Run(n, 1, schedule).Some? && !AllDone(1, Run(n, 1, schedule).value)
    ensures Run(n, 1, schedule + [r]).Some? && |schedule| < 4 * n
  {
    RunLength(n, 1, schedule);
    var s := Run(n, 1, schedule).value;
    RunInvariant(n, 1, schedule);
    if Stuck(1, s) { SingleCallProgress(n, 1, s); }
    r :| r < n && Act(1, s, r).Some?;
    assert (schedule + [r])[..|schedule|] == schedule;
  }

  // ---------- back-to-back calls ----------

  lemma ReachNext(n: nat, rounds: nat, s: State, r: nat, s': State)
    requires Reachable(n, rounds, s) && r < |s.ranks| && Act(rounds, s, r) == Some(s')
    ensures Reachable(n, rounds, s')
  {
    var schedule :| Run(n, rounds, schedule) == Some(s);
    assert (schedule + [r])[..|schedule|] == schedule;
    assert Run(n, rounds, schedule + [r]) == Some(s');
  }

  lemma {:induction false} ReachChain(n: nat, rounds: nat, f: nat -> State, who: nat -> nat, first: nat, last: nat)
    requires first <= last && Reachable(n, rounds, f(first))
    requires forall k :: first <= k < last ==>
      who(k) < |f(k).ranks| && Act(rounds, f(k), who(k)) == Some(f(k + 1))
    ensures Reachable(n, rounds, f(last))
  {
    if first < last {
      ReachChain(n, rounds, f, who, first, last - 1);
      ReachNext(n, rounds, f(last - 1), who(last - 1), f(last));
    }
  }

  /** Ranks 0 and 1 as given; of the others, those below `k` as `after` and the rest as `before`. */
  function Staged(n: nat, l0: Local, l1: Local, k: nat, before: Local, after: Local): seq<Local> {
    seq(n, r => if r == 0 then l0 else if r == 1 then l1 else if r < k then after else before)
  }

  lemma StagedUpdate(n: nat, l0: Local, l1: Local, k: nat, before: Local, after: Local, l: Local)
    requires n >= 2
    ensures Staged(n, l0, l1, k, before, after)[0 := l] == Staged(n, l, l1, k, before, after)
    ensures Staged(n, l0, l1, k, before, after)[1 := l] == Staged(n, l0, l, k, before, after)
    ensures 2 <= k < n ==>
      Staged(n, l0, l1, k, before, after)[k := after] == Staged(n, l0, l1, k + 1, before, after)
    ensures Staged(n, l0, l1, n, before, after) == Staged(n, l0, l1, 2, after, l)
  {
  }

  /** Every rank has entered the first call. */
  lemma ReachEntered(n: nat, rounds: nat)
    requires n >= 2 && rounds >= 1
    ensures Reachable(n, rounds,
      State(n, 0, Staged(n, Local(Collecting(0), 0), Local(Leaving, 0), 2, Local(Leaving, 0), Local(Outside, 1))))
  {
    var o, l, c := Local(Outside, 0), Local(Leaving, 0), Local(Collecting(0), 0);
    assert Run(n, rounds, []) == Some(Init(n));
    assert Init(n).ranks == Staged(n, o, o, 2, o, l);
    StagedUpdate(n, o, o, 2, o, l, c);
    ReachNext(n, rounds, Init(n), 0, State(1, 0, Staged(n, c, o, 2, o, l)));
    StagedUpdate(n, c, o, 2, o, l, l);
    ReachNext(n, rounds, State(1, 0, Staged(n, c, o, 2, o, l)), 1, State(2, 0, Staged(n, c, l, 2, o, l)));
    var f := (k: nat) => State(k, 0, Staged(n, c, l, k, o, l));
    forall k | 2 <= k < n ensures Act(rounds, f(k), k) == Some(f(k + 1)) {
      StagedUpdate(n, c, l, k, o, l, l);
    }
    ReachChain(n, rounds, f, (k: nat) => k, 2, n);
    StagedUpdate(n, c, l, n, o, l, Local(Outside, 1));
  }

  /** Rank 0 has collected every token of the first call. */
  lemma ReachCollected(n: nat, rounds: nat)
    requires n >= 2 && rounds >= 1
    ensures Reachable(n, rounds,
      State(0, 0, Staged(n, Local(Releasing(0), 0), Local(Leaving, 0), 2, Local(Leaving, 0), Local(Outside, 1))))
  {
    ReachEntered(n, rounds);
    var l, b := Local(Leaving, 0), Local(Outside, 1);
    var f := (i: nat) => State(if i <= n then n - i else 0, 0,
                               Staged(n, Local(if i < n then Collecting(i) else Releasing(0), 0), l, 2, l, b));
    forall i | 0 <= i < n ensures Act(rounds, f(i), 0) == Some(f(i + 1)) {
      var next := Local(if i + 1 < n then Collecting(i + 1) else Releasing(0), 0);
      StagedUpdate(n, Local(Collecting(i), 0), l, 2, l, b, next);
      assert f(i).ranks[0] == Local(Collecting(i), 0);
    }
    ReachChain(n, rounds, f, _ => 0, 0, n);
  }

  /** Rank 0 has released as many. */
  lemma ReachReleased(n: nat, rounds: nat)
    requires n >= 2 && rounds >= 1
    ensures Reachable(n, rounds,
      State(0, n, Staged(n, Local(Leaving, 0), Local(Leaving, 0), 2, Local(Leaving, 0), Local(Outside, 1))))
  {
    ReachCollected(n, rounds);
    var l, b := Local(Leaving, 0), Local(Outside, 1);
    var g := (i: nat) => State(0, i, Staged(n, Local(if i < n then Releasing(i) else Leaving, 0), l, 2, l, b));
    forall i | 0 <= i < n ensures Act(rounds, g(i), 0) == Some(g(i + 1)) {
      var next := Local(if i + 1 < n then Releasing(i + 1) else Leaving, 0);
      StagedUpdate(n, Local(Releasing(i), 0), l, 2, l, b, next);
      assert g(i).ranks[0] == Local(Releasing(i), 0);
    }
    ReachChain(n, rounds, g, _ => 0, 0, n);
  }

  /** Rank 1 has returned twice, the second time on a token released for another rank. */
  lemma ReachStolen(n: nat, rounds: nat)
    requires n >= 2 && rounds >= 2
    ensures Reachable(n, rounds,
      State(1, n - 2, Staged(n, Local(Leaving, 0), Local(Outside, 2), 2, Local(Leaving, 0), Local(Outside, 1))))
  {
    ReachReleased(n, rounds);
    var l, b := Local(Leaving, 0), Local(Outside, 1);
    var at := (l1: Local) => Staged(n, l, l1, 2, l, b);
    StagedUpdate(n, l, l, 2, l, b, b);
    ReachNext(n, rounds, State(0, n, at(l)), 1, State(0, n - 1, at(b)));
    StagedUpdate(n, l, b, 2, l, b, Local(Leaving, 1));
    ReachNext(n, rounds, State(0, n - 1, at(b)), 1, State(1, n - 1, at(Local(Leaving, 1))));
    StagedUpdate(n, l, Local(Leaving, 1), 2, l, b, Local(Outside, 2));
    ReachNext(n, rounds, State(1, n - 1, at(Local(Leaving, 1))), 1, State(1, n - 2, at(Local(Outside, 2))));
  }

  /** The other ranks have used up the tokens. */
  lemma ReachDrained(n: nat, rounds: nat)
    requires n >= 2 && rounds >= 2
    ensures Reachable(n, rounds,
      State(1, 0, Staged(n, Local(Leaving, 0), Local(Outside, 2), 2, Local(Outside, 1), Local(Leaving, 1))))
  {
    ReachStolen(n, rounds);
    var l, b, two := Local(Leaving, 0), Local(Outside, 1), Local(Outside, 2);
    var f := (k: nat) => State(1, if k <= n then n - k else 0, Staged(n, l, two, k, l, b));
    forall k | 2 <= k < n ensures Act(rounds, f(k), k) == Some(f(k + 1)) {
      StagedUpdate(n, l, two, k, l, b, b);
    }
    ReachChain(n, rounds, f, (k: nat) => k, 2, n);
    StagedUpdate(n, l, two, n, l, b, Local(Leaving, 1));
  }

  /** They have entered their second call too. */
  lemma ReachReentered(n: nat, rounds: nat)
    requires n >= 2 && rounds >= 2
    ensures Reachable(n, rounds,
      State(n - 1, 0, Staged(n, Local(Leaving, 0), Local(Outside, 2), n, Local(Outside, 1), Local(Leaving, 1))))
  {
    ReachDrained(n, rounds);
    var l, b, e, two := Local(Leaving, 0), Local(Outside, 1), Local(Leaving, 1), Local(Outside, 2);
    var g := (k: nat) => State(if k >= 1 then k - 1 else 0, 0, Staged(n, l, two, k, b, e));
    forall k | 2 <= k < n ensures Act(rounds, g(k), k) == Some(g(k + 1)) {
      StagedUpdate(n, l, two, k, b, e, e);
    }
    ReachChain(n, rounds, g, (k: nat) => k, 2, n);
  }

  /** Rank 0 is still in its first call, and nobody can move. */
  lemma ReachStuck(n: nat, rounds: nat) returns (s: State)
    requires n >= 2 && rounds >= 2
    ensures Reachable(n, rounds, s) && Stuck(rounds, s) && !AllDone(rounds, s)
  {
    ReachReentered(n, rounds);
    var l, b, e, two := Local(Leaving, 0), Local(Outside, 1), Local(Leaving, 1), Local(Outside, 2);
    s := State(n - 1, 0, Staged(n, l, two, n, b, e));
    if rounds > 2 {
      var s' := State(n, 0, Staged(n, l, Local(Leaving, 2), n, b, e));
      StagedUpdate(n, l, two, n, b, e, Local(Leaving, 2));
      ReachNext(n, rounds, s, 1, s');
      s := s';
    }
    assert s.ranks[0] == l;
  }

  /** Returning from a call means all have entered it exactly when there is one rank or one call. */
  lemma BarrierIff(n: nat, rounds: nat)
    requires n > 0
    ensures AlwaysBarrier(n, rounds) <==> n == 1 || rounds <= 1
  {
    if n == 1 || rounds <= 1 {
      forall s | Reachable(n, rounds, s) ensures Barrier(s) {
        var schedule :| Run(n, rounds, schedule) == Some(s);
        RunInvariant(n, rounds, schedule);
        SingleCallBarrier(n, rounds, s);
      }
    } else {
      ReachStolen(n, rounds);
      var s := State(1, n - 2,
        Staged(n, Local(Leaving, 0), Local(Outside, 2), 2, Local(Leaving, 0), Local(Outside, 1)));
      assert s.ranks[1].done > Entered(s.ranks[0]);
      assert !Barrier(s);
    }
  }

  /** The protocol cannot deadlock exactly when there is one rank or one call. */
  lemma DeadlockFreeIff(n: nat, rounds: nat)
    requires n > 0
    ensures DeadlockFree(n, rounds) <==> n == 1 || rounds <= 1
  {
    if n == 1 || rounds <= 1 {
      forall s | Reachable(n, rounds, s) && Stuck(rounds, s) ensures AllDone(rounds, s) {
        var schedule :| Run(n, rounds, schedule) == Some(s);
        RunInvariant(n, rounds, schedule);
        SingleCallProgress(n, rounds, s);
      }
    } else {
      var s := ReachStuck(n, rounds);
    }
  }
}
