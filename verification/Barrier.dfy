/** The sense-reversing barrier as a transition system: n threads call barrier() over and over, and
    each atomic access to shared memory is one step, under sequential consistency. History
    variables say how many episodes each thread has entered and left, and how many are complete. */
module Barrier {
  import opened Sets

  /** Where a thread is in barrier():
      Outside    not in a call; calling flips threadsense
      Arriving   the fetch-and-add comes next
      Resetting  it was the last to arrive; the store to count comes next
      Releasing  the store to sense comes next
      Spinning   reading sense until it equals threadsense */
  datatype Place = Outside | Arriving | Resetting | Releasing | Spinning

  datatype Thread = Thread(place: Place, threadsense: bool, entered: nat, left: nat)

  datatype State = State(sense: bool, count: nat, completed: nat, threads: seq<Thread>)

  function Init(n: nat): State {
    State(false, 0, 0, seq(n, _ => Thread(Outside, false, 0, 0)))
  }

  /** One step of thread i. A spinning thread whose release has not come reads sense and stays. */
  function Step(s: State, i: nat): (s': State)
    requires i < |s.threads|
    ensures |s'.threads| == |s.threads|
  {
    var t := s.threads[i];
    match t.place
    case Outside =>
      s.(threads := s.threads[i := Thread(Arriving, !t.threadsense, t.entered + 1, t.left)])
    case Arriving =>
      var last := s.count == |s.threads| - 1;
      s.(count := s.count + 1, threads := s.threads[i := t.(place := if last then Resetting else Spinning)])
    case Resetting =>
      s.(count := 0, threads := s.threads[i := t.(place := Releasing)])
    case Releasing =>
      s.(sense := t.threadsense, completed := s.completed + 1,
         threads := s.threads[i := t.(place := Outside, left := t.left + 1)])
    case Spinning =>
      if s.sense == t.threadsense then s.(threads := s.threads[i := t.(place := Outside, left := t.left + 1)]) else s
  }

  predicate Schedule(n: nat, who: seq<nat>) {
    forall k :: 0 <= k < |who| ==> who[k] < n
  }

  /** Any interleaving of the threads. */
  function Run(s: State, who: seq<nat>): (s': State)
    requires Schedule(|s.threads|, who)
    ensures |s'.threads| == |s.threads|
    decreases who
  {
    if who == [] then s else Run(Step(s, who[0]), who[1..])
  }

  // ----- the invariant

  predicate Odd(n: nat) {
    n % 2 == 1
  }

  predicate ThreadOk(t: Thread, completed: nat) {
    && completed <= t.entered <= completed + 1
    && t.threadsense == Odd(t.entered)
    && t.entered == (if t.place.Outside? then t.left else t.left + 1)
    && (t.place.Outside? ==> t.entered == completed)
    && (t.place.Arriving? || Closing(t) ==> t.entered == completed + 1)
  }

  predicate Closing(t: Thread) {
    t.place.Resetting? || t.place.Releasing?
  }

  /** The threads past the fetch-and-add of the episode under way. */
  ghost function Arrived(s: State): set<nat> {
    set i | 0 <= i < |s.threads| && HasArrived(s, i)
  }

  predicate HasArrived(s: State, i: nat)
    requires i < |s.threads|
  {
    s.threads[i].entered == s.completed + 1 && (s.threads[i].place.Spinning? || Closing(s.threads[i]))
  }

  ghost predicate Open(s: State) {
    forall i :: 0 <= i < |s.threads| ==> !Closing(s.threads[i])
  }

  /** count is the number of arrived threads, until the last one starts to close the episode. */
  ghost predicate CountOk(s: State) {
    && (Open(s) ==> s.count == |Arrived(s)| < |s.threads|)
    && (forall i :: 0 <= i < |s.threads| && Closing(s.threads[i]) ==> ClosedBy(s, i))
  }

  ghost predicate ClosedBy(s: State, i: nat)
    requires i < |s.threads|
  {
    && (forall j :: 0 <= j < |s.threads| ==> HasArrived(s, j))
    && (forall j :: 0 <= j < |s.threads| && j != i ==> s.threads[j].place.Spinning?)
    && s.count == (if s.threads[i].place.Resetting? then |s.threads| else 0)
  }

  ghost predicate Inv(s: State) {
    && |s.threads| > 0
    && s.sense == Odd(s.completed)
    && (forall i :: 0 <= i < |s.threads| ==> ThreadOk(s.threads[i], s.completed))
    && CountOk(s)
  }

  lemma InitInv(n: nat)
    requires n > 0
    ensures Inv(Init(n))
  {
    assert Arrived(Init(n)) == {};
  }

  ghost function Below(n: nat): (b: set<nat>)
    ensures forall i :: i in b <==> 0 <= i < n
    ensures |b| == n
  {
    if n == 0 then {} else Below(n - 1) + {n - 1}
  }

  /** A set of thread numbers has n elements exactly when it has all of them. */
  lemma {:induction false} FullSet(n: nat, a: set<nat>)
    requires a <= Below(n)
    ensures |a| <= n && (|a| == n <==> a == Below(n))
  {
    SubsetSize(a, Below(n));
  }

  lemma EnterInv(s: State, i: nat)
    requires Inv(s) && i < |s.threads| && s.threads[i].place.Outside?
    ensures Inv(Step(s, i))
  {
    assert !HasArrived(s, i);
    assert Open(s);
    assert Arrived(Step(s, i)) == Arrived(s);
  }

  lemma ArriveInv(s: State, i: nat)
    requires Inv(s) && i < |s.threads| && s.threads[i].place.Arriving?
    ensures Inv(Step(s, i))
  {
    ArriveAdds(s, i);
    ArriveCount(Step(s, i), i);
  }

  lemma ArriveAdds(s: State, i: nat)
    requires Inv(s) && i < |s.threads| && s.threads[i].place.Arriving?
    ensures Open(s) && Step(s, i).count == |Arrived(Step(s, i))|
  {
    var s' := Step(s, i);
    assert !HasArrived(s, i);
    assert Open(s);
    assert HasArrived(s', i);
    forall j | 0 <= j < |s.threads| && j != i
      ensures HasArrived(s', j) == HasArrived(s, j)
    {
      assert s'.threads[j] == s.threads[j];
    }
    assert Arrived(s') == Arrived(s) + {i};
  }

  lemma ArriveCount(s: State, i: nat)
    requires i < |s.threads| && s.count == |Arrived(s)|
    requires s.threads[i].place == if s.count == |s.threads| then Resetting else Spinning
    requires forall j :: 0 <= j < |s.threads| && j != i ==> !Closing(s.threads[j])
    ensures CountOk(s)
  {
    FullSet(|s.threads|, Arrived(s));
    if s.count == |s.threads| {
      forall j | 0 <= j < |s.threads|
        ensures HasArrived(s, j)
      {
        assert j in Arrived(s);
      }
      forall j | 0 <= j < |s.threads| && j != i
        ensures s.threads[j].place.Spinning?
      {
        assert HasArrived(s, j);
      }
      assert ClosedBy(s, i);
    }
  }

  lemma ResetInv(s: State, i: nat)
    requires Inv(s) && i < |s.threads| && s.threads[i].place.Resetting?
    ensures Inv(Step(s, i))
  {
    var s' := Step(s, i);
    assert ClosedBy(s, i);
    forall j | 0 <= j < |s.threads|
      ensures HasArrived(s', j)
    {
      assert HasArrived(s, j);
    }
    assert ClosedBy(s', i);
  }

  lemma ReleaseInv(s: State, i: nat)
    requires Inv(s) && i < |s.threads| && s.threads[i].place.Releasing?
    ensures Inv(Step(s, i))
  {
    var s' := Step(s, i);
    assert ClosedBy(s, i);
    forall j | 0 <= j < |s.threads|
      ensures ThreadOk(s'.threads[j], s'.completed) && !HasArrived(s', j)
    {
      assert HasArrived(s, j) && ThreadOk(s.threads[j], s.completed);
    }
    assert Arrived(s') == {};
    assert Open(s');
  }

  lemma SpinInv(s: State, i: nat)
    requires Inv(s) && i < |s.threads| && s.threads[i].place.Spinning?
    ensures Inv(Step(s, i))
  {
    if s.sense == s.threads[i].threadsense {
      assert s.threads[i].entered == s.completed;
      assert !HasArrived(s, i);
      assert Open(s);
      assert Arrived(Step(s, i)) == Arrived(s);
    }
  }

  lemma StepInv(s: State, i: nat)
    requires Inv(s) && i < |s.threads|
    ensures Inv(Step(s, i))
  {
    match s.threads[i].place
    case Outside => EnterInv(s, i);
    case Arriving => ArriveInv(s, i);
    case Resetting => ResetInv(s, i);
    case Releasing => ReleaseInv(s, i);
    case Spinning => SpinInv(s, i);
  }

  lemma {:induction false} RunInv(s: State, who: seq<nat>)
    requires Inv(s) && Schedule(|s.threads|, who)
    ensures Inv(Run(s, who))
    decreases who
  {
    if who != [] {
      StepInv(s, who[0]);
      RunInv(Step(s, who[0]), who[1..]);
    }
  }

  /** The state after any interleaving from the start. */
  function Reached(n: nat, before: seq<nat>): (s: State)
    requires Schedule(n, before)
    ensures |s.threads| == n
  {
    Run(Init(n), before)
  }

  lemma ReachedInv(n: nat, before: seq<nat>)
    requires n > 0 && Schedule(n, before)
    ensures Inv(Reached(n, before))
  {
    InitInv(n);
    RunInv(Init(n), before);
  }

  // ----- safety

  /** Over every interleaving and any number of episodes: no thread has left an episode that some
      thread has not entered, and no two threads are more than one episode apart. */
  lemma Safety(n: nat, who: seq<nat>, i: nat, j: nat, k: nat)
    requires n > 0 && Schedule(n, who) && i < n && j < n
    ensures var ts := Reached(n, who).threads;
            && (ts[i].left >= k ==> ts[j].entered >= k)
            && ts[i].entered <= ts[j].entered + 1
            && ts[i].left <= ts[j].left + 1
  {
    ReachedInv(n, who);
    NoneAhead(Reached(n, who), i, j);
  }

  lemma NoneAhead(s: State, i: nat, j: nat)
    requires Inv(s) && i < |s.threads| && j < |s.threads|
    ensures s.threads[i].left <= s.completed <= s.threads[j].entered
    ensures s.threads[i].entered <= s.threads[j].entered + 1
    ensures s.threads[i].left <= s.threads[j].left + 1
  {
    assert ThreadOk(s.threads[i], s.completed) && ThreadOk(s.threads[j], s.completed);
  }

  /** Clean reuse: whenever any thread is about to be let go, count is already 0 again, so the next
      episode starts from a clean counter. */
  lemma ReleasedClean(n: nat, who: seq<nat>, i: nat)
    requires n > 0 && Schedule(n, who) && i < n
    requires Reached(n, who).threads[i].place.Releasing?
    ensures Reached(n, who).count == 0
    ensures forall j :: 0 <= j < n ==> Reached(n, who).threads[j].entered == Reached(n, who).completed + 1
  {
    ReachedInv(n, who);
    var s := Reached(n, who);
    assert ClosedBy(s, i);
    forall j | 0 <= j < n
      ensures s.threads[j].entered == s.completed + 1
    {
      assert HasArrived(s, j);
    }
  }

  // ----- progress

  /** Thread i can do something other than read sense in vain. */
  predicate CanMove(s: State, i: nat)
    requires i < |s.threads|
  {
    s.threads[i].place.Spinning? ==> s.sense == s.threads[i].threadsense
  }

  /** If every thread is inside the barrier, or thread j has been released but still spins, then some
      thread inside can move. */
  lemma MoverInside(s: State, j: nat)
    requires Inv(s) && j < |s.threads|
    requires (s.threads[j].place.Spinning? && s.threads[j].entered == s.completed)
             || forall i :: 0 <= i < |s.threads| ==> !s.threads[i].place.Outside?
    ensures exists i :: 0 <= i < |s.threads| && !s.threads[i].place.Outside? && CanMove(s, i)
  {
    if s.threads[j].place.Spinning? && s.threads[j].entered == s.completed {
      assert CanMove(s, j);
    } else if Open(s) {
      AllArrived(s);
      var i :| 0 <= i < |s.threads| && !HasArrived(s, i);
      assert ThreadOk(s.threads[i], s.completed);
      assert CanMove(s, i);
    } else {
      var i :| 0 <= i < |s.threads| && Closing(s.threads[i]);
      assert CanMove(s, i);
    }
  }

  lemma AllArrived(s: State)
    requires Inv(s) && Open(s)
    ensures exists i :: 0 <= i < |s.threads| && !HasArrived(s, i)
  {
    FullSet(|s.threads|, Arrived(s));
    var i :| 0 <= i < |s.threads| && i !in Arrived(s);
  }

  /** How far a thread has come: four places per episode. */
  function Position(t: Thread): nat {
    4 * t.left +
    match t.place
    case Outside => 0
    case Arriving => 1
    case Spinning => 2
    case Resetting => 2
    case Releasing => 3
  }

  /** The places left to go until every thread is about to leave episode k + 1. */
  function Remaining(ts: seq<Thread>, k: nat): int {
    if ts == [] then 0 else 4 * k + 3 - Position(ts[0]) + Remaining(ts[1..], k)
  }

  lemma {:induction false} RemainingUpdate(ts: seq<Thread>, i: nat, t: Thread, k: nat)
    requires i < |ts|
    ensures Remaining(ts[i := t], k) == Remaining(ts, k) + Position(ts[i]) - Position(t)
  {
    if i > 0 {
      RemainingUpdate(ts[1..], i - 1, t, k);
      assert ts[i := t][1..] == ts[1..][i - 1 := t];
    } else {
      assert ts[0 := t][1..] == ts[1..];
    }
  }

  lemma {:induction false} RemainingAtMost(ts: seq<Thread>, k: nat)
    requires forall i :: 0 <= i < |ts| ==> 4 * k - 3 <= Position(ts[i])
    ensures Remaining(ts, k) <= 6 * |ts|
  {
    if ts != [] {
      RemainingAtMost(ts[1..], k);
    }
  }

  lemma {:induction false} RemainingAtLeast(ts: seq<Thread>, k: nat)
    requires forall i :: 0 <= i < |ts| ==> Position(ts[i]) <= 4 * k + 3
    ensures Remaining(ts, k) >= 0
  {
    if ts != [] {
      RemainingAtLeast(ts[1..], k);
    }
  }

  lemma MoveAdvances(s: State, i: nat, k: nat)
    requires i < |s.threads| && CanMove(s, i)
    ensures Remaining(Step(s, i).threads, k) < Remaining(s.threads, k)
  {
    RemainingUpdate(s.threads, i, Step(s, i).threads[i], k);
    assert Step(s, i).threads == s.threads[i := Step(s, i).threads[i]];
  }

  /** The steps of a schedule that are not idle spinning. */
  function Moves(s: State, who: seq<nat>): (m: nat)
    requires Schedule(|s.threads|, who)
    ensures m <= |who|
    decreases who
  {
    if who == [] then 0 else (if CanMove(s, who[0]) then 1 else 0) + Moves(Step(s, who[0]), who[1..])
  }

  /** A spin in vain changes nothing. */
  lemma IdleStep(s: State, i: nat)
    requires i < |s.threads| && !CanMove(s, i)
    ensures Step(s, i) == s
  {
  }

  lemma {:induction false} MovesAdvance(s: State, who: seq<nat>, k: nat)
    requires Schedule(|s.threads|, who)
    ensures Remaining(Run(s, who).threads, k) <= Remaining(s.threads, k) - Moves(s, who)
    decreases who
  {
    if who != [] {
      if CanMove(s, who[0]) {
        MoveAdvances(s, who[0], k);
      } else {
        IdleStep(s, who[0]);
      }
      MovesAdvance(Step(s, who[0]), who[1..], k);
    }
  }

  ghost predicate AllEntered(s: State, k: nat) {
    forall i :: 0 <= i < |s.threads| ==> s.threads[i].entered >= k
  }

  ghost predicate AllLeft(s: State, k: nat) {
    forall i :: 0 <= i < |s.threads| ==> s.threads[i].left >= k
  }

  lemma PositionRange(s: State, k: nat)
    requires Inv(s) && k > 0
    ensures AllEntered(s, k) ==> forall i :: 0 <= i < |s.threads| ==> 4 * k - 3 <= Position(s.threads[i])
    ensures !AllLeft(s, k) ==> forall i :: 0 <= i < |s.threads| ==> Position(s.threads[i]) <= 4 * k + 3
  {
    forall i | 0 <= i < |s.threads|
      ensures AllEntered(s, k) ==> 4 * k - 3 <= Position(s.threads[i])
      ensures !AllLeft(s, k) ==> Position(s.threads[i]) <= 4 * k + 3
    {
      assert ThreadOk(s.threads[i], s.completed);
      if !AllLeft(s, k) {
        var j :| 0 <= j < |s.threads| && s.threads[j].left < k;
        NoneAhead(s, i, j);
        assert ThreadOk(s.threads[j], s.completed);
      }
    }
  }

  lemma ManyMovesEnd(s: State, k: nat, who: seq<nat>)
    requires Inv(s) && k > 0 && AllEntered(s, k)
    requires Schedule(|s.threads|, who) && Moves(s, who) > 6 * |s.threads|
    ensures AllLeft(Run(s, who), k)
  {
    RunInv(s, who);
    MovesAdvance(s, who, k);
    PositionRange(s, k);
    RemainingAtMost(s.threads, k);
    if !AllLeft(Run(s, who), k) {
      PositionRange(Run(s, who), k);
      RemainingAtLeast(Run(s, who).threads, k);
    }
  }

  lemma SomeoneInsideMoves(s: State, k: nat)
    requires Inv(s) && AllEntered(s, k) && !AllLeft(s, k)
    ensures exists i :: 0 <= i < |s.threads| && !s.threads[i].place.Outside? && CanMove(s, i)
  {
    var j :| 0 <= j < |s.threads| && s.threads[j].left < k;
    assert ThreadOk(s.threads[j], s.completed);
    if s.completed < k {
      forall i | 0 <= i < |s.threads|
        ensures !s.threads[i].place.Outside?
      {
        assert ThreadOk(s.threads[i], s.completed);
      }
    }
    MoverInside(s, j);
  }

  /** Every step of the schedule is a move of a thread inside the barrier. */
  predicate Inside(s: State, who: seq<nat>)
    requires Schedule(|s.threads|, who)
    decreases who
  {
    who == [] ||
    (!s.threads[who[0]].place.Outside? && CanMove(s, who[0]) && Inside(Step(s, who[0]), who[1..]))
  }

  lemma StepCounts(s: State, i: nat, k: nat)
    requires i < |s.threads|
    ensures AllEntered(s, k) ==> AllEntered(Step(s, i), k)
    ensures AllLeft(s, k) ==> AllLeft(Step(s, i), k)
  {
  }

  lemma NextMove(s: State, k: nat) returns (i: nat)
    requires Inv(s) && k > 0 && AllEntered(s, k) && !AllLeft(s, k)
    ensures i < |s.threads| && !s.threads[i].place.Outside? && CanMove(s, i)
    ensures Inv(Step(s, i)) && AllEntered(Step(s, i), k)
    ensures 0 <= Remaining(s.threads, k) && Remaining(Step(s, i).threads, k) < Remaining(s.threads, k)
  {
    hide Step, Inv, Remaining, Position;
    SomeoneInsideMoves(s, k);
    i :| 0 <= i < |s.threads| && !s.threads[i].place.Outside? && CanMove(s, i);
    StepInv(s, i);
    StepCounts(s, i, k);
    MoveAdvances(s, i, k);
    PositionRange(s, k);
    RemainingAtLeast(s.threads, k);
  }

  lemma {:induction false} FinishFrom(s: State, k: nat) returns (who: seq<nat>)
    requires Inv(s) && k > 0 && AllEntered(s, k)
    ensures Schedule(|s.threads|, who) && Inside(s, who) && AllLeft(Run(s, who), k)
    decreases Remaining(s.threads, k)
  {
    if AllLeft(s, k) {
      who := [];
    } else {
      var i := NextMove(s, k);
      var rest := FinishFrom(Step(s, i), k);
      who := [i] + rest;
      assert who[1..] == rest;
    }
  }

  // ----- fair schedules

  lemma {:induction false} RunJoin(s: State, a: seq<nat>, b: seq<nat>)
    requires Schedule(|s.threads|, a) && Schedule(|s.threads|, b)
    ensures Schedule(|s.threads|, a + b)
    ensures Run(s, a + b) == Run(Run(s, a), b)
    ensures Moves(s, a + b) == Moves(s, a) + Moves(Run(s, a), b)
    decreases a
  {
    if a == [] {
      assert a + b == b;
    } else {
      assert (a + b)[1..] == a[1..] + b;
      RunJoin(Step(s, a[0]), a[1..], b);
    }
  }

  /** A round gives every thread at least one turn. */
  ghost predicate Round(n: nat, who: seq<nat>) {
    Schedule(n, who) && forall i :: 0 <= i < n ==> i in who
  }

  /** Without a move everything stays, and none of the threads that had a turn can move. */
  lemma {:induction false} NoMoves(s: State, who: seq<nat>)
    requires Schedule(|s.threads|, who) && Moves(s, who) == 0
    ensures Run(s, who) == s && forall i :: i in who ==> i < |s.threads| && !CanMove(s, i)
    decreases who
  {
    if who != [] {
      IdleStep(s, who[0]);
      NoMoves(s, who[1..]);
      assert who == [who[0]] + who[1..];
    }
  }

  /** While an episode lasts, every round has a move. */
  lemma RoundMoves(s: State, k: nat, who: seq<nat>)
    requires Inv(s) && AllEntered(s, k) && !AllLeft(s, k) && Round(|s.threads|, who)
    ensures Moves(s, who) > 0
  {
    SomeoneInsideMoves(s, k);
    if Moves(s, who) == 0 {
      NoMoves(s, who);
    }
  }

  lemma {:induction false} CountsGrow(s: State, who: seq<nat>, k: nat)
    requires Schedule(|s.threads|, who)
    ensures AllEntered(s, k) ==> AllEntered(Run(s, who), k)
    ensures AllLeft(s, k) ==> AllLeft(Run(s, who), k)
    decreases who
  {
    hide Step, AllEntered, AllLeft;
    if who != [] {
      StepCounts(s, who[0], k);
      CountsGrow(Step(s, who[0]), who[1..], k);
    }
  }

  ghost predicate Rounds(n: nat, rounds: seq<seq<nat>>) {
    forall r :: 0 <= r < |rounds| ==> Round(n, rounds[r])
  }

  /** The rounds one after the other. */
  function Flatten(rounds: seq<seq<nat>>): seq<nat> {
    if rounds == [] then [] else rounds[0] + Flatten(rounds[1..])
  }

  lemma {:induction false} FlattenSchedule(n: nat, rounds: seq<seq<nat>>)
    requires Rounds(n, rounds)
    ensures Schedule(n, Flatten(rounds))
  {
    if rounds != [] {
      assert Round(n, rounds[0]);
      FlattenSchedule(n, rounds[1..]);
    }
  }

  lemma {:induction false} RoundsMove(s: State, k: nat, rounds: seq<seq<nat>>)
    requires Inv(s) && AllEntered(s, k) && Rounds(|s.threads|, rounds)
    ensures Schedule(|s.threads|, Flatten(rounds))
    ensures AllLeft(Run(s, Flatten(rounds)), k) || Moves(s, Flatten(rounds)) >= |rounds|
    decreases |rounds|
  {
    FlattenSchedule(|s.threads|, rounds);
    if rounds != [] {
      var first, rest := rounds[0], rounds[1..];
      assert Round(|s.threads|, first) && Rounds(|s.threads|, rest);
      FlattenSchedule(|s.threads|, rest);
      RunJoin(s, first, Flatten(rest));
      RunInv(s, first);
      CountsGrow(s, first, k);
      RoundsMove(Run(s, first), k, rest);
      if AllLeft(s, k) {
        CountsGrow(s, Flatten(rounds), k);
      } else {
        RoundMoves(s, k, first);
      }
    }
  }

  lemma FairRoundsEnd(s: State, k: nat, rounds: seq<seq<nat>>)
    requires Inv(s) && k > 0 && AllEntered(s, k) && Rounds(|s.threads|, rounds) && |rounds| > 6 * |s.threads|
    ensures Schedule(|s.threads|, Flatten(rounds)) && AllLeft(Run(s, Flatten(rounds)), k)
  {
    RoundsMove(s, k, rounds);
    if Moves(s, Flatten(rounds)) >= |rounds| {
      ManyMovesEnd(s, k, Flatten(rounds));
    }
  }

  // ----- in every reachable state

  /** An episode only ever waits for threads that have not called yet: if every thread is inside the
      barrier, or thread j has been released but still spins, then some thread inside can move. */
  lemma SomeoneMoves(n: nat, before: seq<nat>, j: nat)
    requires n > 0 && Schedule(n, before) && j < n
    requires var s := Reached(n, before);
             (s.threads[j].place.Spinning? && s.threads[j].entered == s.completed)
             || forall i :: 0 <= i < n ==> !s.threads[i].place.Outside?
    ensures var s := Reached(n, before);
            exists i :: 0 <= i < n && !s.threads[i].place.Outside? && CanMove(s, i)
  {
    ReachedInv(n, before);
    MoverInside(Reached(n, before), j);
  }

  /** Once all n threads have entered an episode, any schedule brings all of them out of it, as soon as
      it has made more than 6n moves; spinning in between, and threads that start the next episode, do
      not matter. */
  lemma EpisodeEnds(n: nat, before: seq<nat>, k: nat, who: seq<nat>)
    requires n > 0 && Schedule(n, before) && Schedule(n, who)
    requires k > 0 && AllEntered(Reached(n, before), k) && Moves(Reached(n, before), who) > 6 * n
    ensures AllLeft(Run(Reached(n, before), who), k)
  {
    ReachedInv(n, before);
    ManyMovesEnd(Reached(n, before), k, who);
  }

  /** So a fair schedule ends every episode: after more than 6n rounds in which every thread gets a
      turn, in any order and however often, all have left it. */
  lemma FairEpisodeEnds(n: nat, before: seq<nat>, k: nat, rounds: seq<seq<nat>>)
    requires n > 0 && Schedule(n, before) && Rounds(n, rounds)
    requires k > 0 && AllEntered(Reached(n, before), k) && |rounds| > 6 * n
    ensures Schedule(n, Flatten(rounds)) && AllLeft(Run(Reached(n, before), Flatten(rounds)), k)
  {
    ReachedInv(n, before);
    FairRoundsEnd(Reached(n, before), k, rounds);
  }

  /** Until all have left, some thread inside the barrier can move: the episode is never stuck. */
  lemma NeverStuck(n: nat, before: seq<nat>, k: nat)
    requires n > 0 && Schedule(n, before)
    requires AllEntered(Reached(n, before), k) && !AllLeft(Reached(n, before), k)
    ensures var s := Reached(n, before);
            exists i :: 0 <= i < n && !s.threads[i].place.Outside? && CanMove(s, i)
  {
    ReachedInv(n, before);
    SomeoneInsideMoves(Reached(n, before), k);
  }

  /** The threads already inside can finish the episode by themselves. */
  lemma CanFinish(n: nat, before: seq<nat>, k: nat) returns (who: seq<nat>)
    requires n > 0 && Schedule(n, before) && k > 0 && AllEntered(Reached(n, before), k)
    ensures Schedule(n, who) && Inside(Reached(n, before), who) && AllLeft(Run(Reached(n, before), who), k)
  {
    ReachedInv(n, before);
    who := FinishFrom(Reached(n, before), k);
  }
}
