// Two runs of a rotation that end badly, and the exact bound that rules one of them out: src/store/fleet.rs and
// src/store/management.rs.

module RotationRuns {
  import opened Numbers
  import opened Rotation
  import opened RotationRetries

  // A first rotation answered but not committed, beside other callers.
  function Answered(callers: map<nat, Caller>): World {
    var p, m := Pending(1, 1), Message(1, 0, Pending(1, 1));
    World(0, 0, Some(p), {}, callers[1 := Agreed(p)], {m}, {m}, 1, map[1 := Fence(1, FENCE_SECONDS)], map[], [0, 1], map[p := 0])
  }

  function Rotating(): seq<Step> {
    [Stage(1, 1)] + Attempt(1, 1, 0, Pending(1, 1))
  }

  function Staged(callers: map<nat, Caller>): World {
    var p := Pending(1, 1);
    Start().(callers := callers[1 := Calling(p, 0, 0)], staged := Some(p), seen := map[p := 0])
  }

  lemma StagedAnswered(callers: map<nat, Caller>)
    ensures Run(Staged(callers), Attempt(1, 1, 0, Pending(1, 1))) == Answered(callers)
  {
    var p, m := Pending(1, 1), Message(1, 0, Pending(1, 1));
    var staged := Staged(callers);
    RunFour(staged, Send(1), Authenticate(1, m), Execute(1), Receive(1, 0));
    var sent := staged.(callers := callers[1 := Calling(p, 0, 1)], network := {m});
    assert OnSend(staged, 1) == sent;
    assert Next(sent, Authenticate(1, m)) == sent.(tasks := map[1 := m]);
    SentAnswered(callers, sent);
  }

  lemma SentAnswered(callers: map<nat, Caller>, sent: World)
    requires sent == Staged(callers).(callers := callers[1 := Calling(Pending(1, 1), 0, 1)],
                                      network := {Message(1, 0, Pending(1, 1))})
    ensures Next(Next(sent.(tasks := map[1 := Message(1, 0, Pending(1, 1))]), Execute(1)), Receive(1, 0)) == Answered(callers)
  {
    var p, m := Pending(1, 1), Message(1, 0, Pending(1, 1));
    var moved := sent.(answered := {m}, realm := 1, fences := map[1 := Fence(1, FENCE_SECONDS)], history := [0, 1]);
    assert OnExecute(sent.(tasks := map[1 := m]), 1) == moved;
    assert moved.callers[1 := Agreed(p)] == callers[1 := Agreed(p)];
  }

  lemma FirstAnswered(callers: map<nat, Caller>)
    requires 1 in callers && callers[1] == Unfinished(1, 0, None)
    ensures Run(Start().(callers := callers), Rotating()) == Answered(callers)
  {
    var w := Start().(callers := callers);
    RunOne(w, Stage(1, 1));
    assert OnStage(w, 1, 1) == Staged(callers);
    RunConcat(w, [Stage(1, 1)], Attempt(1, 1, 0, Pending(1, 1)));
    StagedAnswered(callers);
  }

  lemma RunTwo(w: World, a: Step, b: Step)
    ensures Run(w, [a, b]) == Next(Next(w, a), b)
  {
    assert [a, b][..1] == [a];
    RunOne(w, a);
  }

  // Two calls with one request id, the second staging after the first has committed.
  function BothLook(): seq<Step> {
    [Look(1, 1), CheckCompleted(1), Look(2, 1), CheckCompleted(2)]
  }

  function Both(): map<nat, Caller> {
    map[1 := Unfinished(1, 0, None), 2 := Unfinished(1, 0, None)]
  }

  lemma BothAreUnfinished()
    ensures Run(Start(), BothLook()) == Start().(callers := Both())
  {
    RunFour(Start(), Look(1, 1), CheckCompleted(1), Look(2, 1), CheckCompleted(2));
  }

  lemma SecondStages()
    ensures var after := Run(Answered(Both()), [Commit(1), Stage(2, 2)]);
            after.staged == Some(Pending(1, 2)) && after.completed == {1} && after.now == 0
  {
    RunTwo(Answered(Both()), Commit(1), Stage(2, 2));
  }

  // No time passes in it, so the wedge does not depend on anything being late.
  lemma WedgeIsReachable() returns (steps: seq<Step>)
    ensures PromptRun(Start(), steps, 1) && Wedged(Run(Start(), steps))
  {
    BothAreUnfinished();
    FirstAnswered(Both());
    SecondStages();
    RunConcat(Start(), BothLook(), Rotating());
    RunConcat(Start(), BothLook() + Rotating(), [Commit(1), Stage(2, 2)]);
    steps := BothLook() + Rotating() + [Commit(1), Stage(2, 2)];
    PromptWhileYoung(Start(), steps, 1);
  }

  // A careless execution: a retry of the first rotation is let in by the realm, then that rotation is committed and a
  // second one made, and the task is executed once the fence of the first has gone.
  const FIRST := Pending(1, 1)
  const SECOND := Pending(2, 2)
  const LATE := Message(2, 1, FIRST)

  function OneLooks(): seq<Step> {
    [Look(1, 1), CheckCompleted(1)]
  }

  function One(): map<nat, Caller> {
    map[1 := Unfinished(1, 0, None)]
  }

  lemma OneIsUnfinished()
    ensures Run(Start(), OneLooks()) == Start().(callers := One())
  {
    RunTwo(Start(), Look(1, 1), CheckCompleted(1));
  }

  function Admitting(): seq<Step> {
    [Send(2), Send(2), Authenticate(2, LATE), Commit(1)]
  }

  function Admitted(): World {
    var m := Message(1, 0, FIRST);
    World(0, 1, None, {1}, map[2 := Calling(FIRST, 0, 2)], {m, Message(2, 0, FIRST), LATE}, {m}, 1,
          map[1 := Fence(1, FENCE_SECONDS)], map[2 := LATE], [0, 1], map[FIRST := 0])
  }

  function Calls(attempts: nat, network: set<Message>): World {
    Moved(Answered(One()), 2, Calling(FIRST, 0, attempts)).(network := network)
  }

  lemma SendsTwice()
    ensures var m := Message(1, 0, FIRST);
            OnSend(OnSend(Calls(0, {m}), 2), 2) == Calls(2, {m, Message(2, 0, FIRST), LATE})
  {
    var m := Message(1, 0, FIRST);
    assert OnSend(Calls(0, {m}), 2) == Calls(1, {m, Message(2, 0, FIRST)});
    assert OnSend(Calls(1, {m, Message(2, 0, FIRST)}), 2) == Calls(2, {m, Message(2, 0, FIRST), LATE});
  }

  lemma LateTaskAdmitted()
    ensures Run(Moved(Answered(One()), 2, Calling(FIRST, 0, 0)), Admitting()) == Admitted()
  {
    var m := Message(1, 0, FIRST);
    RunFour(Calls(0, {m}), Send(2), Send(2), Authenticate(2, LATE), Commit(1));
    SendsTwice();
    var twice := Calls(2, {m, Message(2, 0, FIRST), LATE});
    assert Next(twice, Authenticate(2, LATE)) == twice.(tasks := map[2 := LATE]);
    assert twice.callers - {1} == map[2 := Calling(FIRST, 0, 2)];
  }

  function SecondStaged(): World {
    Moved(Admitted(), 3, Calling(SECOND, 1, 0)).(staged := Some(SECOND), seen := map[FIRST := 0, SECOND := 0])
  }

  lemma SecondOpens()
    ensures Run(Admitted(), Opening(3, 2, 2)) == SecondStaged()
  {
    OpeningStages(Admitted(), 3, SECOND);
  }

  // What is left to say of a world: the late task waits, and its fence is the first rotation's.
  predicate Waiting(w: World) {
    w.now == 0 && w.tasks == map[2 := LATE] && w.fences == map[1 := Fence(1, FENCE_SECONDS), 2 := Fence(2, FENCE_SECONDS)]
    && w.realm == 2 && w.completed == {1} && w.staged == Some(SECOND) && 3 in w.callers && w.callers[3] == Agreed(SECOND)
  }

  lemma SecondAnswered()
    ensures Waiting(Run(SecondStaged(), Attempt(3, 3, 1, SECOND)))
  {
    var m := Message(3, 1, SECOND);
    RunFour(SecondStaged(), Send(3), Authenticate(3, m), Execute(3), Receive(3, 1));
    var sent := OnSend(SecondStaged(), 3);
    assert Next(sent, Authenticate(3, m)) == sent.(tasks := map[2 := LATE, 3 := m]);
    PutAndRemoved(map[2 := LATE], 3, m);
  }

  lemma LateExecution(w: World)
    requires Waiting(w)
    ensures var after := Run(w, [Commit(3), Tick(FENCE_SECONDS), Execute(2)]);
            !NotLockedOut(after) && after.now == FENCE_SECONDS
  {
    RunThree(w, Commit(3), Tick(FENCE_SECONDS), Execute(2));
  }

  // One second is enough.
  lemma LockOutIsReachable() returns (steps: seq<Step>)
    ensures !NotLockedOut(Run(Start(), steps)) && PromptRun(Start(), steps, FENCE_SECONDS + 1)
    ensures Run(Start(), steps).now == FENCE_SECONDS
  {
    OneIsUnfinished();
    FirstAnswered(One());
    OpeningResumes(Answered(One()), 2, FIRST);
    LateTaskAdmitted();
    SecondOpens();
    SecondAnswered();
    steps := OneLooks();
    RunConcat(Start(), steps, Rotating());
    steps := steps + Rotating();
    RunConcat(Start(), steps, Opening(2, 1, 0));
    steps := steps + Opening(2, 1, 0);
    RunConcat(Start(), steps, Admitting());
    steps := steps + Admitting();
    RunConcat(Start(), steps, Opening(3, 2, 2));
    steps := steps + Opening(3, 2, 2);
    RunConcat(Start(), steps, Attempt(3, 3, 1, SECOND));
    steps := steps + Attempt(3, 3, 1, SECOND);
    LateExecution(Run(Start(), steps));
    RunConcat(Start(), steps, [Commit(3), Tick(FENCE_SECONDS), Execute(2)]);
    steps := steps + [Commit(3), Tick(FENCE_SECONDS), Execute(2)];
    PromptWhileYoung(Start(), steps, FENCE_SECONDS + 1);
  }

  // ------------------------------------------------------------ the exact bound

  // The control plane is never locked out exactly when no rotation is executed a day or more after it was staged.
  lemma NeverLockedOutExactly(life: nat)
    ensures (forall steps :: PromptRun(Start(), steps, life) ==> NotLockedOut(Run(Start(), steps))) <==> life <= FENCE_SECONDS
  {
    if life <= FENCE_SECONDS {
      forall steps | PromptRun(Start(), steps, life)
        ensures NotLockedOut(Run(Start(), steps))
      {
        NeverLockedOut(steps, life);
      }
    } else {
      var steps := LockOutIsReachable();
      PromptWhileYoung(Start(), steps, life);
    }
  }

  // And so for the realm never going back to a credential it has given up.
  lemma NeverGoesBackExactly(life: nat)
    ensures (forall steps :: PromptRun(Start(), steps, life) ==> Distinct(Run(Start(), steps).history))
            <==> life <= FENCE_SECONDS
  {
    if life <= FENCE_SECONDS {
      forall steps | PromptRun(Start(), steps, life)
        ensures Distinct(Run(Start(), steps).history)
      {
        NeverLockedOut(steps, life);
      }
    } else {
      var steps := LockOutIsReachable();
      PromptWhileYoung(Start(), steps, life);
      if Distinct(Run(Start(), steps).history) {
        DistinctIsCareful(steps);
        Invariant(steps);
        assert false;
      }
    }
  }
}
