// Calling rotate_connection again: src/fleet_rpc.rs and src/store/fleet.rs.

module RotationRetries {
  import opened Numbers
  import opened Rotation

  lemma {:induction false} RunConcat(w: World, a: seq<Step>, b: seq<Step>)
    ensures Run(w, a + b) == Run(Run(w, a), b)
    decreases |b|
  {
    if b == [] {
      assert a + b == a;
    } else {
      var c := b[..|b| - 1];
      assert (a + b)[..|a + b| - 1] == a + c;
      RunConcat(w, a, c);
    }
  }

  lemma RunOne(w: World, s: Step)
    ensures Run(w, [s]) == Next(w, s)
  {
    assert [s][..0] == [];
    assert Run(w, []) == w;
  }

  lemma RunThree(w: World, a: Step, b: Step, c: Step)
    ensures Run(w, [a, b, c]) == Next(Next(Next(w, a), b), c)
  {
    assert [a, b, c][..2] == [a, b] && [a, b][..1] == [a];
    RunOne(w, a);
    assert Run(w, [a, b]) == Next(Run(w, [a]), b);
  }

  lemma RunFour(w: World, a: Step, b: Step, c: Step, d: Step)
    ensures Run(w, [a, b, c, d]) == Next(Next(Next(Next(w, a), b), c), d)
  {
    assert [a, b, c, d][..3] == [a, b, c];
    RunThree(w, a, b, c);
  }

  function Opening(h: nat, request: nat, credential: nat): seq<Step> {
    [Look(h, request), CheckCompleted(h), Stage(h, credential)]
  }

  // One message that reaches the realm, and its answer.
  function Attempt(h: nat, g: nat, bearer: nat, p: Pending): seq<Step> {
    [Send(h), Authenticate(g, Message(h, bearer, p)), Execute(g), Receive(h, bearer)]
  }

  lemma OpeningResumes(w: World, h: nat, p: Pending)
    requires w.staged == Some(p) && p.request !in w.completed && h !in w.callers
    ensures Run(w, Opening(h, p.request, 0)) == Moved(w, h, Calling(p, w.active, 0))
  {
    RunThree(w, Look(h, p.request), CheckCompleted(h), Stage(h, 0));
    var looked := Moved(w, h, Looked(p.request, w.active, Some(p)));
    var unfinished := Moved(w, h, Unfinished(p.request, w.active, Some(p)));
    assert OnCheckCompleted(looked, h) == unfinished by {
      assert looked.callers[h := unfinished.callers[h]] == unfinished.callers;
    }
    assert unfinished.callers[h := Calling(p, w.active, 0)] == w.callers[h := Calling(p, w.active, 0)];
  }

  lemma OpeningStages(w: World, h: nat, p: Pending)
    requires w.staged.None? && p.request !in w.completed && h !in w.callers && Fresh(w, p.credential)
    ensures Run(w, Opening(h, p.request, p.credential))
            == Moved(w, h, Calling(p, w.active, 0)).(staged := Some(p), seen := w.seen[p := w.now])
  {
    RunThree(w, Look(h, p.request), CheckCompleted(h), Stage(h, p.credential));
    var looked := Moved(w, h, Looked(p.request, w.active, None));
    var unfinished := Moved(w, h, Unfinished(p.request, w.active, None));
    assert OnCheckCompleted(looked, h) == unfinished by {
      assert looked.callers[h := unfinished.callers[h]] == unfinished.callers;
    }
    assert unfinished.callers[h := Calling(p, w.active, 0)] == w.callers[h := Calling(p, w.active, 0)];
  }

  ghost predicate Alike(a: World, b: World) {
    a.active == b.active && a.staged == b.staged && a.completed == b.completed && a.tasks == b.tasks
  }

  predicate FenceAgrees(w: World, p: Pending) {
    p.request in w.fences ==> w.fences[p.request].credential == p.credential == w.realm
  }

  lemma StagedFence(w: World, p: Pending)
    requires Inv(w) && w.staged == Some(p) && p.request !in w.completed
    ensures FenceAgrees(w, p)
  {
    if p.request in w.fences {
      assert SeenOne(w.staged, w.completed, w.history, Pending(p.request, w.fences[p.request].credential));
    }
  }

  lemma AttemptAnswered(w: World, h: nat, g: nat, bearer: nat, p: Pending)
    requires FenceAgrees(w, p) && g !in w.tasks
    requires h in w.callers && w.callers[h].Calling? && w.callers[h].rotation == p && w.callers[h].attempts < 2
    requires bearer == w.realm == if w.callers[h].attempts == 0 then w.callers[h].active else p.credential
    ensures var after := Run(w, Attempt(h, g, bearer, p));
            Alike(w, after) && h in after.callers && after.callers[h] == Agreed(p) && after.realm == p.credential
  {
    var m := Message(h, bearer, p);
    AttemptIs(w, h, g, bearer, p);
    SendReaches(w, h, g, m);
    TakenAgrees(Taken(w, h, g, m), h, g, m);
    PutAndRemoved(w.tasks, g, m);
  }

  lemma PutAndRemoved<K, V>(entries: map<K, V>, k: K, v: V)
    requires k !in entries
    ensures entries[k := v] - {k} == entries
  {
  }

  lemma AttemptIs(w: World, h: nat, g: nat, bearer: nat, p: Pending)
    ensures Run(w, Attempt(h, g, bearer, p))
            == OnReceive(OnExecute(Next(OnSend(w, h), Authenticate(g, Message(h, bearer, p))), g), h, bearer)
  {
    RunFour(w, Send(h), Authenticate(g, Message(h, bearer, p)), Execute(g), Receive(h, bearer));
  }

  // A task about the staged rotation of an unfinished request is answered.
  lemma TakenAgrees(w: World, h: nat, g: nat, m: Message)
    requires FenceAgrees(w, m.rotation) && g in w.tasks && w.tasks[g] == m
    requires h in w.callers && w.callers[h].Calling? && w.callers[h].rotation == m.rotation && m.caller == h
    ensures var after := OnReceive(OnExecute(w, g), h, m.bearer);
            && Alike(w.(tasks := w.tasks - {g}), after) && h in after.callers && after.callers[h] == Agreed(m.rotation)
            && after.realm == m.rotation.credential
  {
  }

  // The message has been sent and let in.
  function Taken(w: World, h: nat, g: nat, m: Message): World
    requires h in w.callers && w.callers[h].Calling?
  {
    Moved(w, h, w.callers[h].(attempts := w.callers[h].attempts + 1)).(network := w.network + {m}, tasks := w.tasks[g := m])
  }

  lemma SendReaches(w: World, h: nat, g: nat, m: Message)
    requires g !in w.tasks && m.caller == h && m.bearer == w.realm
    requires h in w.callers && w.callers[h].Calling? && w.callers[h].rotation == m.rotation && w.callers[h].attempts < 2
    requires m.bearer == if w.callers[h].attempts == 0 then w.callers[h].active else m.rotation.credential
    ensures Next(OnSend(w, h), Authenticate(g, m)) == Taken(w, h, g, m)
  {
  }

  // An attempt with a bearer the realm does not take ends unanswered, unless an old answer to it turns up.
  lemma AttemptRefused(w: World, h: nat, g: nat, p: Pending)
    requires h in w.callers && w.callers[h] == Calling(p, w.active, 0) && g !in w.tasks && w.active != w.realm
    ensures var after := Run(w, Attempt(h, g, w.active, p));
            Alike(w, after) && h in after.callers && after.realm == w.realm && after.fences == w.fences
            && (after.callers[h] == Agreed(p) || after.callers[h] == Calling(p, w.active, 1))
  {
    AttemptIs(w, h, g, w.active, p);
    var sent := OnSend(w, h);
    assert OnExecute(Next(sent, Authenticate(g, Message(h, w.active, p))), g) == sent;
  }

  lemma CommitsStaged(w: World, h: nat, p: Pending)
    requires h in w.callers && w.callers[h] == Agreed(p) && w.staged == Some(p) && p.request !in w.completed
    ensures Run(w, [Commit(h)]) == Left(w, h).(active := p.credential, staged := None, completed := w.completed + {p.request})
  {
    RunOne(w, Commit(h));
  }

  // What one call for a request does, and the realm task it talks to.
  predicate OfCall(s: Step, h: nat, g: nat, request: nat) {
    match s
    case Look(caller, id) => caller == h && id == request
    case CheckCompleted(caller) => caller == h
    case Stage(caller, _) => caller == h
    case Send(caller) => caller == h
    case Receive(caller, _) => caller == h
    case Commit(caller) => caller == h
    case Authenticate(task, m) => task == g && m.caller == h
    case Execute(task) => task == g
    case _ => false
  }

  predicate OneCall(steps: seq<Step>, h: nat, g: nat, request: nat) {
    forall i :: 0 <= i < |steps| ==> OfCall(steps[i], h, g, request)
  }

  lemma OneCallGoesOn(a: seq<Step>, b: seq<Step>, h: nat, g: nat, request: nat)
    requires OneCall(a, h, g, request) && OneCall(b, h, g, request)
    ensures OneCall(a + b, h, g, request)
  {
  }

  // A rotation that was cut short anywhere is finished by calling again with the same request id: the first message
  // or, where the realm has already moved, the second is answered.
  lemma RetryFinishes(w: World, h: nat, g: nat, p: Pending) returns (steps: seq<Step>)
    requires Inv(w) && w.staged == Some(p) && p.request !in w.completed && h !in w.callers && g !in w.tasks
    ensures var after := Run(w, steps);
            after.staged.None? && after.active == after.realm == p.credential && p.request in after.completed
    ensures OneCall(steps, h, g, p.request)
  {
    steps := RetryAgrees(w, h, g, p);
    CommitsStaged(Run(w, steps), h, p);
    RunConcat(w, steps, [Commit(h)]);
    OneCallGoesOn(steps, [Commit(h)], h, g, p.request);
    steps := steps + [Commit(h)];
  }

  lemma RetryAgrees(w: World, h: nat, g: nat, p: Pending) returns (steps: seq<Step>)
    requires Inv(w) && w.staged == Some(p) && p.request !in w.completed && h !in w.callers && g !in w.tasks
    ensures var after := Run(w, steps);
            Alike(w, after) && h in after.callers && after.callers[h] == Agreed(p) && after.realm == p.credential
    ensures OneCall(steps, h, g, p.request)
  {
    OpeningResumes(w, h, p);
    StagedFence(w, p);
    var answer := CallAgrees(Moved(w, h, Calling(p, w.active, 0)), h, g, p);
    RunConcat(w, Opening(h, p.request, 0), answer);
    OneCallGoesOn(Opening(h, p.request, 0), answer, h, g, p.request);
    steps := Opening(h, p.request, 0) + answer;
  }

  lemma CallAgrees(w: World, h: nat, g: nat, p: Pending) returns (steps: seq<Step>)
    requires FenceAgrees(w, p) && (w.realm == w.active || w.realm == p.credential) && g !in w.tasks
    requires h in w.callers && w.callers[h] == Calling(p, w.active, 0)
    ensures var after := Run(w, steps);
            Alike(w, after) && h in after.callers && after.callers[h] == Agreed(p) && after.realm == p.credential
    ensures OneCall(steps, h, g, p.request)
  {
    steps := Attempt(h, g, w.active, p);
    if w.realm == w.active {
      AttemptAnswered(w, h, g, w.active, p);
    } else {
      AttemptRefused(w, h, g, p);
      var once := Run(w, steps);
      if once.callers[h].Calling? {
        AttemptAnswered(once, h, g, p.credential, p);
        RunConcat(w, steps, Attempt(h, g, p.credential, p));
        OneCallGoesOn(steps, Attempt(h, g, p.credential, p), h, g, p.request);
        steps := steps + Attempt(h, g, p.credential, p);
      }
    }
  }

  // A call that looked before another call with the same request id staged joins it: it is given what is staged, and
  // completes it.
  lemma LateStagerFinishes(w: World, h: nat, g: nat, p: Pending, credential: nat) returns (steps: seq<Step>)
    requires Inv(w) && w.staged == Some(p) && p.request !in w.completed && g !in w.tasks
    requires h in w.callers && w.callers[h].Unfinished? && w.callers[h].request == p.request && w.callers[h].staged.None?
    ensures var after := Run(w, [Stage(h, credential)] + steps);
            after.staged.None? && after.active == after.realm == p.credential && p.request in after.completed
    ensures OneCall(steps, h, g, p.request)
  {
    var joined := Moved(w, h, Calling(p, w.active, 0));
    RunOne(w, Stage(h, credential));
    assert OnStage(w, h, credential) == joined;
    StagedFence(w, p);
    var answer := CallAgrees(joined, h, g, p);
    CommitsStaged(Run(joined, answer), h, p);
    RunConcat(joined, answer, [Commit(h)]);
    OneCallGoesOn(answer, [Commit(h)], h, g, p.request);
    steps := answer + [Commit(h)];
    RunConcat(w, [Stage(h, credential)], steps);
  }

  // The request has completed, and no call for it is past the check for that.
  predicate Settled(w: World, request: nat) {
    request in w.completed
    && forall h :: h in w.callers ==> !(w.callers[h].Unfinished? && w.callers[h].request == request)
                                      && !(w.callers[h].Calling? && w.callers[h].rotation.request == request)
  }

  lemma StepSettled(w: World, s: Step, request: nat)
    requires Settled(w, request)
    ensures Settled(Next(w, s), request)
    ensures forall m :: m in Next(w, s).network && m.rotation.request == request ==> m in w.network
  {
    if s.Send? {
      assert s.h in w.callers && w.callers[s.h].Calling? ==> w.callers[s.h].rotation.request != request;
    } else {
      NetworkStays(w, s);
      CallersSettled(w, s, request);
    }
  }

  lemma NetworkStays(w: World, s: Step)
    requires !s.Send?
    ensures Next(w, s).network == w.network && w.completed <= Next(w, s).completed
  {
  }

  lemma CallersSettled(w: World, s: Step, request: nat)
    requires Settled(w, request) && !s.Send?
    ensures Settled(Next(w, s), request)
  {
  }

  // A call for a request that has completed never reaches the realm.
  lemma {:induction false} CompletedStaysLocal(w: World, steps: seq<Step>, request: nat)
    requires Settled(w, request)
    ensures Settled(Run(w, steps), request)
    ensures forall m :: m in Run(w, steps).network && m.rotation.request == request ==> m in w.network
    decreases |steps|
  {
    if steps != [] {
      CompletedStaysLocal(w, steps[..|steps| - 1], request);
      StepSettled(Run(w, steps[..|steps| - 1]), steps[|steps| - 1], request);
    }
  }

  // ------------------------------------------------------------ what a retry cannot finish

  // The staged request is one that has already completed.
  predicate Wedged(w: World) {
    w.staged.Some? && w.staged.value.request in w.completed
  }

  lemma StepWedged(w: World, s: Step)
    requires Wedged(w)
    ensures Next(w, s).staged == w.staged && Wedged(Next(w, s))
  {
  }

  lemma {:induction false} WedgedForever(w: World, steps: seq<Step>)
    requires Wedged(w)
    ensures Run(w, steps).staged == w.staged && Wedged(Run(w, steps))
    decreases |steps|
  {
    if steps != [] {
      WedgedForever(w, steps[..|steps| - 1]);
      StepWedged(Run(w, steps[..|steps| - 1]), steps[|steps| - 1]);
    }
  }

  // Exactly the rotations whose request has not completed can be finished; the others stay staged for ever, and
  // while they do no other request can be staged.
  lemma FinishableExactly(w: World)
    requires Inv(w) && w.staged.Some?
    ensures (exists steps :: Run(w, steps).staged.None?) <==> !Wedged(w)
  {
    if Wedged(w) {
      forall steps
        ensures Run(w, steps).staged.Some?
      {
        WedgedForever(w, steps);
      }
    } else {
      var h := NotIn(w.callers.Keys);
      var g := NotIn(w.tasks.Keys);
      var steps := RetryFinishes(w, h, g, w.staged.value);
    }
  }

  // Some number outside a finite set.
  lemma {:induction false} NotIn(s: set<nat>) returns (n: nat)
    ensures n !in s && forall k :: k in s ==> k < n
  {
    if s == {} {
      n := 0;
    } else {
      var k :| k in s;
      n := NotIn(s - {k});
      assert s == (s - {k}) + {k};
      if n <= k {
        n := k + 1;
      }
    }
  }
}
