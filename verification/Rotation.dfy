// Rotating the credential of one realm connection: src/fleet_rpc.rs and src/store/fleet.rs (the control plane),
// src/management_rpc.rs and src/store/management.rs (the realm).
//
// Every datastore call, message and answer is one step. Callers and realm tasks interleave, stall and crash, and a
// message is delivered any number of times or never. Credentials are drawn at random, so a drawn one is new.

module Rotation {
  import opened Numbers

  const FENCE_SECONDS: nat := 86_400

  // A staged rotation: the request and the credential drawn for it.
  datatype Pending = Pending(request: nat, credential: nat)
  datatype Message = Message(caller: nat, bearer: nat, rotation: Pending)
  datatype Fence = Fence(credential: nat, expiresAt: nat)

  // Where a call of rotate_connection is.
  datatype Caller =
    | Looked(request: nat, active: nat, staged: Option<Pending>)
    | Unfinished(request: nat, active: nat, staged: Option<Pending>)
    | Calling(rotation: Pending, active: nat, attempts: nat)
    | Agreed(rotation: Pending)

  datatype World = World(
    now: nat,
    // the control plane
    active: nat, staged: Option<Pending>, completed: set<nat>, callers: map<nat, Caller>,
    network: set<Message>, answered: set<Message>,
    // the realm
    realm: nat, fences: map<nat, Fence>, tasks: map<nat, Message>,
    // what has happened: the credentials the realm has held, and when each rotation was staged
    history: seq<nat>, seen: map<Pending, nat>)

  function Start(): World {
    World(0, 0, None, {}, map[], {}, {}, 0, map[], map[], [0], map[])
  }

  datatype Step =
    | Tick(seconds: nat)
    | Look(h: nat, request: nat)
    | CheckCompleted(h: nat)
    | Stage(h: nat, credential: nat)
    | Send(h: nat)
    | Receive(h: nat, bearer: nat)
    | Commit(h: nat)
    | Abandon(h: nat)
    | Authenticate(g: nat, m: Message)
    | Execute(g: nat)
    | Drop(g: nat)

  function Moved(w: World, h: nat, to: Caller): World {
    w.(callers := w.callers[h := to])
  }

  function Left(w: World, h: nat): World {
    w.(callers := w.callers - {h})
  }

  predicate Fresh(w: World, credential: nat) {
    credential !in w.history
  }

  function OnCheckCompleted(w: World, h: nat): World {
    if h in w.callers && w.callers[h].Looked? then
      var c := w.callers[h];
      if c.request in w.completed then Left(w, h) else Moved(w, h, Unfinished(c.request, c.active, c.staged))
    else w
  }

  // The record read at the start is used when it already stages this request.
  function OnStage(w: World, h: nat, credential: nat): World {
    if h in w.callers && w.callers[h].Unfinished? then
      var c := w.callers[h];
      if c.staged.Some? && c.staged.value.request == c.request then Moved(w, h, Calling(c.staged.value, c.active, 0))
      else if w.staged.Some? then
        if w.staged.value.request == c.request then Moved(w, h, Calling(w.staged.value, w.active, 0)) else Left(w, h)
      else if Fresh(w, credential) then
        var p := Pending(c.request, credential);
        Moved(w, h, Calling(p, w.active, 0)).(staged := Some(p), seen := w.seen[p := w.now])
      else w
    else w
  }

  // First with the active credential, then, whatever became of that, with the staged one.
  function OnSend(w: World, h: nat): World {
    if h in w.callers && w.callers[h].Calling? && w.callers[h].attempts < 2 then
      var c := w.callers[h];
      var bearer := if c.attempts == 0 then c.active else c.rotation.credential;
      Moved(w, h, c.(attempts := c.attempts + 1)).(network := w.network + {Message(h, bearer, c.rotation)})
    else w
  }

  function OnReceive(w: World, h: nat, bearer: nat): World {
    if h in w.callers && w.callers[h].Calling? && Message(h, bearer, w.callers[h].rotation) in w.answered
    then Moved(w, h, Agreed(w.callers[h].rotation)) else w
  }

  function OnCommit(w: World, h: nat): World {
    if h in w.callers && w.callers[h].Agreed? then
      var request := w.callers[h].rotation.request;
      if request in w.completed || w.staged.None? || w.staged.value.request != request then Left(w, h)
      else Left(w, h).(active := w.staged.value.credential, staged := None, completed := w.completed + {request})
    else w
  }

  predicate Fenced(w: World, request: nat) {
    request in w.fences && w.now < w.fences[request].expiresAt
  }

  // The bearer is not looked at again.
  function OnExecute(w: World, g: nat): World {
    if g in w.tasks then
      var m := w.tasks[g];
      var done := w.(tasks := w.tasks - {g});
      if Fenced(w, m.rotation.request) then
        if w.fences[m.rotation.request].credential == m.rotation.credential == w.realm
        then done.(answered := w.answered + {m}) else done
      else
        done.(answered := w.answered + {m}, realm := m.rotation.credential,
              fences := w.fences[m.rotation.request := Fence(m.rotation.credential, w.now + FENCE_SECONDS)],
              history := if w.realm == m.rotation.credential then w.history else w.history + [m.rotation.credential])
    else w
  }

  function Next(w: World, s: Step): World {
    match s
    case Tick(seconds) => w.(now := w.now + seconds)
    case Look(h, request) => if h in w.callers then w else Moved(w, h, Looked(request, w.active, w.staged))
    case CheckCompleted(h) => OnCheckCompleted(w, h)
    case Stage(h, credential) => OnStage(w, h, credential)
    case Send(h) => OnSend(w, h)
    case Receive(h, bearer) => OnReceive(w, h, bearer)
    case Commit(h) => OnCommit(w, h)
    case Abandon(h) => Left(w, h)
    case Authenticate(g, m) =>
      if g !in w.tasks && m in w.network && m.bearer == w.realm then w.(tasks := w.tasks[g := m]) else w
    case Execute(g) => OnExecute(w, g)
    case Drop(g) => w.(tasks := w.tasks - {g})
  }

  function Run(w: World, steps: seq<Step>): World
    decreases |steps|
  {
    if steps == [] then w else Next(Run(w, steps[..|steps| - 1]), steps[|steps| - 1])
  }

  // ------------------------------------------------------------ the invariant

  predicate CarefulTask(w: World, m: Message) {
    m.rotation.credential in w.history && m.rotation.credential != w.realm ==> Fenced(w, m.rotation.request)
  }

  // The realm's fence for a request is still there when a rotation that the realm has since left is executed again.
  predicate Careful(w: World, s: Step) {
    s.Execute? && s.g in w.tasks ==> CarefulTask(w, w.tasks[s.g])
  }

  predicate CarefulRun(w: World, steps: seq<Step>)
    decreases |steps|
  {
    steps != [] ==> CarefulRun(w, steps[..|steps| - 1]) && Careful(Run(w, steps[..|steps| - 1]), steps[|steps| - 1])
  }

  // The control plane holds the credential that the realm accepts.
  predicate NotLockedOut(w: World) {
    if w.staged.None? then w.realm == w.active else w.realm == w.active || w.realm == w.staged.value.credential
  }

  ghost predicate Distinct(s: seq<nat>) {
    forall i, j :: 0 <= i < j < |s| ==> s[i] != s[j]
  }

  ghost predicate RealmOk(active: nat, staged: Option<Pending>, realm: nat, history: seq<nat>) {
    && history != [] && realm == history[|history| - 1] && Distinct(history) && active in history
    && match staged
       case None => realm == active
       case Some(p) => p.credential != active && realm == if p.credential in history then p.credential else active
  }

  ghost predicate SeenOne(staged: Option<Pending>, completed: set<nat>, history: seq<nat>, p: Pending) {
    && (p.credential in history || staged == Some(p))
    && (p.request in completed || staged == Some(p))
  }

  ghost predicate SeenOk(staged: Option<Pending>, completed: set<nat>, history: seq<nat>, seen: map<Pending, nat>) {
    && (staged.Some? ==> staged.value in seen)
    && (forall p :: p in seen ==> SeenOne(staged, completed, history, p))
    && (forall p, q :: p in seen && q in seen && p.credential == q.credential ==> p == q)
  }

  ghost predicate CallerOk(history: seq<nat>, seen: map<Pending, nat>, c: Caller) {
    match c
    case Looked(_, active, staged) => staged.Some? ==> staged.value in seen
    case Unfinished(_, active, staged) => staged.Some? ==> staged.value in seen
    case Calling(rotation, active, attempts) => rotation in seen
    case Agreed(rotation) => rotation in seen && rotation.credential in history
  }

  ghost predicate CallersOk(history: seq<nat>, seen: map<Pending, nat>, callers: map<nat, Caller>) {
    forall h :: h in callers ==> CallerOk(history, seen, callers[h])
  }

  ghost predicate MessagesOk(seen: map<Pending, nat>, network: set<Message>, tasks: map<nat, Message>) {
    && (forall m :: m in network ==> m.rotation in seen)
    && (forall g :: g in tasks ==> tasks[g].rotation in seen)
  }

  ghost predicate AnswersOk(history: seq<nat>, seen: map<Pending, nat>, answered: set<Message>, fences: map<nat, Fence>) {
    && (forall m :: m in answered ==> m.rotation in seen && m.rotation.credential in history)
    && (forall r :: r in fences ==> Pending(r, fences[r].credential) in seen && fences[r].credential in history)
  }

  ghost predicate Inv(w: World) {
    && RealmOk(w.active, w.staged, w.realm, w.history)
    && SeenOk(w.staged, w.completed, w.history, w.seen)
    && CallersOk(w.history, w.seen, w.callers)
    && MessagesOk(w.seen, w.network, w.tasks)
    && AnswersOk(w.history, w.seen, w.answered, w.fences)
  }

  // ------------------------------------------------------------ every careful step keeps it

  // Staging anew: the request has no unfinished rotation, and nothing has been drawn like this credential.
  lemma StagesAnew(w: World, h: nat, p: Pending)
    requires Inv(w) && w.staged.None? && Fresh(w, p.credential)
    ensures Inv(Moved(w, h, Calling(p, w.active, 0)).(staged := Some(p), seen := w.seen[p := w.now]))
  {
    var seen := w.seen[p := w.now];
    forall q | q in w.seen
      ensures SeenOne(Some(p), w.completed, w.history, q)
    {
      assert SeenOne(w.staged, w.completed, w.history, q);
    }
    assert SeenOk(Some(p), w.completed, w.history, seen);
    forall g | g in w.callers
      ensures CallerOk(w.history, seen, w.callers[g])
    {
      assert CallerOk(w.history, w.seen, w.callers[g]);
    }
  }

  lemma Moves(w: World, h: nat, to: Caller)
    requires Inv(w) && CallerOk(w.history, w.seen, to)
    ensures Inv(Moved(w, h, to))
  {
  }

  lemma StepStage(w: World, h: nat, credential: nat)
    requires Inv(w)
    ensures Inv(OnStage(w, h, credential))
  {
    if h in w.callers && w.callers[h].Unfinished? {
      var c := w.callers[h];
      assert CallerOk(w.history, w.seen, c);
      if c.staged.Some? && c.staged.value.request == c.request {
        Moves(w, h, Calling(c.staged.value, c.active, 0));
      } else if w.staged.Some? {
        if w.staged.value.request == c.request {
          Moves(w, h, Calling(w.staged.value, w.active, 0));
        }
      } else if Fresh(w, credential) {
        StagesAnew(w, h, Pending(c.request, credential));
      }
    }
  }

  lemma StepCheckCompleted(w: World, h: nat)
    requires Inv(w)
    ensures Inv(OnCheckCompleted(w, h))
  {
    if h in w.callers && w.callers[h].Looked? {
      assert CallerOk(w.history, w.seen, w.callers[h]);
    }
  }

  lemma StepSend(w: World, h: nat)
    requires Inv(w)
    ensures Inv(OnSend(w, h))
  {
    if h in w.callers && w.callers[h].Calling? && w.callers[h].attempts < 2 {
      assert CallerOk(w.history, w.seen, w.callers[h]);
    }
  }

  lemma StepReceive(w: World, h: nat, bearer: nat)
    requires Inv(w)
    ensures Inv(OnReceive(w, h, bearer))
  {
  }

  // A commit is about the credential that was agreed, and the realm holds it.
  lemma StepCommit(w: World, h: nat)
    requires Inv(w)
    ensures Inv(OnCommit(w, h))
  {
    if h in w.callers && w.callers[h].Agreed? {
      var p := w.callers[h].rotation;
      assert CallerOk(w.history, w.seen, w.callers[h]);
      assert SeenOne(w.staged, w.completed, w.history, p);
      if p.request !in w.completed {
        assert w.staged == Some(p);
        forall q | q in w.seen
          ensures SeenOne(None, w.completed + {p.request}, w.history, q)
        {
          assert SeenOne(w.staged, w.completed, w.history, q);
        }
      }
    }
  }

  // The realm takes up a credential it has not held: it can only be the staged one.
  lemma Adopts(w: World, p: Pending)
    requires Inv(w) && p in w.seen && p.credential !in w.history
    ensures RealmOk(w.active, w.staged, p.credential, w.history + [p.credential])
    ensures SeenOk(w.staged, w.completed, w.history + [p.credential], w.seen)
    ensures CallersOk(w.history + [p.credential], w.seen, w.callers)
  {
    var history := w.history + [p.credential];
    assert SeenOne(w.staged, w.completed, w.history, p);
    forall q | q in w.seen
      ensures SeenOne(w.staged, w.completed, history, q)
    {
      assert SeenOne(w.staged, w.completed, w.history, q);
    }
    forall g | g in w.callers
      ensures CallerOk(history, w.seen, w.callers[g])
    {
      assert CallerOk(w.history, w.seen, w.callers[g]);
    }
  }

  lemma AnswersGrow(w: World, m: Message, history: seq<nat>, expiresAt: nat)
    requires AnswersOk(w.history, w.seen, w.answered, w.fences) && m.rotation in w.seen
    requires history == w.history || history == w.history + [m.rotation.credential]
    requires m.rotation.credential in history
    ensures AnswersOk(history, w.seen, w.answered + {m},
                      w.fences[m.rotation.request := Fence(m.rotation.credential, expiresAt)])
  {
    assert m.rotation == Pending(m.rotation.request, m.rotation.credential);
    assert forall c :: c in w.history ==> c in history;
  }

  lemma StepExecute(w: World, g: nat)
    requires Inv(w) && Careful(w, Execute(g))
    ensures Inv(OnExecute(w, g))
  {
    if g in w.tasks && !Fenced(w, w.tasks[g].rotation.request) {
      var m := w.tasks[g];
      if m.rotation.credential in w.history {
        AnswersGrow(w, m, w.history, w.now + FENCE_SECONDS);
      } else {
        Adopts(w, m.rotation);
        AnswersGrow(w, m, w.history + [m.rotation.credential], w.now + FENCE_SECONDS);
      }
    }
  }

  lemma StepKeeps(w: World, s: Step)
    requires Inv(w) && Careful(w, s)
    ensures Inv(Next(w, s))
  {
    match s
    case Stage(h, credential) => StepStage(w, h, credential);
    case Send(h) => StepSend(w, h);
    case Receive(h, bearer) => StepReceive(w, h, bearer);
    case Commit(h) => StepCommit(w, h);
    case Execute(g) => StepExecute(w, g);
    case Look(h, request) => Moves(w, h, Looked(request, w.active, w.staged));
    case CheckCompleted(h) => StepCheckCompleted(w, h);
    case _ =>
  }

  lemma {:induction false} Invariant(steps: seq<Step>)
    requires CarefulRun(Start(), steps)
    ensures Inv(Run(Start(), steps))
  {
    if steps != [] {
      Invariant(steps[..|steps| - 1]);
      StepKeeps(Run(Start(), steps[..|steps| - 1]), steps[|steps| - 1]);
    }
  }

  // ------------------------------------------------------------ careful by the clock

  function StagedAt(w: World, p: Pending): nat {
    if p in w.seen then w.seen[p] else 0
  }

  // A rotation is executed less than that long after it was staged.
  predicate Prompt(w: World, s: Step, life: nat) {
    s.Execute? && s.g in w.tasks ==> w.now < StagedAt(w, w.tasks[s.g].rotation) + life
  }

  predicate PromptRun(w: World, steps: seq<Step>, life: nat)
    decreases |steps|
  {
    steps != [] ==>
      PromptRun(w, steps[..|steps| - 1], life) && Prompt(Run(w, steps[..|steps| - 1]), steps[|steps| - 1], life)
  }

  // The fence of a rotation that the realm has taken up outlives its staging by the full retention.
  ghost predicate FenceOutlives(now: nat, fences: map<nat, Fence>, history: seq<nat>, p: Pending, at: nat) {
    && at <= now
    && (p.credential in history ==> p.request in fences && at + FENCE_SECONDS <= fences[p.request].expiresAt)
  }

  ghost predicate Timely(w: World) {
    forall p :: p in w.seen ==> FenceOutlives(w.now, w.fences, w.history, p, w.seen[p])
  }

  lemma StageTimely(w: World, h: nat, credential: nat)
    requires Timely(w)
    ensures Timely(OnStage(w, h, credential))
  {
    var after := OnStage(w, h, credential);
    forall p | p in after.seen
      ensures FenceOutlives(after.now, after.fences, after.history, p, after.seen[p])
    {
      assert p in w.seen ==> FenceOutlives(w.now, w.fences, w.history, p, w.seen[p]);
    }
  }

  lemma ExecuteTimely(w: World, g: nat)
    requires Timely(w) && SeenOk(w.staged, w.completed, w.history, w.seen) && MessagesOk(w.seen, w.network, w.tasks)
    ensures Timely(OnExecute(w, g))
  {
    if g in w.tasks && !Fenced(w, w.tasks[g].rotation.request) {
      var q, after := w.tasks[g].rotation, OnExecute(w, g);
      forall p | p in w.seen
        ensures FenceOutlives(after.now, after.fences, after.history, p, w.seen[p])
      {
        assert FenceOutlives(w.now, w.fences, w.history, p, w.seen[p]);
        assert p.credential in after.history ==> p.credential in w.history || p == q;
      }
    }
  }

  lemma StepTimely(w: World, s: Step)
    requires Inv(w) && Timely(w)
    ensures Timely(Next(w, s))
  {
    match s
    case Stage(h, credential) => StageTimely(w, h, credential);
    case Execute(g) => ExecuteTimely(w, g);
    case Tick(seconds) =>
      forall p | p in w.seen
        ensures FenceOutlives(w.now + seconds, w.fences, w.history, p, w.seen[p])
      {
        assert FenceOutlives(w.now, w.fences, w.history, p, w.seen[p]);
      }
    case _ => KeepsSeen(w, s);
  }

  lemma KeepsSeen(w: World, s: Step)
    requires !s.Stage? && !s.Execute? && !s.Tick?
    ensures var after := Next(w, s);
            after.now == w.now && after.seen == w.seen && after.history == w.history && after.fences == w.fences
  {
  }

  lemma PromptIsCareful(w: World, s: Step, life: nat)
    requires Inv(w) && Timely(w) && Prompt(w, s, life) && life <= FENCE_SECONDS
    ensures Careful(w, s)
  {
    if s.Execute? && s.g in w.tasks {
      var p := w.tasks[s.g].rotation;
      assert FenceOutlives(w.now, w.fences, w.history, p, w.seen[p]);
    }
  }

  lemma {:induction false} PromptRunIsCareful(steps: seq<Step>, life: nat)
    requires PromptRun(Start(), steps, life) && life <= FENCE_SECONDS
    ensures CarefulRun(Start(), steps) && Inv(Run(Start(), steps)) && Timely(Run(Start(), steps))
  {
    if steps != [] {
      var before, s := steps[..|steps| - 1], steps[|steps| - 1];
      PromptRunIsCareful(before, life);
      PromptIsCareful(Run(Start(), before), s, life);
      StepKeeps(Run(Start(), before), s);
      StepTimely(Run(Start(), before), s);
    }
  }

  lemma ClockRuns(w: World, s: Step)
    ensures w.now <= Next(w, s).now
  {
  }

  // Nothing is late in a run that is over before anything could be.
  lemma {:induction false} PromptWhileYoung(w: World, steps: seq<Step>, life: nat)
    requires Run(w, steps).now < life
    ensures PromptRun(w, steps, life)
    decreases |steps|
  {
    if steps != [] {
      ClockRuns(Run(w, steps[..|steps| - 1]), steps[|steps| - 1]);
      PromptWhileYoung(w, steps[..|steps| - 1], life);
    }
  }

  // ------------------------------------------------------------ what holds of every run

  // Whatever is lost, repeated, late or cut short, the control plane holds the credential the realm accepts; and
  // when nothing is staged, that is the active one. Nor does the realm return to a credential it has given up.
  lemma NeverLockedOut(steps: seq<Step>, life: nat)
    requires PromptRun(Start(), steps, life) && life <= FENCE_SECONDS
    ensures NotLockedOut(Run(Start(), steps)) && Distinct(Run(Start(), steps).history)
  {
    PromptRunIsCareful(steps, life);
  }

  lemma HistoryGrows(w: World, s: Step)
    ensures w.history <= Next(w, s).history
  {
  }

  lemma {:induction false} DistinctIsCareful(steps: seq<Step>)
    requires Distinct(Run(Start(), steps).history)
    ensures CarefulRun(Start(), steps)
  {
    if steps != [] {
      var before, s := steps[..|steps| - 1], steps[|steps| - 1];
      var w := Run(Start(), before);
      HistoryGrows(w, s);
      DistinctIsCareful(before);
      if !Careful(w, s) {
        Invariant(before);
        GoesBack(w, s.g);
        assert false;
      }
    }
  }

  lemma GoesBack(w: World, g: nat)
    requires Inv(w) && !Careful(w, Execute(g))
    ensures !Distinct(Next(w, Execute(g)).history)
  {
    var c := w.tasks[g].rotation.credential;
    var i :| 0 <= i < |w.history| && w.history[i] == c;
    var history := Next(w, Execute(g)).history;
    assert history[i] == history[|w.history|];
  }

  // Nothing is let in, and nothing answered, that does not carry a credential the realm has held.
  ghost predicate BearersHeld(w: World) {
    && w.realm in w.history && (forall g :: g in w.tasks ==> w.tasks[g].bearer in w.history)
    && forall m :: m in w.answered ==> m.bearer in w.history
  }

  lemma StepBearers(w: World, s: Step)
    requires BearersHeld(w)
    ensures BearersHeld(Next(w, s))
  {
    HistoryGrows(w, s);
    var before, after := w.history, Next(w, s).history;
    forall c | c in before
      ensures c in after
    {
      var i :| 0 <= i < |before| && before[i] == c;
      assert after[i] == c;
    }
    if s.Execute? {
      ExecuteBearers(w, s.g);
    } else if s.Stage? {
      StageTouchesNoTask(w, s.h, s.credential);
    } else if s.Commit? {
      CommitTouchesNoTask(w, s.h);
    } else if !s.Authenticate? && !s.Drop? {
      CallersTouchNoTask(w, s);
    }
  }

  lemma ExecuteBearers(w: World, g: nat)
    requires BearersHeld(w)
    ensures var after := OnExecute(w, g);
            && after.realm in after.history && (forall t :: t in after.tasks ==> t in w.tasks && after.tasks[t] == w.tasks[t])
            && forall m :: m in after.answered ==> m in w.answered || (g in w.tasks && m == w.tasks[g])
  {
  }

  predicate SameRealm(w: World, after: World) {
    after.realm == w.realm && after.history == w.history && after.answered == w.answered && after.tasks == w.tasks
  }

  lemma StageTouchesNoTask(w: World, h: nat, credential: nat)
    ensures SameRealm(w, OnStage(w, h, credential))
  {
  }

  lemma CommitTouchesNoTask(w: World, h: nat)
    ensures SameRealm(w, OnCommit(w, h))
  {
  }

  lemma CallersTouchNoTask(w: World, s: Step)
    requires !s.Execute? && !s.Authenticate? && !s.Drop? && !s.Stage? && !s.Commit?
    ensures SameRealm(w, Next(w, s))
  {
  }

  lemma {:induction false} BearersWereHeld(steps: seq<Step>)
    ensures BearersHeld(Run(Start(), steps))
  {
    if steps != [] {
      BearersWereHeld(steps[..|steps| - 1]);
      StepBearers(Run(Start(), steps[..|steps| - 1]), steps[|steps| - 1]);
    }
  }

  // No call sends more than twice.
  predicate SentTwiceAtMost(w: World) {
    forall h :: h in w.callers && w.callers[h].Calling? ==> w.callers[h].attempts <= 2
  }

  lemma StepSends(w: World, s: Step)
    requires SentTwiceAtMost(w)
    ensures SentTwiceAtMost(Next(w, s))
  {
  }

  lemma {:induction false} NeverSendsThrice(steps: seq<Step>)
    ensures SentTwiceAtMost(Run(Start(), steps))
  {
    if steps != [] {
      NeverSendsThrice(steps[..|steps| - 1]);
      StepSends(Run(Start(), steps[..|steps| - 1]), steps[|steps| - 1]);
    }
  }

  // A call goes on only on an answer to a message of its own.
  ghost predicate OwnAnswer(w: World, h: nat, p: Pending) {
    exists bearer :: Message(h, bearer, p) in w.answered
  }

  ghost predicate AgreedByAnswer(w: World) {
    forall h :: h in w.callers && w.callers[h].Agreed? ==> OwnAnswer(w, h, w.callers[h].rotation)
  }

  lemma AnswersStay(w: World, s: Step, m: Message)
    requires m in w.answered
    ensures m in Next(w, s).answered
  {
  }

  ghost predicate AgreedKept(w: World, after: World) {
    forall h :: h in after.callers && after.callers[h].Agreed? ==> h in w.callers && w.callers[h] == after.callers[h]
  }

  lemma StageAgreesNobody(w: World, h: nat, credential: nat)
    ensures AgreedKept(w, OnStage(w, h, credential))
  {
  }

  lemma CommitAgreesNobody(w: World, h: nat)
    ensures AgreedKept(w, OnCommit(w, h))
  {
  }

  lemma AgreesOnlyByReceiving(w: World, s: Step)
    requires !s.Receive? && !s.Stage? && !s.Commit?
    ensures AgreedKept(w, Next(w, s))
  {
  }

  lemma StepAgreed(w: World, s: Step)
    requires AgreedByAnswer(w)
    ensures AgreedByAnswer(Next(w, s))
  {
    var after := Next(w, s);
    if s.Stage? {
      StageAgreesNobody(w, s.h, s.credential);
    } else if s.Commit? {
      CommitAgreesNobody(w, s.h);
    } else if !s.Receive? {
      AgreesOnlyByReceiving(w, s);
    }
    forall h | h in after.callers && after.callers[h].Agreed?
      ensures OwnAnswer(after, h, after.callers[h].rotation)
    {
      if s.Receive? && h == s.h && !(h in w.callers && w.callers[h].Agreed?) {
        assert Message(h, s.bearer, after.callers[h].rotation) in after.answered;
      } else {
        var bearer :| Message(h, bearer, w.callers[h].rotation) in w.answered;
        AnswersStay(w, s, Message(h, bearer, w.callers[h].rotation));
      }
    }
  }

  lemma {:induction false} AgreesOnItsOwnAnswer(steps: seq<Step>)
    ensures AgreedByAnswer(Run(Start(), steps))
  {
    if steps != [] {
      AgreesOnItsOwnAnswer(steps[..|steps| - 1]);
      StepAgreed(Run(Start(), steps[..|steps| - 1]), steps[|steps| - 1]);
    }
  }

  // Whoever is answered is told the truth: at that moment the realm holds the credential of the message.
  lemma AnswerMeansHeld(w: World, s: Step, m: Message)
    requires m !in w.answered && m in Next(w, s).answered
    ensures Next(w, s).realm == m.rotation.credential
  {
  }

  // Executing a task locks the control plane out exactly when its request is not fenced any more and its credential
  // is neither the active nor the staged one.
  lemma LocksOutExactly(w: World, g: nat)
    requires Inv(w) && g in w.tasks
    ensures var p := w.tasks[g].rotation;
            NotLockedOut(Next(w, Execute(g)))
            <==> Fenced(w, p.request) || p.credential == w.active
                 || (w.staged.Some? && p.credential == w.staged.value.credential)
  {
  }
}
