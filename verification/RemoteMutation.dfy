// Remote mutations: src/management_rpc.rs (the handler) and src/store/remote_mutations.rs (the replay ledger).
//
// Each datastore call of a handler is one step, and any number of handlers interleave, stall and crash.
// The digest is taken as injective, so a receipt holds the operation itself. Times are seconds.

module RemoteMutation {
  import opened Numbers

  const RETENTION: nat := 86_400
  const MAX_EXPIRY: nat := 300
  const FAILED := "remote mutation failed before completion"
  const UNAUDITED := "remote mutation applied but correlated local audit failed"

  // Everything the digest covers.
  datatype Operation = Operation(connection: nat, kind: int, target: string, secondary: string, enabled: bool,
                                 reason: string, expiresAt: nat)
  datatype Completion = Completion(at: nat, succeeded: bool, summary: string)
  datatype Receipt = Receipt(operation: Operation, completion: Option<Completion>, expiresAt: nat)

  // Where a handler is: each name is what it has just done.
  datatype Handler =
    | Validated(id: nat, op: Operation, validatedAt: nat)
    | Contended(id: nat, op: Operation)
    | Claimed(id: nat, op: Operation)
    | Applied(id: nat, op: Operation, summary: string)
    | Failing(id: nat, op: Operation, summary: string)
    | Audited(id: nat, op: Operation, summary: string)
    | Completing(id: nat, op: Operation, receipt: Receipt, completion: Completion)

  predicate PastClaim(h: Handler) {
    !h.Validated? && !h.Contended?
  }

  datatype Event =
    | Claim(id: nat, op: Operation, at: nat)
    | Effect(id: nat, op: Operation)
    | Audit(id: nat, op: Operation)
    | Complete(id: nat, op: Operation, completion: Completion)
    | Reply(id: nat, op: Operation, replayed: bool, completion: Completion)

  // The ledger is the durable state; the trace is what has happened so far.
  datatype World = World(now: nat, ledger: map<nat, Receipt>, handlers: map<nat, Handler>, trace: seq<Event>)

  datatype Outcome = Success(summary: string) | Failure(effectHappened: bool)

  datatype Step =
    | Tick(seconds: nat)
    | Arrive(h: nat, id: nat, op: Operation)
    | SetIfAbsent(h: nat)
    | ReadExisting(h: nat)
    | Apply(h: nat, outcome: Outcome)
    | AppendAudit(h: nat, succeeded: bool, written: bool)
    | ReadReceipt(h: nat)
    | WriteReceipt(h: nat, acknowledged: bool)
    | Crash(h: nat)

  predicate Live(w: World, id: nat) {
    id in w.ledger && w.now < w.ledger[id].expiresAt
  }

  function Gone(w: World, h: nat): World {
    w.(handlers := w.handlers - {h})
  }

  function Move(w: World, h: nat, to: Handler): World {
    w.(handlers := w.handlers[h := to])
  }

  function Log(w: World, e: Event): World {
    w.(trace := w.trace + [e])
  }

  function OnArrive(w: World, h: nat, id: nat, op: Operation): World {
    if h !in w.handlers && w.now < op.expiresAt <= w.now + MAX_EXPIRY then Move(w, h, Validated(id, op, w.now)) else w
  }

  // SET NX EX
  function OnSetIfAbsent(w: World, h: nat, stall: nat): World {
    if h in w.handlers && w.handlers[h].Validated? && w.now <= w.handlers[h].validatedAt + stall then
      var v := w.handlers[h];
      if Live(w, v.id) then Move(w, h, Contended(v.id, v.op))
      else Log(Move(w, h, Claimed(v.id, v.op)).(ledger := w.ledger[v.id := Receipt(v.op, None, w.now + RETENTION)]),
               Claim(v.id, v.op, w.now))
    else w
  }

  function OnReadExisting(w: World, h: nat): World {
    if h in w.handlers && w.handlers[h].Contended? then
      var v := w.handlers[h];
      if Live(w, v.id) && w.ledger[v.id].operation == v.op && w.ledger[v.id].completion.Some?
         && w.ledger[v.id].completion.value.succeeded
      then Log(Gone(w, h), Reply(v.id, v.op, true, w.ledger[v.id].completion.value))
      else Gone(w, h)
    else w
  }

  function OnApply(w: World, h: nat, outcome: Outcome): World {
    if h in w.handlers && w.handlers[h].Claimed? then
      var v := w.handlers[h];
      match outcome
      case Success(summary) => Log(Move(w, h, Applied(v.id, v.op, summary)), Effect(v.id, v.op))
      case Failure(effectHappened) =>
        var failed := Move(w, h, Failing(v.id, v.op, FAILED));
        if effectHappened then Log(failed, Effect(v.id, v.op)) else failed
    else w
  }

  function OnAudit(w: World, h: nat, succeeded: bool, written: bool): World {
    if h in w.handlers && w.handlers[h].Applied? then
      var v := w.handlers[h];
      if succeeded then Log(Move(w, h, Audited(v.id, v.op, v.summary)), Audit(v.id, v.op))
      else
        var failed := Move(w, h, Failing(v.id, v.op, UNAUDITED));
        if written then Log(failed, Audit(v.id, v.op)) else failed
    else w
  }

  // The read half of completing: a handler that failed completes with `succeeded` false.
  function OnReadReceipt(w: World, h: nat): World {
    if h in w.handlers && (w.handlers[h].Audited? || w.handlers[h].Failing?) then
      var v := w.handlers[h];
      if !Live(w, v.id) || w.ledger[v.id].operation != v.op then Gone(w, h)
      else if w.ledger[v.id].completion.Some? then
        if v.Audited?
        then Log(Gone(w, h), Reply(v.id, v.op, false, Completion(w.ledger[v.id].completion.value.at, true, v.summary)))
        else Gone(w, h)
      else Move(w, h, Completing(v.id, v.op, w.ledger[v.id], Completion(w.now, v.Audited?, v.summary)))
    else w
  }

  // The write half: SET XX EX with the receipt read before.
  function OnWriteReceipt(w: World, h: nat, acknowledged: bool): World {
    if h in w.handlers && w.handlers[h].Completing? then
      var v := w.handlers[h];
      if !Live(w, v.id) then Gone(w, h)
      else
        var done := v.receipt.(completion := Some(v.completion), expiresAt := w.now + RETENTION);
        var written := Log(Gone(w, h).(ledger := w.ledger[v.id := done]), Complete(v.id, v.op, v.completion));
        if acknowledged && v.completion.succeeded then Log(written, Reply(v.id, v.op, false, v.completion)) else written
    else w
  }

  // `stall` bounds the time from checking the expiry of a request to claiming its id.
  function Next(w: World, s: Step, stall: nat): World {
    match s
    case Tick(seconds) => w.(now := w.now + seconds)
    case Arrive(h, id, op) => OnArrive(w, h, id, op)
    case SetIfAbsent(h) => OnSetIfAbsent(w, h, stall)
    case ReadExisting(h) => OnReadExisting(w, h)
    case Apply(h, outcome) => OnApply(w, h, outcome)
    case AppendAudit(h, succeeded, written) => OnAudit(w, h, succeeded, written)
    case ReadReceipt(h) => OnReadReceipt(w, h)
    case WriteReceipt(h, acknowledged) => OnWriteReceipt(w, h, acknowledged)
    case Crash(h) => Gone(w, h)
  }

  function Run(steps: seq<Step>, stall: nat): World {
    if steps == [] then World(0, map[], map[], []) else Next(Run(steps[..|steps| - 1], stall), steps[|steps| - 1], stall)
  }

  // ------------------------------------------------------------ the invariant

  ghost predicate Claims(trace: seq<Event>, id: nat, op: Operation) {
    exists i :: 0 <= i < |trace| && trace[i].Claim? && trace[i].id == id && trace[i].op == op
  }

  ghost predicate Completes(trace: seq<Event>, id: nat, op: Operation) {
    exists i :: 0 <= i < |trace| && trace[i].Complete? && trace[i].id == id && trace[i].op == op
  }

  // Claims, effects, audits and completions happen once for each request id and operation.
  predicate SameOnce(a: Event, b: Event) {
    a.id == b.id && a.op == b.op
    && ((a.Claim? && b.Claim?) || (a.Effect? && b.Effect?) || (a.Audit? && b.Audit?) || (a.Complete? && b.Complete?))
  }

  ghost predicate Once(trace: seq<Event>) {
    forall i, j :: 0 <= i < j < |trace| ==> !SameOnce(trace[i], trace[j])
  }

  ghost predicate ClaimsApart(trace: seq<Event>) {
    forall i, j :: 0 <= i < j < |trace| && trace[i].Claim? && trace[j].Claim? && trace[i].id == trace[j].id ==>
      trace[i].at + RETENTION <= trace[j].at
  }

  // What must already have happened when an event happens.
  ghost predicate Justified(e: Event, before: seq<Event>) {
    match e
    case Claim(_, _, _) => true
    case Effect(id, op) => Claims(before, id, op)
    case Audit(id, op) => Effect(id, op) in before
    case Complete(id, op, c) => Claims(before, id, op) && (c.succeeded ==> Audit(id, op) in before)
    case Reply(id, op, _, c) => c.succeeded && Complete(id, op, c) in before
  }

  ghost predicate AllJustified(trace: seq<Event>) {
    forall k :: 0 <= k < |trace| ==> Justified(trace[k], trace[..k])
  }

  ghost predicate HandlerOk(trace: seq<Event>, now: nat, h: Handler) {
    && (PastClaim(h) ==> Claims(trace, h.id, h.op) && !Completes(trace, h.id, h.op))
    && match h
       case Validated(_, op, at) => at <= now && at < op.expiresAt <= at + MAX_EXPIRY
       case Claimed(id, op) => Effect(id, op) !in trace && Audit(id, op) !in trace
       case Applied(id, op, _) => Effect(id, op) in trace && Audit(id, op) !in trace
       case Audited(id, op, _) => Audit(id, op) in trace
       case Completing(id, op, r, c) =>
         r.operation == op && r.completion.None? && (c.succeeded ==> Audit(id, op) in trace)
       case _ => true
  }

  ghost predicate Apart(g: Handler, h: Handler) {
    PastClaim(g) && PastClaim(h) ==> g.id != h.id || g.op != h.op
  }

  ghost predicate HandlersOk(trace: seq<Event>, now: nat, handlers: map<nat, Handler>) {
    && (forall h :: h in handlers ==> HandlerOk(trace, now, handlers[h]))
    && (forall g, h :: g in handlers && h in handlers && g != h ==> Apart(handlers[g], handlers[h]))
  }

  ghost predicate ClaimOk(c: Event, now: nat, ledger: map<nat, Receipt>) {
    c.Claim? ==> c.at <= now && c.op.expiresAt <= c.at + MAX_EXPIRY
                 && c.id in ledger && ledger[c.id].expiresAt >= c.at + RETENTION
  }

  ghost predicate ReceiptOk(trace: seq<Event>, id: nat, r: Receipt) {
    r.completion.Some? ==> Complete(id, r.operation, r.completion.value) in trace
  }

  ghost predicate LedgerOk(trace: seq<Event>, now: nat, ledger: map<nat, Receipt>) {
    && (forall i :: 0 <= i < |trace| ==> ClaimOk(trace[i], now, ledger))
    && (forall id :: id in ledger ==> ReceiptOk(trace, id, ledger[id]))
  }

  ghost predicate TraceOk(trace: seq<Event>) {
    Once(trace) && ClaimsApart(trace) && AllJustified(trace)
  }

  ghost predicate Inv(w: World) {
    TraceOk(w.trace) && HandlersOk(w.trace, w.now, w.handlers) && LedgerOk(w.trace, w.now, w.ledger)
  }

  // ------------------------------------------------------------ one more event

  lemma LogKeeps(trace: seq<Event>, e: Event)
    ensures forall id, op :: Claims(trace + [e], id, op) <==> Claims(trace, id, op) || (e.Claim? && e.id == id && e.op == op)
    ensures forall id, op :: Completes(trace + [e], id, op)
                        <==> Completes(trace, id, op) || (e.Complete? && e.id == id && e.op == op)
    ensures forall x :: x in trace + [e] <==> x in trace || x == e
  {
    var longer := trace + [e];
    assert forall i :: 0 <= i < |trace| ==> longer[i] == trace[i];
    assert longer[|trace|] == e;
  }

  ghost predicate New(e: Event, trace: seq<Event>) {
    match e
    case Claim(id, op, at) =>
      && !Claims(trace, id, op)
      && forall i :: 0 <= i < |trace| && trace[i].Claim? && trace[i].id == id ==> trace[i].at + RETENTION <= at
    case Effect(id, op) => e !in trace
    case Audit(id, op) => e !in trace
    case Complete(id, op, _) => !Completes(trace, id, op)
    case _ => true
  }

  lemma TraceGrows(trace: seq<Event>, e: Event)
    requires TraceOk(trace) && New(e, trace) && Justified(e, trace)
    ensures TraceOk(trace + [e])
  {
    var longer := trace + [e];
    forall k | 0 <= k < |longer|
      ensures Justified(longer[k], longer[..k])
    {
      assert longer[..k] == trace[..k];
      assert k == |trace| ==> trace[..k] == trace;
    }
    forall i | 0 <= i < |trace|
      ensures !SameOnce(trace[i], e)
    {
      assert trace[i] in trace;
    }
  }

  // A handler whose request the event does not concern stays as it was.
  ghost predicate Undisturbed(h: Handler, e: Event) {
    PastClaim(h) && (e.Effect? || e.Audit? || e.Complete?) ==> h.id != e.id || h.op != e.op
  }

  lemma HandlersGrow(trace: seq<Event>, now: nat, handlers: map<nat, Handler>, e: Event)
    requires HandlersOk(trace, now, handlers)
    requires forall g :: g in handlers ==> Undisturbed(handlers[g], e)
    ensures HandlersOk(trace + [e], now, handlers)
  {
    LogKeeps(trace, e);
    forall g | g in handlers
      ensures HandlerOk(trace + [e], now, handlers[g])
    {
      assert HandlerOk(trace, now, handlers[g]) && Undisturbed(handlers[g], e);
    }
  }

  lemma HandlersMove(trace: seq<Event>, now: nat, handlers: map<nat, Handler>, h: nat, to: Handler)
    requires HandlersOk(trace, now, handlers) && HandlerOk(trace, now, to)
    requires forall g :: g in handlers && g != h ==> Apart(handlers[g], to)
    ensures HandlersOk(trace, now, handlers[h := to])
  {
  }

  lemma LedgerGrows(trace: seq<Event>, now: nat, ledger: map<nat, Receipt>, e: Event)
    requires LedgerOk(trace, now, ledger) && ClaimOk(e, now, ledger)
    ensures LedgerOk(trace + [e], now, ledger)
  {
    LogKeeps(trace, e);
    forall id | id in ledger
      ensures ReceiptOk(trace + [e], id, ledger[id])
    {
      assert ReceiptOk(trace, id, ledger[id]);
    }
  }

  lemma LedgerWrites(trace: seq<Event>, now: nat, ledger: map<nat, Receipt>, id: nat, r: Receipt)
    requires LedgerOk(trace, now, ledger) && ReceiptOk(trace, id, r) && r.expiresAt == now + RETENTION
    ensures LedgerOk(trace, now, ledger[id := r])
  {
    forall i | 0 <= i < |trace|
      ensures ClaimOk(trace[i], now, ledger[id := r])
    {
      assert ClaimOk(trace[i], now, ledger);
    }
  }

  lemma Others(w: World, h: nat)
    requires HandlersOk(w.trace, w.now, w.handlers)
    ensures HandlersOk(w.trace, w.now, w.handlers - {h})
    ensures h in w.handlers ==> forall g :: g in w.handlers - {h} ==> Apart((w.handlers - {h})[g], w.handlers[h])
  {
  }

  // ------------------------------------------------------------ every step keeps the invariant

  lemma ClaimIsNew(w: World, h: nat, stall: nat)
    requires Inv(w) && stall + MAX_EXPIRY <= RETENTION
    requires h in w.handlers && w.handlers[h].Validated? && w.now <= w.handlers[h].validatedAt + stall
    requires !Live(w, w.handlers[h].id)
    ensures New(Claim(w.handlers[h].id, w.handlers[h].op, w.now), w.trace)
  {
    var v := w.handlers[h];
    assert HandlerOk(w.trace, w.now, v);
    forall i | 0 <= i < |w.trace| && w.trace[i].Claim? && w.trace[i].id == v.id
      ensures w.trace[i].at + RETENTION <= w.now && w.trace[i].op != v.op
    {
      assert ClaimOk(w.trace[i], w.now, w.ledger);
    }
  }

  lemma NothingWithoutClaim(trace: seq<Event>, id: nat, op: Operation)
    requires AllJustified(trace) && !Claims(trace, id, op)
    ensures !Completes(trace, id, op) && Effect(id, op) !in trace && Audit(id, op) !in trace
  {
    forall k | 0 <= k < |trace| && (trace[k].Complete? || trace[k].Effect?)
      ensures trace[k].id != id || trace[k].op != op
    {
      assert Justified(trace[k], trace[..k]);
      assert forall i :: 0 <= i < k ==> trace[..k][i] == trace[i];
    }
    forall k | 0 <= k < |trace| && trace[k].Audit?
      ensures trace[k].id != id || trace[k].op != op
    {
      assert Justified(trace[k], trace[..k]);
      assert forall e :: e in trace[..k] ==> e in trace;
    }
  }

  lemma StepSetIfAbsent(w: World, h: nat, stall: nat)
    requires Inv(w) && stall + MAX_EXPIRY <= RETENTION
    ensures Inv(OnSetIfAbsent(w, h, stall))
  {
    if h in w.handlers && w.handlers[h].Validated? && w.now <= w.handlers[h].validatedAt + stall {
      var v := w.handlers[h];
      if Live(w, v.id) {
        HandlersMove(w.trace, w.now, w.handlers, h, Contended(v.id, v.op));
      } else {
        var e, to := Claim(v.id, v.op, w.now), Claimed(v.id, v.op);
        ClaimIsNew(w, h, stall);
        NothingWithoutClaim(w.trace, v.id, v.op);
        TraceGrows(w.trace, e);
        LogKeeps(w.trace, e);
        HandlersGrow(w.trace, w.now, w.handlers, e);
        forall g | g in w.handlers && g != h
          ensures Apart(w.handlers[g], to)
        {
          assert HandlerOk(w.trace, w.now, w.handlers[g]);
        }
        HandlersMove(w.trace + [e], w.now, w.handlers, h, to);
        assert HandlerOk(w.trace, w.now, v);
        LedgerWrites(w.trace, w.now, w.ledger, v.id, Receipt(v.op, None, w.now + RETENTION));
        LedgerGrows(w.trace, w.now, w.ledger[v.id := Receipt(v.op, None, w.now + RETENTION)], e);
      }
    }
  }

  lemma Replies(w: World, e: Event)
    requires Inv(w) && e.Reply? && Justified(e, w.trace)
    ensures Inv(Log(w, e))
  {
    TraceGrows(w.trace, e);
    HandlersGrow(w.trace, w.now, w.handlers, e);
    LedgerGrows(w.trace, w.now, w.ledger, e);
  }

  lemma StepReadExisting(w: World, h: nat)
    requires Inv(w)
    ensures Inv(OnReadExisting(w, h))
  {
    Others(w, h);
    if h in w.handlers && w.handlers[h].Contended? {
      var v := w.handlers[h];
      if Live(w, v.id) && w.ledger[v.id].operation == v.op && w.ledger[v.id].completion.Some?
         && w.ledger[v.id].completion.value.succeeded {
        assert ReceiptOk(w.trace, v.id, w.ledger[v.id]);
        Replies(Gone(w, h), Reply(v.id, v.op, true, w.ledger[v.id].completion.value));
      }
    }
  }

  lemma HandlersMoveOn(trace: seq<Event>, now: nat, handlers: map<nat, Handler>, h: nat, to: Handler, e: Event)
    requires HandlersOk(trace, now, handlers) && h in handlers && PastClaim(handlers[h]) && PastClaim(to)
    requires to.id == handlers[h].id == e.id && to.op == handlers[h].op == e.op
    requires HandlerOk(trace + [e], now, to)
    ensures HandlersOk(trace + [e], now, handlers[h := to])
  {
    var others := handlers - {h};
    forall g | g in others
      ensures Apart(others[g], to) && Undisturbed(others[g], e)
    {
      assert Apart(handlers[g], handlers[h]);
    }
    HandlersGrow(trace, now, others, e);
    HandlersMove(trace + [e], now, others, h, to);
    assert others[h := to] == handlers[h := to];
  }

  // A handler past its claim moves on, with or without an event about its own request.
  lemma MovesOn(w: World, h: nat, to: Handler, e: Event)
    requires Inv(w) && h in w.handlers && PastClaim(w.handlers[h]) && PastClaim(to)
    requires to.id == w.handlers[h].id && to.op == w.handlers[h].op
    requires !e.Claim? && e.id == to.id && e.op == to.op && New(e, w.trace) && Justified(e, w.trace)
    requires HandlerOk(w.trace + [e], w.now, to)
    ensures Inv(Log(Move(w, h, to), e))
  {
    TraceGrows(w.trace, e);
    LedgerGrows(w.trace, w.now, w.ledger, e);
    HandlersMoveOn(w.trace, w.now, w.handlers, h, to, e);
  }

  lemma MovesQuietly(w: World, h: nat, to: Handler)
    requires Inv(w) && h in w.handlers && PastClaim(w.handlers[h]) && PastClaim(to)
    requires to.id == w.handlers[h].id && to.op == w.handlers[h].op && HandlerOk(w.trace, w.now, to)
    ensures Inv(Move(w, h, to))
  {
    HandlersMove(w.trace, w.now, w.handlers, h, to);
  }

  lemma StepApply(w: World, h: nat, outcome: Outcome)
    requires Inv(w)
    ensures Inv(OnApply(w, h, outcome))
  {
    if h in w.handlers && w.handlers[h].Claimed? {
      var v := w.handlers[h];
      assert HandlerOk(w.trace, w.now, v);
      LogKeeps(w.trace, Effect(v.id, v.op));
      match outcome
      case Success(summary) => MovesOn(w, h, Applied(v.id, v.op, summary), Effect(v.id, v.op));
      case Failure(effectHappened) =>
        if effectHappened {
          MovesOn(w, h, Failing(v.id, v.op, FAILED), Effect(v.id, v.op));
        } else {
          MovesQuietly(w, h, Failing(v.id, v.op, FAILED));
        }
    }
  }

  lemma StepAudit(w: World, h: nat, succeeded: bool, written: bool)
    requires Inv(w)
    ensures Inv(OnAudit(w, h, succeeded, written))
  {
    if h in w.handlers && w.handlers[h].Applied? {
      var v := w.handlers[h];
      assert HandlerOk(w.trace, w.now, v);
      LogKeeps(w.trace, Audit(v.id, v.op));
      if succeeded {
        MovesOn(w, h, Audited(v.id, v.op, v.summary), Audit(v.id, v.op));
      } else if written {
        MovesOn(w, h, Failing(v.id, v.op, UNAUDITED), Audit(v.id, v.op));
      } else {
        MovesQuietly(w, h, Failing(v.id, v.op, UNAUDITED));
      }
    }
  }

  lemma StepReadReceipt(w: World, h: nat)
    requires Inv(w)
    ensures Inv(OnReadReceipt(w, h))
  {
    Others(w, h);
    if h in w.handlers && (w.handlers[h].Audited? || w.handlers[h].Failing?) {
      var v := w.handlers[h];
      assert HandlerOk(w.trace, w.now, v);
      if Live(w, v.id) && w.ledger[v.id].operation == v.op {
        assert ReceiptOk(w.trace, v.id, w.ledger[v.id]);
        if w.ledger[v.id].completion.None? {
          MovesQuietly(w, h, Completing(v.id, v.op, w.ledger[v.id], Completion(w.now, v.Audited?, v.summary)));
        }
      }
    }
  }

  lemma Completed(w: World, h: nat, e: Event, r: Receipt)
    requires Inv(w) && h in w.handlers && PastClaim(w.handlers[h]) && e.Complete?
    requires e.id == w.handlers[h].id && e.op == w.handlers[h].op && New(e, w.trace) && Justified(e, w.trace)
    requires r == Receipt(e.op, Some(e.completion), w.now + RETENTION)
    ensures var written := Log(Gone(w, h).(ledger := w.ledger[e.id := r]), e);
            Inv(written)
            && (e.completion.succeeded ==> Inv(Log(written, Reply(e.id, e.op, false, e.completion))))
  {
    Others(w, h);
    TraceGrows(w.trace, e);
    HandlersGrow(w.trace, w.now, w.handlers - {h}, e);
    LedgerGrows(w.trace, w.now, w.ledger, e);
    assert (w.trace + [e])[|w.trace|] == e;
    LedgerWrites(w.trace + [e], w.now, w.ledger, e.id, r);
    if e.completion.succeeded {
      Replies(Log(Gone(w, h).(ledger := w.ledger[e.id := r]), e), Reply(e.id, e.op, false, e.completion));
    }
  }

  lemma StepWriteReceipt(w: World, h: nat, acknowledged: bool)
    requires Inv(w)
    ensures Inv(OnWriteReceipt(w, h, acknowledged))
  {
    if h in w.handlers && w.handlers[h].Completing? {
      if Live(w, w.handlers[h].id) {
        var v := w.handlers[h];
        assert HandlerOk(w.trace, w.now, v);
        var done := v.receipt.(completion := Some(v.completion), expiresAt := w.now + RETENTION);
        Completed(w, h, Complete(v.id, v.op, v.completion), done);
      } else {
        Others(w, h);
      }
    }
  }

  lemma StepArrive(w: World, h: nat, id: nat, op: Operation)
    requires Inv(w)
    ensures Inv(OnArrive(w, h, id, op))
  {
  }

  lemma StepTick(w: World, seconds: nat)
    requires Inv(w)
    ensures Inv(w.(now := w.now + seconds))
  {
    forall i | 0 <= i < |w.trace|
      ensures ClaimOk(w.trace[i], w.now + seconds, w.ledger)
    {
      assert ClaimOk(w.trace[i], w.now, w.ledger);
    }
  }

  lemma StepKeeps(w: World, s: Step, stall: nat)
    requires Inv(w) && stall + MAX_EXPIRY <= RETENTION
    ensures Inv(Next(w, s, stall))
  {
    match s
    case Tick(seconds) => StepTick(w, seconds);
    case Arrive(h, id, op) => StepArrive(w, h, id, op);
    case SetIfAbsent(h) => StepSetIfAbsent(w, h, stall);
    case ReadExisting(h) => StepReadExisting(w, h);
    case Apply(h, outcome) => StepApply(w, h, outcome);
    case AppendAudit(h, succeeded, written) => StepAudit(w, h, succeeded, written);
    case ReadReceipt(h) => StepReadReceipt(w, h);
    case WriteReceipt(h, acknowledged) => StepWriteReceipt(w, h, acknowledged);
    case Crash(h) => Others(w, h);
  }

  lemma {:induction false} Invariant(steps: seq<Step>, stall: nat)
    requires stall + MAX_EXPIRY <= RETENTION
    ensures Inv(Run(steps, stall))
  {
    if steps != [] {
      Invariant(steps[..|steps| - 1], stall);
      StepKeeps(Run(steps[..|steps| - 1], stall), steps[|steps| - 1], stall);
    }
  }

  // ------------------------------------------------------------ what holds of every run

  // No request is claimed, applied, audited or completed twice, and an id is claimed for something else only once the ledger
  // has forgotten it.
  lemma AtMostOnce(steps: seq<Step>, stall: nat)
    requires stall + MAX_EXPIRY <= RETENTION
    ensures Once(Run(steps, stall).trace) && ClaimsApart(Run(steps, stall).trace)
  {
    Invariant(steps, stall);
  }

  lemma At(trace: seq<Event>, k: nat, e: Event) returns (i: nat)
    requires k < |trace| && (Justified(trace[k], trace[..k]) ==> e in trace[..k]) && AllJustified(trace)
    ensures i < k && trace[i] == e
  {
    assert Justified(trace[k], trace[..k]);
    i :| 0 <= i < k && trace[..k][i] == e;
  }

  lemma ClaimAt(trace: seq<Event>, k: nat) returns (i: nat)
    requires k < |trace| && trace[k].Effect? && AllJustified(trace)
    ensures i < k && trace[i].Claim? && trace[i].id == trace[k].id && trace[i].op == trace[k].op
  {
    assert Justified(trace[k], trace[..k]);
    i :| 0 <= i < k && trace[..k][i].Claim? && trace[..k][i].id == trace[k].id && trace[..k][i].op == trace[k].op;
  }

  // Every success that is reported has been claimed, applied, audited and recorded, in that order.
  lemma SuccessIsBacked(steps: seq<Step>, stall: nat, trace: seq<Event>, k: nat)
    returns (claim: nat, effect: nat, audit: nat, done: nat)
    requires stall + MAX_EXPIRY <= RETENTION && trace == Run(steps, stall).trace && k < |trace| && trace[k].Reply?
    ensures claim < effect < audit < done < k && trace[claim].Claim? && trace[claim].id == trace[k].id
            && trace[claim].op == trace[k].op
    ensures trace[effect] == Effect(trace[k].id, trace[k].op) && trace[audit] == Audit(trace[k].id, trace[k].op)
    ensures trace[k].completion.succeeded && trace[done] == Complete(trace[k].id, trace[k].op, trace[k].completion)
  {
    Invariant(steps, stall);
    done := At(trace, k, Complete(trace[k].id, trace[k].op, trace[k].completion));
    assert Justified(trace[k], trace[..k]);
    audit := At(trace, done, Audit(trace[k].id, trace[k].op));
    effect := At(trace, audit, Effect(trace[k].id, trace[k].op));
    claim := ClaimAt(trace, effect);
  }

  lemma CompletedOnce(trace: seq<Event>, a: nat, b: nat)
    requires Once(trace) && a < |trace| && b < |trace| && trace[a].Complete? && trace[b].Complete?
    requires trace[a].id == trace[b].id && trace[a].op == trace[b].op
    ensures a == b
  {
    assert SameOnce(trace[a], trace[b]) && SameOnce(trace[b], trace[a]);
  }

  // Everyone who is told that a request succeeded is told the same, first answer or replay.
  lemma RepliesAgree(steps: seq<Step>, stall: nat, trace: seq<Event>, j: nat, k: nat)
    requires stall + MAX_EXPIRY <= RETENTION && trace == Run(steps, stall).trace && j < |trace| && k < |trace|
    requires trace[j].Reply? && trace[k].Reply? && trace[j].id == trace[k].id && trace[j].op == trace[k].op
    ensures trace[j].completion == trace[k].completion
  {
    Invariant(steps, stall);
    var a := At(trace, j, Complete(trace[j].id, trace[j].op, trace[j].completion));
    var b := At(trace, k, Complete(trace[k].id, trace[k].op, trace[k].completion));
    CompletedOnce(trace, a, b);
  }

  // ------------------------------------------------------------ every request is answered

  function RunFrom(w: World, steps: seq<Step>, stall: nat): World
    decreases |steps|
  {
    if steps == [] then w else RunFrom(Next(w, steps[0], stall), steps[1..], stall)
  }

  // A handler that nobody disturbs, up to the claim and all the way.
  function Reaching(h: nat, id: nat, op: Operation): seq<Step> {
    [Arrive(h, id, op), SetIfAbsent(h)]
  }

  function Handling(h: nat, id: nat, op: Operation, outcome: Outcome, succeeded: bool, written: bool, acknowledged: bool): seq<Step> {
    Reaching(h, id, op)
    + [Apply(h, outcome), AppendAudit(h, succeeded, written), ReadReceipt(h), WriteReceipt(h, acknowledged)]
  }

  predicate Timely(w: World, h: nat, op: Operation) {
    h !in w.handlers && w.now < op.expiresAt <= w.now + MAX_EXPIRY
  }

  lemma {:induction false} RunFromConcat(w: World, a: seq<Step>, b: seq<Step>, stall: nat)
    ensures RunFrom(w, a + b, stall) == RunFrom(RunFrom(w, a, stall), b, stall)
    decreases |a|
  {
    if a == [] {
      assert a + b == b;
    } else {
      assert (a + b)[1..] == a[1..] + b;
      RunFromConcat(Next(w, a[0], stall), a[1..], b, stall);
    }
  }

  lemma RunFromTwo(w: World, a: Step, b: Step, stall: nat)
    ensures RunFrom(w, [a, b], stall) == Next(Next(w, a, stall), b, stall)
  {
    assert [a, b][1..] == [b];
    RunFromOne(Next(w, a, stall), b, stall);
  }

  lemma RunFromOne(w: World, a: Step, stall: nat)
    ensures RunFrom(w, [a], stall) == Next(w, a, stall)
  {
    assert [a][1..] == [];
  }

  lemma MoveTwice(w: World, h: nat, a: Handler, b: Handler)
    ensures Move(Move(w, h, a), h, b) == Move(w, h, b)
  {
    assert w.handlers[h := a][h := b] == w.handlers[h := b];
  }

  lemma MoveAndGo(w: World, h: nat, a: Handler)
    requires h !in w.handlers
    ensures Gone(Move(w, h, a), h) == w
  {
    assert w.handlers[h := a] - {h} == w.handlers;
  }

  lemma ReachesContended(w: World, h: nat, id: nat, op: Operation, stall: nat)
    requires Timely(w, h, op) && Live(w, id)
    ensures RunFrom(w, Reaching(h, id, op), stall) == Move(w, h, Contended(id, op))
  {
    RunFromTwo(w, Arrive(h, id, op), SetIfAbsent(h), stall);
    MoveTwice(w, h, Validated(id, op, w.now), Contended(id, op));
  }

  // What a retry is told: the stored completion, when the request has one, it succeeded and the operation is the same.
  function Replayed(r: Receipt, id: nat, op: Operation): seq<Event> {
    if r.operation == op && r.completion.Some? && r.completion.value.succeeded
    then [Reply(id, op, true, r.completion.value)] else []
  }

  // Whoever asks again while the receipt is there gets exactly the answer that is stored, and nothing else happens.
  lemma RetryIsAnswered(w: World, h: nat, id: nat, op: Operation, stall: nat)
    requires Timely(w, h, op) && Live(w, id)
    ensures RunFrom(w, Reaching(h, id, op) + [ReadExisting(h)], stall)
            == w.(trace := w.trace + Replayed(w.ledger[id], id, op))
  {
    ReachesContended(w, h, id, op, stall);
    RunFromConcat(w, Reaching(h, id, op), [ReadExisting(h)], stall);
    RunFromOne(Move(w, h, Contended(id, op)), ReadExisting(h), stall);
    MoveAndGo(w, h, Contended(id, op));
    assert w.trace + [] == w.trace;
  }

  // How a handler ends that has the id to itself.
  function Ended(now: nat, outcome: Outcome, succeeded: bool): Completion {
    match outcome
    case Success(summary) => if succeeded then Completion(now, true, summary) else Completion(now, false, UNAUDITED)
    case Failure(_) => Completion(now, false, FAILED)
  }

  // What it leaves behind, in order.
  function Story(id: nat, op: Operation, outcome: Outcome, succeeded: bool, written: bool, acknowledged: bool, c: Completion): seq<Event>
  {
    (if outcome.Success? || outcome.effectHappened then [Effect(id, op)] else [])
    + (if outcome.Success? && (succeeded || written) then [Audit(id, op)] else [])
    + [Complete(id, op, c)] + if c.succeeded && acknowledged then [Reply(id, op, false, c)] else []
  }

  // An undisturbed handler on an id that is free claims it, applies, audits, records and answers; a failure is recorded as
  // one and not answered as a success.
  lemma FirstIsAnswered(w: World, h: nat, id: nat, op: Operation, outcome: Outcome, succeeded: bool, written: bool,
                        acknowledged: bool, stall: nat)
    requires Timely(w, h, op) && !Live(w, id)
    ensures var c := Ended(w.now, outcome, succeeded);
            RunFrom(w, Handling(h, id, op, outcome, succeeded, written, acknowledged), stall)
            == w.(ledger := w.ledger[id := Receipt(op, Some(c), w.now + RETENTION)],
                  trace := w.trace + [Claim(id, op, w.now)] + Story(id, op, outcome, succeeded, written, acknowledged, c))
  {
    var rest := [Apply(h, outcome), AppendAudit(h, succeeded, written), ReadReceipt(h), WriteReceipt(h, acknowledged)];
    RunFromConcat(w, Reaching(h, id, op), rest, stall);
    ReachesClaim(w, h, id, op, stall);
    var claimed := w.(ledger := w.ledger[id := Receipt(op, None, w.now + RETENTION)], trace := w.trace + [Claim(id, op, w.now)]);
    ClaimIsAnswered(claimed, h, id, op, outcome, succeeded, written, acknowledged, stall, rest);
    var c := Ended(w.now, outcome, succeeded);
    assert claimed.ledger[id := Receipt(op, Some(c), w.now + RETENTION)] == w.ledger[id := Receipt(op, Some(c), w.now + RETENTION)];
  }

  // Asking again, by any handler and for as long as the request has not expired, gets the completion of the first answer.
  lemma FirstThenRetry(w: World, h: nat, id: nat, op: Operation, summary: string, stall: nat, later: World, again: nat)
    requires Timely(w, h, op) && !Live(w, id) && later.now <= w.now + RETENTION - 1 && Timely(later, again, op)
    requires later.ledger == RunFrom(w, Handling(h, id, op, Success(summary), true, true, true), stall).ledger
    ensures RunFrom(later, Reaching(again, id, op) + [ReadExisting(again)], stall).trace
            == later.trace + [Reply(id, op, true, Completion(w.now, true, summary))]
  {
    FirstIsAnswered(w, h, id, op, Success(summary), true, true, true, stall);
    RetryIsAnswered(later, again, id, op, stall);
  }

  lemma ReachesClaim(w: World, h: nat, id: nat, op: Operation, stall: nat)
    requires Timely(w, h, op) && !Live(w, id)
    ensures RunFrom(w, Reaching(h, id, op), stall)
            == Move(w.(ledger := w.ledger[id := Receipt(op, None, w.now + RETENTION)], trace := w.trace + [Claim(id, op, w.now)]),
                    h, Claimed(id, op))
  {
    RunFromTwo(w, Arrive(h, id, op), SetIfAbsent(h), stall);
    MoveTwice(w, h, Validated(id, op, w.now), Claimed(id, op));
  }

  lemma RunFromFour(w: World, a: Step, b: Step, c: Step, d: Step, stall: nat)
    ensures RunFrom(w, [a, b, c, d], stall) == Next(Next(Next(Next(w, a, stall), b, stall), c, stall), d, stall)
  {
    assert [a, b, c, d][1..] == [b, c, d] && [b, c, d][1..] == [c, d];
    RunFromTwo(Next(Next(w, a, stall), b, stall), c, d, stall);
  }

  // What a handler has come to when it records how it ended, and what it has left behind so far.
  function Late(id: nat, op: Operation, outcome: Outcome, succeeded: bool): Handler {
    match outcome
    case Success(summary) => if succeeded then Audited(id, op, summary) else Failing(id, op, UNAUDITED)
    case Failure(_) => Failing(id, op, FAILED)
  }

  function Early(id: nat, op: Operation, outcome: Outcome, succeeded: bool, written: bool): seq<Event> {
    (if outcome.Success? || outcome.effectHappened then [Effect(id, op)] else [])
    + if outcome.Success? && (succeeded || written) then [Audit(id, op)] else []
  }

  lemma AppliesAndAudits(w: World, h: nat, id: nat, op: Operation, outcome: Outcome, succeeded: bool, written: bool)
    ensures OnAudit(OnApply(Move(w, h, Claimed(id, op)), h, outcome), h, succeeded, written)
            == Move(w.(trace := w.trace + Early(id, op, outcome, succeeded, written)), h, Late(id, op, outcome, succeeded))
  {
    var started := Move(w, h, Claimed(id, op));
    match outcome
    case Success(summary) =>
      MoveTwice(w, h, Claimed(id, op), Applied(id, op, summary));
      MoveTwice(w, h, Applied(id, op, summary), Late(id, op, outcome, succeeded));
      assert w.trace + [Effect(id, op)] + [Audit(id, op)] == w.trace + ([Effect(id, op)] + [Audit(id, op)]);
      assert [Effect(id, op)] + [] == [Effect(id, op)];
    case Failure(effectHappened) =>
      MoveTwice(w, h, Claimed(id, op), Failing(id, op, FAILED));
      assert w.trace + ([] + []) == w.trace && [Effect(id, op)] + [] == [Effect(id, op)];
  }

  lemma RecordsAndAnswers(w: World, h: nat, id: nat, op: Operation, late: Handler, acknowledged: bool)
    requires h !in w.handlers && Live(w, id) && w.ledger[id].operation == op && w.ledger[id].completion.None?
    requires (late.Audited? || late.Failing?) && late.id == id && late.op == op
    ensures var c := Completion(w.now, late.Audited?, late.summary);
            OnWriteReceipt(OnReadReceipt(Move(w, h, late), h), h, acknowledged)
            == w.(ledger := w.ledger[id := Receipt(op, Some(c), w.now + RETENTION)],
                  trace := w.trace + [Complete(id, op, c)] + if c.succeeded && acknowledged then [Reply(id, op, false, c)] else [])
  {
    var c := Completion(w.now, late.Audited?, late.summary);
    MoveTwice(w, h, late, Completing(id, op, w.ledger[id], c));
    assert OnReadReceipt(Move(w, h, late), h) == Move(w, h, Completing(id, op, w.ledger[id], c));
    MoveAndGo(w, h, Completing(id, op, w.ledger[id], c));
    assert w.trace + [Complete(id, op, c)] + [] == w.trace + [Complete(id, op, c)];
  }

  lemma ClaimIsAnswered(w: World, h: nat, id: nat, op: Operation, outcome: Outcome, succeeded: bool, written: bool,
                        acknowledged: bool, stall: nat, rest: seq<Step>)
    requires h !in w.handlers && id in w.ledger && w.ledger[id] == Receipt(op, None, w.now + RETENTION)
    requires rest == [Apply(h, outcome), AppendAudit(h, succeeded, written), ReadReceipt(h), WriteReceipt(h, acknowledged)]
    ensures var c := Ended(w.now, outcome, succeeded);
            RunFrom(Move(w, h, Claimed(id, op)), rest, stall)
            == w.(ledger := w.ledger[id := Receipt(op, Some(c), w.now + RETENTION)],
                  trace := w.trace + Story(id, op, outcome, succeeded, written, acknowledged, c))
  {
    var early, late := Early(id, op, outcome, succeeded, written), Late(id, op, outcome, succeeded);
    var c := Ended(w.now, outcome, succeeded);
    RunFromFour(Move(w, h, Claimed(id, op)), rest[0], rest[1], rest[2], rest[3], stall);
    AppliesAndAudits(w, h, id, op, outcome, succeeded, written);
    RecordsAndAnswers(w.(trace := w.trace + early), h, id, op, late, acknowledged);
    var reply := if c.succeeded && acknowledged then [Reply(id, op, false, c)] else [];
    assert w.trace + early + [Complete(id, op, c)] + reply == w.trace + (early + [Complete(id, op, c)] + reply);
  }

  // ------------------------------------------------------------ the bounds are exact

  function SomeOperation(reason: string, expiresAt: nat): Operation {
    Operation(0, 1, "target", "", false, reason, expiresAt)
  }

  lemma RunStep(steps: seq<Step>, s: Step, stall: nat)
    ensures Run(steps + [s], stall) == Next(Run(steps, stall), s, stall)
  {
    assert (steps + [s])[..|steps|] == steps;
  }

  function FirstRun(op: Operation): seq<Step> {
    [Arrive(1, 7, op), SetIfAbsent(1), Apply(1, Success(""))]
  }

  lemma FirstRunApplies(op: Operation, stall: nat)
    requires 0 < op.expiresAt <= MAX_EXPIRY
    ensures Run(FirstRun(op), stall) == World(0, map[7 := Receipt(op, None, RETENTION)], map[1 := Applied(7, op, "")],
                                              [Claim(7, op, 0), Effect(7, op)])
  {
    var arrive, claim := Arrive(1, 7, op), SetIfAbsent(1);
    var none: seq<Step> := [];
    RunStep(none, arrive, stall);
    RunStep([arrive], claim, stall);
    RunStep([arrive, claim], Apply(1, Success("")), stall);
    assert none + [arrive] == [arrive] && [arrive] + [claim] == [arrive, claim];
    assert [arrive, claim] + [Apply(1, Success(""))] == FirstRun(op);
    FirstSteps(op, stall);
  }

  lemma FirstSteps(op: Operation, stall: nat)
    requires 0 < op.expiresAt <= MAX_EXPIRY
    ensures var arrived := OnArrive(World(0, map[], map[], []), 1, 7, op);
            OnApply(OnSetIfAbsent(arrived, 1, stall), 1, Success(""))
            == World(0, map[7 := Receipt(op, None, RETENTION)], map[1 := Applied(7, op, "")], [Claim(7, op, 0), Effect(7, op)])
  {
    var arrived := World(0, map[], map[1 := Validated(7, op, 0)], []);
    assert OnArrive(World(0, map[], map[], []), 1, 7, op) == arrived;
    assert OnSetIfAbsent(arrived, 1, stall)
        == World(0, map[7 := Receipt(op, None, RETENTION)], map[1 := Claimed(7, op)], [Claim(7, op, 0)]);
  }

  // A second handler that validates at `at`, waits until the receipt of the first has gone, and applies.
  function SecondRun(op: Operation, at: nat, next: Operation): seq<Step>
    requires at <= RETENTION
  {
    FirstRun(op) + [Tick(at)] + [Arrive(2, 7, next)] + [Tick(RETENTION - at)] + [SetIfAbsent(2)]
    + [Apply(2, Success(""))]
  }

  function Twice(first: Operation, second: Operation): seq<Event> {
    [Claim(7, first, 0), Effect(7, first), Claim(7, second, RETENTION), Effect(7, second)]
  }

  lemma SecondRunApplies(op: Operation, at: nat, next: Operation, stall: nat)
    requires 0 < op.expiresAt <= MAX_EXPIRY && at < next.expiresAt <= at + MAX_EXPIRY
    requires at <= RETENTION <= at + stall
    ensures Run(SecondRun(op, at, next), stall).trace == Twice(op, next) && Run(SecondRun(op, at, next), stall).now == RETENTION
  {
    FirstRunApplies(op, stall);
    var s0 := FirstRun(op);
    var w0 := Run(s0, stall);
    RunStep(s0, Tick(at), stall);
    RunStep(s0 + [Tick(at)], Arrive(2, 7, next), stall);
    var s2 := s0 + [Tick(at)] + [Arrive(2, 7, next)];
    assert Run(s2, stall) == w0.(now := at, handlers := w0.handlers[2 := Validated(7, next, at)]);
    RunStep(s2, Tick(RETENTION - at), stall);
    RunStep(s2 + [Tick(RETENTION - at)], SetIfAbsent(2), stall);
    RunStep(s2 + [Tick(RETENTION - at)] + [SetIfAbsent(2)], Apply(2, Success("")), stall);
  }

  // At most once holds of every run exactly when no handler takes longer than 86 100 s from checking a request's
  // expiry to claiming its id.
  lemma AtMostOnceExactly(stall: nat)
    ensures (forall steps :: Once(Run(steps, stall).trace)) <==> stall + MAX_EXPIRY <= RETENTION
  {
    if stall + MAX_EXPIRY <= RETENTION {
      forall steps
        ensures Once(Run(steps, stall).trace)
      {
        AtMostOnce(steps, stall);
      }
    } else {
      var op := SomeOperation("", MAX_EXPIRY);
      SecondRunApplies(op, MAX_EXPIRY - 1, op, stall);
      var trace := Run(SecondRun(op, MAX_EXPIRY - 1, op), stall).trace;
      assert SameOnce(trace[1], trace[3]);
    }
  }

  // ------------------------------------------------------------ nothing stale is claimed

  ghost predicate InTime(e: Event, stall: nat) {
    e.Claim? ==> e.op.expiresAt <= e.at + MAX_EXPIRY && e.at < e.op.expiresAt + stall
  }

  ghost predicate Checked(h: Handler, now: nat) {
    h.Validated? ==> h.validatedAt <= now && h.validatedAt < h.op.expiresAt <= h.validatedAt + MAX_EXPIRY
  }

  ghost predicate Punctual(w: World, stall: nat) {
    && (forall i :: 0 <= i < |w.trace| ==> InTime(w.trace[i], stall)) && forall h :: h in w.handlers ==> Checked(w.handlers[h], w.now)
  }

  lemma StepPunctual(w: World, s: Step, stall: nat)
    requires Punctual(w, stall)
    ensures Punctual(Next(w, s, stall), stall)
  {
    if s.Tick? {
      forall h | h in w.handlers
        ensures Checked(w.handlers[h], w.now + s.seconds)
      {
        assert Checked(w.handlers[h], w.now);
      }
    }
  }

  // A request is claimed only within the stall of a moment at which it had not expired, and was not dated too far ahead.
  lemma {:induction false} ClaimsAreFresh(steps: seq<Step>, stall: nat)
    ensures Punctual(Run(steps, stall), stall)
  {
    if steps != [] {
      ClaimsAreFresh(steps[..|steps| - 1], stall);
      StepPunctual(Run(steps[..|steps| - 1], stall), steps[|steps| - 1], stall);
    }
  }

  // ------------------------------------------------------------ one operation under an id

  // Effects under one id are effects of one operation.
  ghost predicate OneOperation(trace: seq<Event>) {
    forall i, j :: 0 <= i < |trace| && 0 <= j < |trace| && trace[i].Effect? && trace[j].Effect? && trace[i].id == trace[j].id ==>
      trace[i].op == trace[j].op
  }

  // A handler reaches for an id less than `life` after the id was claimed.
  ghost predicate Soon(w: World, s: Step, life: nat) {
    s.SetIfAbsent? && s.h in w.handlers && w.handlers[s.h].Validated? ==>
      forall i :: 0 <= i < |w.trace| && w.trace[i].Claim? && w.trace[i].id == w.handlers[s.h].id ==> w.now < w.trace[i].at + life
  }

  ghost predicate SoonRun(steps: seq<Step>, stall: nat, life: nat) {
    steps != [] ==>
      SoonRun(steps[..|steps| - 1], stall, life) && Soon(Run(steps[..|steps| - 1], stall), steps[|steps| - 1], life)
  }

  // While the ledger remembers an id it has been claimed once.
  ghost predicate Remembered(e: Event, now: nat, ledger: map<nat, Receipt>) {
    e.Claim? ==> e.at <= now && e.id in ledger && e.at + RETENTION <= ledger[e.id].expiresAt
  }

  ghost predicate ClaimedOnce(trace: seq<Event>) {
    forall i, j :: 0 <= i < j < |trace| && trace[i].Claim? && trace[j].Claim? ==> trace[i].id != trace[j].id
  }

  ghost predicate EffectsClaimed(trace: seq<Event>) {
    forall i :: 0 <= i < |trace| && trace[i].Effect? ==> Claims(trace, trace[i].id, trace[i].op)
  }

  ghost predicate HandlersClaimed(trace: seq<Event>, handlers: map<nat, Handler>) {
    forall h :: h in handlers && PastClaim(handlers[h]) ==> Claims(trace, handlers[h].id, handlers[h].op)
  }

  ghost predicate AllRemembered(trace: seq<Event>, now: nat, ledger: map<nat, Receipt>) {
    forall i :: 0 <= i < |trace| ==> Remembered(trace[i], now, ledger)
  }

  // What holds whatever the stall, as long as ids are reached for soon.
  ghost predicate Single(w: World) {
    && ClaimedOnce(w.trace) && EffectsClaimed(w.trace) && HandlersClaimed(w.trace, w.handlers)
    && AllRemembered(w.trace, w.now, w.ledger)
  }

  // One more event that is not a claim.
  lemma SingleLogs(w: World, e: Event)
    requires Single(w) && !e.Claim? && (e.Effect? ==> Claims(w.trace, e.id, e.op))
    ensures Single(Log(w, e))
  {
    LogKeeps(w.trace, e);
  }

  lemma SingleMoves(w: World, h: nat, to: Handler)
    requires Single(w) && (PastClaim(to) ==> Claims(w.trace, to.id, to.op))
    ensures Single(Move(w, h, to))
  {
  }

  lemma SingleWithout(w: World, h: nat)
    requires Single(w)
    ensures Single(Gone(w, h))
  {
  }

  lemma SingleWrites(w: World, id: nat, r: Receipt)
    requires Single(w) && r.expiresAt == w.now + RETENTION
    ensures Single(w.(ledger := w.ledger[id := r]))
  {
    forall i | 0 <= i < |w.trace|
      ensures Remembered(w.trace[i], w.now, w.ledger[id := r])
    {
      assert Remembered(w.trace[i], w.now, w.ledger);
    }
  }

  // The id is not live, so it has not been claimed.
  lemma SingleClaims(w: World, h: nat, stall: nat, life: nat)
    requires Single(w) && Soon(w, SetIfAbsent(h), life) && life <= RETENTION
    ensures Single(OnSetIfAbsent(w, h, stall))
  {
    if h in w.handlers && w.handlers[h].Validated? && w.now <= w.handlers[h].validatedAt + stall {
      var v := w.handlers[h];
      if Live(w, v.id) {
        SingleMoves(w, h, Contended(v.id, v.op));
      } else {
        var e := Claim(v.id, v.op, w.now);
        forall i | 0 <= i < |w.trace| && w.trace[i].Claim?
          ensures w.trace[i].id != v.id
        {
          assert Remembered(w.trace[i], w.now, w.ledger);
        }
        SingleWrites(w, v.id, Receipt(v.op, None, w.now + RETENTION));
        ClaimIsSingle(w.(ledger := w.ledger[v.id := Receipt(v.op, None, w.now + RETENTION)]), h, e);
      }
    }
  }

  lemma ClaimIsSingle(w: World, h: nat, e: Event)
    requires Single(w) && e.Claim? && e.at == w.now && Remembered(e, w.now, w.ledger)
    requires forall i :: 0 <= i < |w.trace| && w.trace[i].Claim? ==> w.trace[i].id != e.id
    ensures Single(Log(Move(w, h, Claimed(e.id, e.op)), e))
  {
    LogKeeps(w.trace, e);
  }

  lemma SingleApplies(w: World, h: nat, outcome: Outcome)
    requires Single(w)
    ensures Single(OnApply(w, h, outcome))
  {
    if h in w.handlers && w.handlers[h].Claimed? {
      var v := w.handlers[h];
      var to := match outcome case Success(summary) => Applied(v.id, v.op, summary) case _ => Failing(v.id, v.op, FAILED);
      SingleMoves(w, h, to);
      SingleLogs(Move(w, h, to), Effect(v.id, v.op));
    }
  }

  lemma SingleAudits(w: World, h: nat, succeeded: bool, written: bool)
    requires Single(w)
    ensures Single(OnAudit(w, h, succeeded, written))
  {
    if h in w.handlers && w.handlers[h].Applied? {
      var v := w.handlers[h];
      var to := if succeeded then Audited(v.id, v.op, v.summary) else Failing(v.id, v.op, UNAUDITED);
      SingleMoves(w, h, to);
      SingleLogs(Move(w, h, to), Audit(v.id, v.op));
    }
  }

  lemma SingleReads(w: World, h: nat)
    requires Single(w)
    ensures Single(OnReadExisting(w, h)) && Single(OnReadReceipt(w, h))
  {
    SingleWithout(w, h);
    if h in w.handlers && Live(w, w.handlers[h].id) {
      var v, r := w.handlers[h], w.ledger[w.handlers[h].id];
      if v.Contended? && r.completion.Some? {
        SingleLogs(Gone(w, h), Reply(v.id, v.op, true, r.completion.value));
      } else if v.Audited? || v.Failing? {
        if r.completion.Some? {
          SingleLogs(Gone(w, h), Reply(v.id, v.op, false, Completion(r.completion.value.at, true, v.summary)));
        } else {
          SingleMoves(w, h, Completing(v.id, v.op, r, Completion(w.now, v.Audited?, v.summary)));
        }
      }
    }
  }

  lemma SingleCompletes(w: World, h: nat, acknowledged: bool)
    requires Single(w)
    ensures Single(OnWriteReceipt(w, h, acknowledged))
  {
    SingleWithout(w, h);
    if h in w.handlers && w.handlers[h].Completing? {
      var v := w.handlers[h];
      var done := v.receipt.(completion := Some(v.completion), expiresAt := w.now + RETENTION);
      var kept := Gone(w, h).(ledger := w.ledger[v.id := done]);
      SingleWrites(Gone(w, h), v.id, done);
      SingleLogs(kept, Complete(v.id, v.op, v.completion));
      SingleLogs(Log(kept, Complete(v.id, v.op, v.completion)), Reply(v.id, v.op, false, v.completion));
    }
  }

  lemma SingleTicks(w: World, seconds: nat)
    requires Single(w)
    ensures Single(w.(now := w.now + seconds))
  {
    forall i | 0 <= i < |w.trace|
      ensures Remembered(w.trace[i], w.now + seconds, w.ledger)
    {
      assert Remembered(w.trace[i], w.now, w.ledger);
    }
  }

  lemma SingleStep(w: World, s: Step, stall: nat, life: nat)
    requires Single(w) && Soon(w, s, life) && life <= RETENTION
    ensures Single(Next(w, s, stall))
  {
    match s
    case Tick(seconds) => SingleTicks(w, seconds);
    case Arrive(h, id, op) => SingleMoves(w, h, Validated(id, op, w.now));
    case SetIfAbsent(h) => SingleClaims(w, h, stall, life);
    case ReadExisting(h) => SingleReads(w, h);
    case Apply(h, outcome) => SingleApplies(w, h, outcome);
    case AppendAudit(h, succeeded, written) => SingleAudits(w, h, succeeded, written);
    case ReadReceipt(h) => SingleReads(w, h);
    case WriteReceipt(h, acknowledged) => SingleCompletes(w, h, acknowledged);
    case Crash(h) => SingleWithout(w, h);
  }

  lemma {:induction false} SingleRun(steps: seq<Step>, stall: nat, life: nat)
    requires SoonRun(steps, stall, life) && life <= RETENTION
    ensures Single(Run(steps, stall))
  {
    if steps != [] {
      SingleRun(steps[..|steps| - 1], stall, life);
      SingleStep(Run(steps[..|steps| - 1], stall), steps[|steps| - 1], stall, life);
    }
  }

  lemma SingleIsOneOperation(trace: seq<Event>)
    requires ClaimedOnce(trace) && EffectsClaimed(trace)
    ensures OneOperation(trace)
  {
    forall i, j | 0 <= i < |trace| && 0 <= j < |trace| && trace[i].Effect? && trace[j].Effect? && trace[i].id == trace[j].id
      ensures trace[i].op == trace[j].op
    {
      var a :| 0 <= a < |trace| && trace[a].Claim? && trace[a].id == trace[i].id && trace[a].op == trace[i].op;
      var b :| 0 <= b < |trace| && trace[b].Claim? && trace[b].id == trace[j].id && trace[b].op == trace[j].op;
    }
  }

  lemma ClockRuns(w: World, s: Step, stall: nat)
    ensures w.now <= Next(w, s, stall).now
  {
  }

  // Nothing is late in a run that is over before anything could be.
  lemma {:induction false} SoonWhileYoung(steps: seq<Step>, stall: nat, life: nat)
    requires Run(steps, stall).now < life
    ensures SoonRun(steps, stall, life)
  {
    if steps != [] {
      ClockRuns(Run(steps[..|steps| - 1], stall), steps[|steps| - 1], stall);
      SoonWhileYoung(steps[..|steps| - 1], stall, life);
    }
  }

  // A used id does run another operation once its receipt has gone.
  lemma UsedIdRunsAgainAfterRetention(stall: nat) returns (steps: seq<Step>)
    ensures SoonRun(steps, stall, RETENTION + 1) && Run(steps, stall).now == RETENTION
    ensures !OneOperation(Run(steps, stall).trace)
  {
    var first, second := SomeOperation("", 1), SomeOperation("", RETENTION + 1);
    SecondRunApplies(first, RETENTION, second, stall);
    steps := SecondRun(first, RETENTION, second);
    SoonWhileYoung(steps, stall, RETENTION + 1);
    var trace := Twice(first, second);
    assert trace[1].Effect? && trace[3].Effect? && trace[1].op != trace[3].op;
  }

  // Whatever handlers do, a changed operation never runs under a used id exactly when ids are reached for again only
  // within the retention of their claim.
  lemma OneOperationExactly(stall: nat, life: nat)
    ensures (forall steps :: SoonRun(steps, stall, life) ==> OneOperation(Run(steps, stall).trace)) <==> life <= RETENTION
  {
    if life <= RETENTION {
      forall steps | SoonRun(steps, stall, life)
        ensures OneOperation(Run(steps, stall).trace)
      {
        SingleRun(steps, stall, life);
        SingleIsOneOperation(Run(steps, stall).trace);
      }
    } else {
      var steps := UsedIdRunsAgainAfterRetention(stall);
      SoonWhileYoung(steps, stall, life);
    }
  }
}
