// The authentication event log: src/store/events.rs.
//
// The datastore holds one record per sequence number, the latest sequence and the minimum still kept. `all` is every
// event ever appended; the event with sequence k is all[k - 1].

module EventLog {
  import opened Numbers

  datatype Event = Event(sequence: u64, tenantId: string, eventType: string, occurredAt: nat, data: string)
  datatype Input = Input(eventType: string, occurredAt: nat, data: string)
  // A stored record, or something that does not decode as one.
  datatype Record = Record(event: Event) | Malformed

  datatype Integrity =
    | CursorExpired(minimum: nat)
    | MissingSequence(sequence: int)
    | MalformedRecord(sequence: int)
    | UnexpectedSequence(expected: int, actual: u64)
  datatype Batch = Batch(events: seq<Event>) | Refused(error: Integrity)

  predicate Sound(records: map<int, Record>, k: int) {
    k in records && records[k].Record? && records[k].event.sequence == k
  }

  function Fault(records: map<int, Record>, k: int): Integrity
    requires !Sound(records, k)
  {
    if k !in records then MissingSequence(k)
    else if records[k].Malformed? then MalformedRecord(k)
    else UnexpectedSequence(k, records[k].event.sequence)
  }

  function End(latest: nat, after: nat, limit: nat): int {
    Min(latest, SaturatingAdd(after, limit))
  }

  // What a refusal says about the record at `k`.
  predicate Tells(records: map<int, Record>, k: int, error: Integrity) {
    match error
    case CursorExpired(_) => false
    case MissingSequence(sequence) => sequence == k && k !in records
    case MalformedRecord(sequence) => sequence == k && k in records && records[k].Malformed?
    case UnexpectedSequence(expected, actual) =>
      expected == k && actual != k && k in records && records[k].Record? && records[k].event.sequence == actual
  }

  ghost predicate FirstFault(records: map<int, Record>, after: nat, k: int) {
    after < k && !Sound(records, k) && forall j :: after < j < k ==> Sound(records, j)
  }

  // What a reader is owed: the records after its cursor in order, or the first thing wrong with them.
  ghost predicate Answers(minimum: nat, latest: nat, records: map<int, Record>, after: nat, limit: nat, r: Batch) {
    match r
    case Batch(events) =>
      && (limit == 0 || SaturatingAdd(after, 1) >= minimum)
      && |events| == Max(0, if limit == 0 then 0 else End(latest, after, limit) - after)
      && forall i :: 0 <= i < |events| ==>
           Sound(records, after + 1 + i) && events[i] == records[after + 1 + i].event
    case Refused(error) =>
      && limit > 0 && (error.CursorExpired? <==> SaturatingAdd(after, 1) < minimum)
      && if error.CursorExpired? then error.minimum == minimum else
           exists k: int :: FirstFault(records, after, k) && k <= End(latest, after, limit) && Tells(records, k, error)
  }

  // The minimum, the latest sequence and the records are read one after the other, without a lock.
  method Events(minimum: u64, latest: u64, records: map<int, Record>, after: u64, limit: u64) returns (r: Batch)
    ensures Answers(minimum, latest, records, after, limit, r)
  {
    if limit == 0 {
      return Batch([]);
    }
    if SaturatingAdd(after, 1) < minimum {
      return Refused(CursorExpired(minimum));
    }
    var end := End(latest, after, limit);
    if end <= after {
      return Batch([]);
    }
    var events := [];
    var next: int := after + 1;
    while next <= end
      invariant after < next <= end + 1 && |events| == next - after - 1
      invariant forall j :: after < j < next ==> Sound(records, j)
      invariant forall i :: 0 <= i < |events| ==>
                  Sound(records, after + 1 + i) && events[i] == records[after + 1 + i].event
    {
      if !Sound(records, next) {
        assert FirstFault(records, after, next);
        return Refused(Fault(records, next));
      }
      events := events + [records[next].event];
      next := next + 1;
    }
    return Batch(events);
  }

  // ------------------------------------------------------------ the log

  datatype Log = Log(all: seq<Event>, minimum: nat)

  ghost predicate Numbered(all: seq<Event>) {
    |all| <= U64_MAX && forall i :: 0 <= i < |all| ==> all[i].sequence == i + 1
  }

  ghost predicate ValidLog(log: Log) {
    Numbered(log.all) && 1 <= log.minimum <= |log.all| + 1 && log.minimum <= U64_MAX
  }

  // What is stored for a log: the records from the minimum on.
  ghost predicate Stores(records: map<int, Record>, log: Log) {
    forall k: int :: (k in records <==> 1 <= log.minimum <= k <= |log.all|)
                     && (k in records ==> records[k] == Record(log.all[k - 1]))
  }

  // A later state of the same log: more appended, more pruned.
  ghost predicate Later(a: Log, b: Log) {
    a.all <= b.all && a.minimum <= b.minimum
  }

  function Read(first: Log, second: Log, third: Log, after: nat, limit: nat): Batch {
    if limit == 0 then Batch([])
    else if SaturatingAdd(after, 1) < first.minimum then Refused(CursorExpired(first.minimum))
    else if End(|second.all|, after, limit) <= after then Batch([])
    else if after + 1 < third.minimum || End(|second.all|, after, limit) > |third.all| then Refused(MissingSequence(after + 1))
    else Batch(third.all[after..End(|second.all|, after, limit)])
  }

  // Read across a log that is appended to and pruned meanwhile, a batch is the next stretch of everything ever
  // appended; a cursor behind the retained window is told so, except that records pruned between the first read and
  // the last show as missing.
  lemma ReadIsTheNextStretch(first: Log, second: Log, third: Log, records: map<int, Record>, after: u64, limit: u64, r: Batch)
    requires ValidLog(first) && ValidLog(second) && ValidLog(third) && Later(first, second) && Later(second, third)
    requires Stores(records, third) && Answers(first.minimum, |second.all|, records, after, limit, r)
    ensures r == Read(first, second, third, after, limit)
    ensures r == Refused(MissingSequence(after + 1)) <==>
            limit > 0 && first.minimum <= SaturatingAdd(after, 1) && after < |second.all| && after + 1 < third.minimum
  {
    var end := End(|second.all|, after, limit);
    match r
    case Batch(events) =>
      if limit > 0 && end > after {
        assert Sound(records, after + 1) by {
          var e := events[0];
        }
        assert events == third.all[after..end];
      }
    case Refused(error) =>
      if !error.CursorExpired? {
        var k: int :| FirstFault(records, after, k) && k <= end && Tells(records, k, error);
        assert !Sound(records, k - 1);
      }
  }

  // ------------------------------------------------------------ the store

  // The slowest consumer, or the end of the log.
  function Slowest(latest: nat, projector: Option<nat>, webhooks: seq<nat>): (r: nat)
    ensures r <= latest && (projector.Some? ==> r <= projector.value) && forall c :: c in webhooks ==> r <= c
    ensures r == latest || projector == Some(r) || r in webhooks
  {
    if webhooks != [] then
      assert webhooks == [webhooks[0]] + webhooks[1..];
      Min(webhooks[0], Slowest(latest, projector, webhooks[1..]))
    else if projector.Some? then Min(latest, projector.value) else latest
  }

  class EventStore {
    const tenantId: string
    var records: map<int, Record>
    var latest: u64
    var minimum: u64
    ghost var all: seq<Event>

    ghost predicate Valid()
      reads this
    {
      latest == |all| && ValidLog(Log(all, minimum)) && Stores(records, Log(all, minimum))
    }

    constructor (tenantId: string)
      ensures Valid() && all == [] && this.tenantId == tenantId
    {
      this.tenantId := tenantId;
      records, latest, minimum, all := map[], 0, 1, [];
    }

    // All of the inputs are numbered and stored, or none.
    method Append(inputs: seq<Input>) returns (ok: bool)
      requires Valid()
      modifies this
      ensures Valid() && minimum == old(minimum)
      ensures ok <==> inputs == [] || old(latest) + |inputs| <= U64_MAX
      ensures !ok ==> all == old(all)
      ensures ok ==> old(all) <= all && |all| == |old(all)| + |inputs|
      ensures ok ==> forall i :: 0 <= i < |inputs| ==>
                all[old(latest) + i] == Event(old(latest) + 1 + i, tenantId, inputs[i].eventType, inputs[i].occurredAt,
                                              inputs[i].data)
    {
      if inputs == [] {
        return true;
      }
      var events: seq<Event> := [];
      while |events| < |inputs|
        invariant |events| <= |inputs| && latest + |events| <= U64_MAX
        invariant forall i :: 0 <= i < |events| ==>
                    events[i] == Event(latest + 1 + i, tenantId, inputs[i].eventType, inputs[i].occurredAt, inputs[i].data)
      {
        var n, input := |events|, inputs[|events|];
        if latest as int + 1 + n > U64_MAX {
          return false;
        }
        events := events + [Event(latest + 1 + n, tenantId, input.eventType, input.occurredAt, input.data)];
      }
      Store(events);
      return true;
    }

    // One atomic write of the records and the latest sequence.
    method Store(events: seq<Event>)
      requires Valid() && latest + |events| <= U64_MAX
      requires forall i :: 0 <= i < |events| ==> events[i].sequence == latest + 1 + i
      modifies this
      ensures Valid() && minimum == old(minimum) && all == old(all) + events
    {
      var written := records;
      for i := 0 to |events|
        invariant Stores(written, Log(all + events[..i], minimum))
      {
        written := written[events[i].sequence as int := Record(events[i])];
        assert all + events[..i + 1] == all + events[..i] + [events[i]];
      }
      assert events[..|events|] == events;
      records, latest, all := written, latest + |events|, all + events;
    }
  
    // Removes the oldest records, up to `maximum` of them, that are older than `cutoff` and that every consumer has read.
    method Prune(cutoff: nat, maximum: nat, projector: Option<nat>, webhooks: seq<nat>) returns (removed: nat)
      requires Valid()
      modifies this
      ensures all == old(all) && latest == old(latest) && removed <= maximum
      ensures old(minimum) - 1 + removed <= |all|
      ensures forall i :: old(minimum) - 1 <= i < old(minimum) - 1 + removed ==> all[i].occurredAt < cutoff
      ensures removed > 0 ==> old(minimum) + removed - 1 <= Slowest(latest, projector, webhooks)
      ensures removed == maximum || old(minimum) + removed > Slowest(latest, projector, webhooks)
              || all[old(minimum) + removed - 1].occurredAt >= cutoff
      ensures latest < U64_MAX ==> Valid() && minimum == old(minimum) + removed
      ensures forall c :: c in webhooks && old(minimum) <= c + 1 ==> minimum <= c + 1
      ensures projector.Some? && old(minimum) <= projector.value + 1 ==> minimum <= projector.value + 1
    {
      removed := 0;
      if maximum == 0 {
        return;
      }
      var safe := Slowest(latest, projector, webhooks);
      if minimum > safe {
        return;
      }
      var end := Min(safe, SaturatingAdd(minimum, maximum - 1));
      while minimum + removed <= end
        invariant removed <= maximum && minimum + removed <= end + 1
        invariant forall i :: minimum - 1 <= i < minimum - 1 + removed ==> all[i].occurredAt < cutoff
      {
        if records[(minimum + removed) as int].event.occurredAt >= cutoff {
          break;
        }
        removed := removed + 1;
      }
      if removed > 0 {
        records := map k: int | k in records && !(minimum <= k < minimum + removed) :: records[k];
        minimum := SaturatingAdd(minimum + removed - 1, 1);
      }
    }
  }
}
