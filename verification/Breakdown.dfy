// The failure breakdown: src/analytics_rpc.rs.

module Breakdown {
  import opened Numbers
  import opened Buckets
  import opened Aggregate

  function Failures(b: TelemetryBucket): seq<FailureCount> {
    if b.authentication.Some? then b.authentication.value.failureClasses else []
  }

  function OfClass(c: i32): FailureCount -> nat {
    (f: FailureCount) => if f.failureClass == c then f.count else 0
  }

  function ClassCount(failures: seq<FailureCount>, c: i32): nat {
    Sum(failures, OfClass(c))
  }

  function InClass(c: i32): TelemetryBucket -> nat {
    (b: TelemetryBucket) => ClassCount(Failures(b), c)
  }

  // The failures of one class over all buckets.
  function ClassTotal(records: seq<TelemetryBucket>, c: i32): nat {
    Sum(records, InClass(c))
  }

  function InAll(): TelemetryBucket -> nat {
    (b: TelemetryBucket) => FailureTotal(Failures(b))
  }

  function Lookup(counts: map<i32, nat>, c: i32): nat {
    if c in counts then counts[c] else 0
  }

  lemma {:induction false} ClassAtMostTotal(failures: seq<FailureCount>, c: i32)
    ensures ClassCount(failures, c) <= FailureTotal(failures)
  {
    if failures != [] {
      ClassAtMostTotal(failures[..|failures| - 1], c);
    }
  }

  // Adds the classes of one bucket; fails exactly when the grand total leaves 64 bits.
  method AddFailures(counts: map<i32, nat>, total: nat, failures: seq<FailureCount>) returns (r: Option<(map<i32, nat>, nat)>)
    requires total <= U64_MAX && forall c :: Lookup(counts, c) <= total
    ensures r.Some? <==> total + FailureTotal(failures) <= U64_MAX
    ensures r.Some? ==> r.value.1 == total + FailureTotal(failures)
    ensures r.Some? ==> forall c :: Lookup(r.value.0, c) == Lookup(counts, c) + ClassCount(failures, c)
  {
    var sums: map<i32, nat>, all: nat := counts, total;
    for i := 0 to |failures|
      invariant all == total + FailureTotal(failures[..i]) <= U64_MAX
      invariant forall c :: Lookup(sums, c) == Lookup(counts, c) + ClassCount(failures[..i], c)
    {
      var f := failures[i];
      ghost var before := sums;
      assert failures[..i + 1][..i] == failures[..i];
      ClassAtMostTotal(failures[..i], f.failureClass);
      SumOfPrefix(failures, i + 1, (f: FailureCount) => f.count);
      if all + f.count > U64_MAX {
        return None;
      }
      sums := sums[f.failureClass := Lookup(sums, f.failureClass) + f.count];
      all := all + f.count;
      forall c
        ensures Lookup(sums, c) == Lookup(counts, c) + ClassCount(failures[..i + 1], c)
      {
        assert Lookup(before, c) == Lookup(counts, c) + ClassCount(failures[..i], c);
      }
    }
    assert failures[..|failures|] == failures;
    return Some((sums, all));
  }

  method FailureBreakdown(records: seq<TelemetryBucket>) returns (r: Option<(map<i32, nat>, nat)>)
    ensures r.Some? <==> Sum(records, InAll()) <= U64_MAX
    ensures r.Some? ==> r.value.1 == Sum(records, InAll()) && forall c :: Lookup(r.value.0, c) == ClassTotal(records, c)
  {
    var counts: map<i32, nat>, total: nat := map[], 0;
    for i := 0 to |records|
      invariant total == Sum(records[..i], InAll()) <= U64_MAX
      invariant forall c :: Lookup(counts, c) == ClassTotal(records[..i], c)
    {
      forall c
        ensures Lookup(counts, c) <= total
      {
        ClassesAtMost(records[..i], c);
      }
      SumOfPrefix(records, i + 1, InAll());
      assert records[..i + 1][..i] == records[..i];
      var next := AddFailures(counts, total, Failures(records[i]));
      if next.None? {
        return None;
      }
      ghost var before := counts;
      counts, total := next.value.0, next.value.1;
      forall c
        ensures Lookup(counts, c) == ClassTotal(records[..i + 1], c)
      {
        assert Lookup(before, c) == ClassTotal(records[..i], c);
      }
    }
    assert records[..|records|] == records;
    return Some((counts, total));
  }

  lemma {:induction false} ClassesAtMost(records: seq<TelemetryBucket>, c: i32)
    ensures ClassTotal(records, c) <= Sum(records, InAll())
  {
    if records != [] {
      ClassesAtMost(records[..|records| - 1], c);
      ClassAtMostTotal(Failures(records[|records| - 1]), c);
    }
  }

  // Over valid buckets the breakdown accounts for exactly the failures and denials of the aggregate, and for no class
  // that is not named.
  lemma {:induction false} BreakdownIsComplete(records: seq<TelemetryBucket>)
    requires AllValid(records)
    ensures Sum(records, InAll()) == Total(records, 2) + Total(records, 3)
    ensures forall c: i32 :: !(1 <= c <= 9) ==> ClassTotal(records, c) == 0
  {
    if records != [] {
      var init, b := records[..|records| - 1], records[|records| - 1];
      BreakdownIsComplete(init);
      assert ValidBucket(b);
      forall c: i32 | !(1 <= c <= 9)
        ensures ClassTotal(records, c) == 0
      {
        ZeroSum(Failures(b), OfClass(c));
        assert ClassTotal(init, c) == 0;
      }
    }
  }
}
