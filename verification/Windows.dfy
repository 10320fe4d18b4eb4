// Buckets kept by window, whatever they hold: `step` takes one more event into a bucket, `make` opens one, and `good`
// says that a bucket stands for some events.
module Windows {
  import opened Numbers
  import opened Projector

  function InWindow(es: seq<Entry>, start: nat): seq<Entry> {
    if es == [] then []
    else
      var rest, x := InWindow(es[..|es| - 1], start), es[|es| - 1];
      if Window(x.event) == start then rest + [x] else rest
  }

  lemma InWindowStep(es: seq<Entry>, x: Entry, start: nat)
    ensures InWindow(es + [x], start) == if Window(x.event) == start then InWindow(es, start) + [x] else InWindow(es, start)
  {
    assert (es + [x])[..|es|] == es;
  }

  lemma {:induction false} InWindowShort(es: seq<Entry>, start: nat)
    ensures |InWindow(es, start)| <= |es|
  {
    if es != [] {
      InWindowShort(es[..|es| - 1], start);
    }
  }

  function Current<B>(make: nat -> B, buckets: map<nat, B>, touched: map<nat, B>, start: nat): B {
    if start in touched then touched[start] else if start in buckets then buckets[start] else make(start)
  }

  function Touch<B>(step: (B, Entry) -> B, make: nat -> B, buckets: map<nat, B>, batch: seq<Entry>): map<nat, B> {
    if batch == [] then map[]
    else
      var touched, x := Touch(step, make, buckets, batch[..|batch| - 1]), batch[|batch| - 1];
      touched[Window(x.event) := step(Current(make, buckets, touched, Window(x.event)), x)]
  }

  ghost predicate Makes<B(!new)>(make: nat -> B, good: (nat, B, seq<Entry>) -> bool) {
    forall x: Entry, none: seq<Entry> :: none == [] ==> good(Window(x.event), make(Window(x.event)), none)
  }

  ghost predicate Steps<B(!new)>(step: (B, Entry) -> B, good: (nat, B, seq<Entry>) -> bool) {
    forall b, mine, x: Entry :: good(Window(x.event), b, mine) && |mine| < U64_MAX && x.sequence > 0 ==>
      good(Window(x.event), step(b, x), mine + [x])
  }

  ghost predicate Keeps<B(!new)>(step: (B, Entry) -> B, make: nat -> B, good: (nat, B, seq<Entry>) -> bool) {
    Makes(make, good) && Steps(step, good)
  }

  // There is a bucket for each window with an event, and it stands for exactly the events of its window.
  ghost predicate Holds<B>(good: (nat, B, seq<Entry>) -> bool, buckets: map<nat, B>, es: seq<Entry>) {
    && (forall start :: start in buckets <==> InWindow(es, start) != [])
    && (forall start :: start in buckets ==> good(start, buckets[start], InWindow(es, start)))
  }

  ghost predicate Sequenced(es: seq<Entry>) {
    forall i :: 0 <= i < |es| ==> es[i].sequence > 0
  }

  // One more event, into the bucket of its window.
  lemma TouchStep<B(!new)>(step: (B, Entry) -> B, make: nat -> B, good: (nat, B, seq<Entry>) -> bool, all: map<nat, B>,
                           es: seq<Entry>, x: Entry)
    requires Keeps(step, make, good) && Holds(good, all, es) && |es| < U64_MAX && x.sequence > 0
    ensures var start := Window(x.event);
            Holds(good, all[start := step(if start in all then all[start] else make(start), x)], es + [x])
  {
    var start := Window(x.event);
    InWindowShort(es, start);
    var before := if start in all then all[start] else make(start);
    var after := all[start := step(before, x)];
    assert good(start, before, InWindow(es, start));
    assert good(start, step(before, x), InWindow(es, start) + [x]);
    forall w
      ensures w in after <==> InWindow(es + [x], w) != []
      ensures w in after ==> good(w, after[w], InWindow(es + [x], w))
    {
      InWindowStep(es, x, w);
    }
  }

  lemma {:induction false} TouchHolds<B(!new)>(step: (B, Entry) -> B, make: nat -> B, good: (nat, B, seq<Entry>) -> bool,
                                              buckets: map<nat, B>, seen: seq<Entry>, batch: seq<Entry>)
    requires Keeps(step, make, good) && Holds(good, buckets, seen) && |seen| + |batch| <= U64_MAX && Sequenced(batch)
    ensures Holds(good, buckets + Touch(step, make, buckets, batch), seen + batch)
  {
    if batch == [] {
      assert buckets + map[] == buckets && seen + [] == seen;
    } else {
      var init, x := batch[..|batch| - 1], batch[|batch| - 1];
      TouchHolds(step, make, good, buckets, seen, init);
      var touched, start := Touch(step, make, buckets, init), Window(x.event);
      TouchStep(step, make, good, buckets + touched, seen + init, x);
      assert seen + batch == seen + init + [x];
      var after := step(Current(make, buckets, touched, start), x);
      assert buckets + touched[start := after] == (buckets + touched)[start := after];
    }
  }
}
