// Page tokens and paged listings: src/organization_rpc.rs and src/fleet_rpc.rs.

module Paging {
  import opened Numbers
  import opened Base64Url

  const DEFAULT_PAGE_SIZE: nat := 25
  const MAX_PAGE_SIZE: nat := 100
  const PAGE_TOKEN_LENGTH: nat := 22

  // ------------------------------------------------------------ identifiers

  // Sixteen bytes, ordered byte by byte.
  type Id = seq<byte>

  const NIL: Id := [0, 0, 0, 0, 0, 0, 0, 0, 0, 0, 0, 0, 0, 0, 0, 0]

  predicate Below(a: Id, b: Id) {
    a != [] && b != [] && (a[0] < b[0] || (a[0] == b[0] && Below(a[1..], b[1..])))
  }

  lemma {:induction false} BelowIsTransitive(a: Id, b: Id, c: Id)
    requires Below(a, b) && Below(b, c)
    ensures Below(a, c)
  {
    if a[0] == b[0] == c[0] {
      BelowIsTransitive(a[1..], b[1..], c[1..]);
    }
  }

  lemma {:induction false} BelowIsTotal(a: Id, b: Id)
    requires |a| == |b|
    ensures Below(a, b) || Below(b, a) || a == b
    ensures Below(a, b) ==> !Below(b, a) && a != b
  {
    if a != [] {
      BelowIsTotal(a[1..], b[1..]);
      assert a == [a[0]] + a[1..] && b == [b[0]] + b[1..];
    }
  }

  // Nil comes before every other identifier.
  lemma {:induction false} ZerosAreLeast(zeros: Id, id: Id)
    requires |zeros| == |id| && zeros != id && forall i :: 0 <= i < |zeros| ==> zeros[i] == 0
    ensures Below(zeros, id)
  {
    if id[0] == 0 {
      assert zeros == [zeros[0]] + zeros[1..] && id == [id[0]] + id[1..];
      ZerosAreLeast(zeros[1..], id[1..]);
    }
  }

  lemma NilIsLeast(id: Id)
    requires |id| == 16 && id != NIL
    ensures Below(NIL, id) && !Below(id, NIL)
  {
    ZerosAreLeast(NIL, id);
    BelowIsTotal(NIL, id);
  }

  // ------------------------------------------------------------ tokens

  datatype Decoded = NoCursor | Cursor(id: Id) | Invalid

  // The organization service pins a token to the one encoding of an identifier that is not nil.
  function DecodeOrganizationToken(token: string): Decoded {
    if token == "" then NoCursor
    else if |token| != PAGE_TOKEN_LENGTH then Invalid
    else
      var bytes := Decode(token);
      if bytes.None? || |bytes.value| != 16 || Encode(bytes.value) != token || bytes.value == NIL then Invalid
      else Cursor(bytes.value)
  }

  // The fleet service takes whatever decodes.
  function DecodeFleetToken(token: string): Decoded {
    if token == "" then NoCursor
    else if |token| != PAGE_TOKEN_LENGTH then Invalid
    else
      var bytes := Decode(token);
      if bytes.None? || |bytes.value| != 16 then Invalid else Cursor(bytes.value)
  }

  datatype Service = Organization | Fleet

  function DecodeToken(service: Service, token: string): Decoded {
    if service.Organization? then DecodeOrganizationToken(token) else DecodeFleetToken(token)
  }

  // The identifiers that can be a cursor.
  predicate Pageable(service: Service, id: Id) {
    |id| == 16 && (service.Organization? ==> id != NIL)
  }

  // Both services accept a token exactly when it is one they would issue, and take it for the same cursor.
  lemma TokensExactly(service: Service, token: string, id: Id)
    ensures DecodeToken(service, token) == Cursor(id) <==> Pageable(service, id) && token == Encode(id)
  {
    DecodesExactly(token, id);
    LengthOfEncode(id);
    if Decode(token).Some? {
      DecodesExactly(token, Decode(token).value);
    }
  }

  // ------------------------------------------------------------ a page

  datatype Item = Item(id: Id, body: string)

  predicate After(after: Decoded, id: Id) {
    after.Cursor? ==> Below(after.id, id)
  }

  function Retain(records: seq<Item>, after: Decoded): seq<Item> {
    if records == [] then []
    else
      var rest := Retain(records[..|records| - 1], after);
      if After(after, records[|records| - 1].id) then rest + [records[|records| - 1]] else rest
  }

  function Insert(x: Item, s: seq<Item>): seq<Item> {
    if s == [] || Below(x.id, s[0].id) then [x] + s else [s[0]] + Insert(x, s[1..])
  }

  function Sort(s: seq<Item>): seq<Item> {
    if s == [] then [] else Insert(s[0], Sort(s[1..]))
  }

  // A stretch of a listing; when there is more, the next one starts after its last item.
  datatype Slice = Slice(items: seq<Item>, more: bool)

  function SliceAfter(records: seq<Item>, after: Decoded, size: nat): Slice {
    var rest := Sort(Retain(records, after));
    if |rest| > size then Slice(rest[..size], true) else Slice(rest, false)
  }

  // ------------------------------------------------------------ sorting

  ghost predicate Ascending(s: seq<Item>) {
    forall i, j :: 0 <= i < j < |s| ==> Below(s[i].id, s[j].id)
  }

  // A collection of stored records: one per identifier.
  ghost predicate Keyed(service: Service, s: seq<Item>) {
    && (forall x :: x in s ==> Pageable(service, x.id))
    && (forall i, j :: 0 <= i < j < |s| ==> s[i].id != s[j].id)
  }

  ghost predicate Alike(a: seq<Item>, b: seq<Item>) {
    forall x :: x in a <==> x in b
  }

  lemma {:induction false} InsertAscends(x: Item, s: seq<Item>)
    requires Ascending(s) && |x.id| == 16 && forall y :: y in s ==> |y.id| == 16 && y.id != x.id
    ensures Ascending(Insert(x, s)) && Alike(Insert(x, s), [x] + s)
  {
    if s == [] {
    } else if Below(x.id, s[0].id) {
      forall j | 0 < j < |s|
        ensures Below(x.id, s[j].id)
      {
        BelowIsTransitive(x.id, s[0].id, s[j].id);
      }
    } else {
      assert s[0] in s;
      BelowIsTotal(x.id, s[0].id);
      InsertAscends(x, s[1..]);
      assert s == [s[0]] + s[1..];
      forall y | y in Insert(x, s[1..])
        ensures Below(s[0].id, y.id)
      {
        assert y in [x] + s[1..];
      }
    }
  }

  lemma {:induction false} SortAscends(service: Service, s: seq<Item>)
    requires Keyed(service, s)
    ensures Ascending(Sort(s)) && Alike(Sort(s), s)
  {
    if s != [] {
      assert s == [s[0]] + s[1..] && s[0] in s;
      SortAscends(service, s[1..]);
      forall y | y in Sort(s[1..])
        ensures |y.id| == 16 && y.id != s[0].id
      {
        assert y in s[1..];
        var i :| 0 <= i < |s[1..]| && s[1..][i] == y;
        assert s[i + 1] == y;
      }
      InsertAscends(s[0], Sort(s[1..]));
    }
  }

  lemma {:induction false} RetainExactly(service: Service, records: seq<Item>, after: Decoded)
    requires Keyed(service, records)
    ensures Keyed(service, Retain(records, after))
    ensures forall x :: x in Retain(records, after) <==> x in records && After(after, x.id)
  {
    if records != [] {
      var init, last := records[..|records| - 1], records[|records| - 1];
      assert records == init + [last] && last in records;
      RetainExactly(service, init, after);
      forall x | x in Retain(init, after)
        ensures x.id != last.id
      {
        assert x in init;
      }
    }
  }

  // What is left after the cursor, in order.
  lemma RestExactly(service: Service, records: seq<Item>, after: Decoded, rest: seq<Item>)
    requires Keyed(service, records) && rest == Sort(Retain(records, after))
    ensures Ascending(rest) && forall x :: x in rest <==> x in records && After(after, x.id)
  {
    RetainExactly(service, records, after);
    SortAscends(service, Retain(records, after));
  }

  // A slice holds, in order, the records after the cursor up to the last one it shows, and all of them when it is the
  // last slice.
  lemma SliceExactly(service: Service, records: seq<Item>, after: Decoded, size: nat, slice: Slice)
    requires Keyed(service, records) && size > 0 && slice == SliceAfter(records, after, size)
    ensures Ascending(slice.items) && (slice.more ==> |slice.items| == size)
    ensures !slice.more ==> forall x :: x in slice.items <==> x in records && After(after, x.id)
    ensures slice.more ==>
              forall x :: x in slice.items <==>
                (x in records && After(after, x.id) && !Below(slice.items[size - 1].id, x.id))
  {
    var rest := Sort(Retain(records, after));
    RestExactly(service, records, after, rest);
    if |rest| > size {
      forall x
        ensures x in slice.items <==> x in rest && !Below(rest[size - 1].id, x.id)
      {
        SplitAt(rest, size, x);
      }
    }
  }

  lemma SplitAt(s: seq<Item>, n: nat, x: Item)
    requires Ascending(s) && 0 < n <= |s| && forall y :: y in s ==> |y.id| == 16
    ensures x in s[..n] <==> x in s && !Below(s[n - 1].id, x.id)
  {
    if x in s {
      var i :| 0 <= i < |s| && s[i] == x;
      assert s[i] in s && s[n - 1] in s;
      BelowIsTotal(s[n - 1].id, x.id);
      if i < n {
        assert s[..n][i] == x;
        assert i < n - 1 ==> Below(s[i].id, s[n - 1].id);
        BelowIsTotal(s[i].id, s[n - 1].id);
      } else {
        forall j | 0 <= j < n
          ensures s[j] != x
        {
          assert j < i ==> Below(s[j].id, s[i].id);
          BelowIsTotal(s[j].id, s[i].id);
        }
      }
    }
  }

  // ------------------------------------------------------------ page after page

  // What has been collected so far; the next slice starts after the last of it.
  datatype Walk = Walk(items: seq<Item>, done: bool)

  function Reached(w: Walk): Decoded {
    if w.items == [] then NoCursor else Cursor(w.items[|w.items| - 1].id)
  }

  function Advance(w: Walk, records: seq<Item>, size: nat): Walk {
    if w.done then w
    else
      var slice := SliceAfter(records, Reached(w), size);
      Walk(w.items + slice.items, !slice.more)
  }

  // Each page is asked of the records as they are at the time.
  function Collect(snapshots: seq<seq<Item>>, size: nat): Walk {
    if snapshots == [] then Walk([], false)
    else Advance(Collect(snapshots[..|snapshots| - 1], size), snapshots[|snapshots| - 1], size)
  }

  ghost predicate Throughout(snapshots: seq<seq<Item>>, x: Item) {
    forall i :: 0 <= i < |snapshots| ==> x in snapshots[i]
  }

  ghost predicate Steady(service: Service, w: Walk) {
    Ascending(w.items) && forall x :: x in w.items ==> Pageable(service, x.id)
  }

  // A record has been collected, or is still to come.
  ghost predicate Covered(w: Walk, x: Item) {
    x in w.items || (!w.done && After(Reached(w), x.id))
  }

  lemma AdvanceKeeps(service: Service, w: Walk, records: seq<Item>, size: nat)
    requires Steady(service, w) && Keyed(service, records) && size > 0
    ensures Steady(service, Advance(w, records, size))
    ensures forall x :: Covered(w, x) && x in records ==> Covered(Advance(w, records, size), x)
  {
    if !w.done {
      var slice := SliceAfter(records, Reached(w), size);
      SliceExactly(service, records, Reached(w), size, slice);
      AscendingConcat(w.items, slice.items);
      if slice.more {
        forall x | Covered(w, x) && x in records
          ensures Covered(Advance(w, records, size), x)
        {
          assert x in slice.items || Below(slice.items[size - 1].id, x.id) || x in w.items;
        }
      }
    }
  }

  lemma AscendingConcat(a: seq<Item>, b: seq<Item>)
    requires Ascending(a) && Ascending(b)
    requires a != [] ==> forall x :: x in b ==> Below(a[|a| - 1].id, x.id)
    ensures Ascending(a + b)
  {
    forall i, j | 0 <= i < |a| && 0 <= j < |b|
      ensures Below(a[i].id, b[j].id)
    {
      assert b[j] in b;
      if i < |a| - 1 {
        BelowIsTransitive(a[i].id, a[|a| - 1].id, b[j].id);
      }
    }
  }

  // Records come and go between pages. Nothing is collected twice, and a record that was there throughout has been
  // collected when the last page has come.
  lemma {:induction false} WalkIsComplete(service: Service, snapshots: seq<seq<Item>>, size: nat)
    requires size > 0 && forall i :: 0 <= i < |snapshots| ==> Keyed(service, snapshots[i])
    ensures Steady(service, Collect(snapshots, size))
    ensures forall x :: Throughout(snapshots, x) ==> Covered(Collect(snapshots, size), x)
  {
    if snapshots != [] {
      var rest, records := snapshots[..|snapshots| - 1], snapshots[|snapshots| - 1];
      WalkIsComplete(service, rest, size);
      AdvanceKeeps(service, Collect(rest, size), records, size);
      forall x | Throughout(snapshots, x)
        ensures Covered(Collect(snapshots, size), x)
      {
        assert Throughout(rest, x) && x in records;
      }
    }
  }

  lemma {:induction false} AscendingUnique(a: seq<Item>, b: seq<Item>)
    requires Ascending(a) && Ascending(b) && Alike(a, b) && forall x :: x in a ==> |x.id| == 16
    ensures a == b
  {
    assert (a != [] ==> a[0] in b) && (b != [] ==> b[0] in a);
    if a != [] && b != [] {
      assert a[0] in b && b[0] in a;
      BelowIsTotal(a[0].id, b[0].id);
      assert a[0] == b[0];
      forall x
        ensures x in a[1..] <==> x in b[1..]
      {
        TailExactly(a, x);
        TailExactly(b, x);
      }
      AscendingUnique(a[1..], b[1..]);
    }
  }

  lemma TailExactly(s: seq<Item>, x: Item)
    requires s != [] && Ascending(s) && forall y :: y in s ==> |y.id| == 16
    ensures x in s[1..] <==> x in s && x != s[0]
  {
    assert s == [s[0]] + s[1..];
    BelowIsTotal(s[0].id, s[0].id);
    assert x in s[1..] ==> Below(s[0].id, x.id);
  }

  // What a cursor in a sorted collection leaves is the rest of it.
  lemma RestIsSuffix(service: Service, records: seq<Item>, m: nat)
    requires Keyed(service, records) && 0 < m <= |Sort(records)|
    ensures Sort(Retain(records, Cursor(Sort(records)[m - 1].id))) == Sort(records)[m..]
  {
    var sorted := Sort(records);
    SortAscends(service, records);
    var rest := Sort(Retain(records, Cursor(sorted[m - 1].id)));
    RestExactly(service, records, Cursor(sorted[m - 1].id), rest);
    forall x
      ensures x in rest <==> x in sorted[m..]
    {
      SplitAt(sorted, m, x);
      SuffixExactly(sorted, m, x);
    }
    AscendingUnique(rest, sorted[m..]);
  }

  lemma SuffixExactly(s: seq<Item>, m: nat, x: Item)
    requires Ascending(s) && 0 < m <= |s| && forall y :: y in s ==> |y.id| == 16
    ensures x in s[m..] <==> x in s && Below(s[m - 1].id, x.id)
  {
    SplitAt(s, m, x);
    assert s == s[..m] + s[m..];
    assert x in s[m..] ==> Below(s[m - 1].id, x.id);
  }

  function Still(records: seq<Item>, k: nat): seq<seq<Item>> {
    if k == 0 then [] else Still(records, k - 1) + [records]
  }

  lemma NoneRetained(records: seq<Item>)
    ensures Retain(records, NoCursor) == records
  {
  }

  lemma StillRest(service: Service, records: seq<Item>, sorted: seq<Item>, after: Decoded, m: nat)
    requires Keyed(service, records) && sorted == Sort(records) && m <= |sorted|
    requires after == if m == 0 then NoCursor else Cursor(sorted[m - 1].id)
    ensures Sort(Retain(records, after)) == sorted[m..]
  {
    if m == 0 {
      NoneRetained(records);
    } else {
      RestIsSuffix(service, records, m);
    }
  }

  lemma StillNext(service: Service, records: seq<Item>, sorted: seq<Item>, size: nat, w: Walk, m: nat)
    requires Keyed(service, records) && sorted == Sort(records) && m <= |sorted| && !w.done && w.items == sorted[..m]
    ensures Advance(w, records, size) == Walk(sorted[..Min(|sorted|, m + size)], m + size >= |sorted|)
  {
    StillRest(service, records, sorted, Reached(w), m);
    if m + size < |sorted| {
      assert sorted[m..][..size] == sorted[m..m + size];
      NextShown(sorted, m, m + size);
    } else {
      NextShown(sorted, m, |sorted|);
    }
  }

  // Over records that stand still, k pages show the first k pages' worth of the sorted collection, and the walk ends
  // with the page that reaches its end.
  lemma {:induction false} WalkOfStillRecords(service: Service, records: seq<Item>, sorted: seq<Item>, size: nat,
                                              k: nat, shown: nat)
    requires Keyed(service, records) && sorted == Sort(records) && size > 0 && shown == k * size
    ensures Collect(Still(records, k), size)
         == Walk(sorted[..Min(|sorted|, shown)], k > 0 && shown >= |sorted|)
  {
    if k > 0 {
      var m := shown - size;
      assert m == (k - 1) * size;
      WalkOfStillRecords(service, records, sorted, size, k - 1, m);
      assert Still(records, k)[..|Still(records, k)| - 1] == Still(records, k - 1);
      var w := Collect(Still(records, k - 1), size);
      if !w.done {
        StillNext(service, records, sorted, size, w, m);
      }
    }
  }

  lemma NextShown(sorted: seq<Item>, m: nat, end: nat)
    requires m <= end <= |sorted|
    ensures sorted[..m] + sorted[m..end] == sorted[..end]
  {
  }

  // ------------------------------------------------------------ the calls and their tokens

  datatype Page = Page(items: seq<Item>, token: string) | Refused

  function PageSize(requested: nat): Option<nat> {
    if requested == 0 then Some(DEFAULT_PAGE_SIZE) else if requested <= MAX_PAGE_SIZE then Some(requested) else None
  }

  function TokenFor(slice: Slice): string {
    if slice.more && slice.items != [] then Encode(slice.items[|slice.items| - 1].id) else ""
  }

  function ListPage(service: Service, records: seq<Item>, token: string, requested: nat): Page {
    var after, size := DecodeToken(service, token), PageSize(requested);
    if after.Invalid? || size.None? then Refused
    else
      var slice := SliceAfter(records, after, size.value);
      Page(slice.items, TokenFor(slice))
  }

  // A page is refused exactly when more than a hundred items are asked for, or the token is neither empty nor one that
  // could have been issued; and it has no more items than asked for, twenty-five when that is left open.
  lemma PagesExactly(service: Service, records: seq<Item>, token: string, requested: nat, page: Page)
    requires page == ListPage(service, records, token, requested)
    ensures page.Refused? <==> requested > 100 || (token != "" && forall id :: Pageable(service, id) ==> token != Encode(id))
    ensures page.Page? ==> |page.items| <= if requested == 0 then 25 else requested
  {
    forall id
      ensures DecodeToken(service, token) == Cursor(id) <==> Pageable(service, id) && token == Encode(id)
    {
      TokensExactly(service, token, id);
    }
    if DecodeToken(service, token).Cursor? {
      assert DecodeToken(service, token) == Cursor(DecodeToken(service, token).id);
    }
  }

  // A client that asks again with each token it is given, until it is given none.
  datatype Client = Client(items: seq<Item>, token: string, done: bool, refused: bool)

  function Follow(service: Service, snapshots: seq<seq<Item>>, requested: nat): Client {
    if snapshots == [] then Client([], "", false, false)
    else
      var c := Follow(service, snapshots[..|snapshots| - 1], requested);
      if c.done || c.refused then c
      else
        var page := ListPage(service, snapshots[|snapshots| - 1], c.token, requested);
        if page.Refused? then c.(refused := true) else Client(c.items + page.items, page.token, page.token == "", false)
  }

  // The tokens carry the walk: no page is refused, and the client collects what the walk does.
  lemma {:induction false} TokensCarryTheWalk(service: Service, snapshots: seq<seq<Item>>, requested: nat, size: nat)
    requires PageSize(requested) == Some(size) && forall i :: 0 <= i < |snapshots| ==> Keyed(service, snapshots[i])
    ensures var c, w := Follow(service, snapshots, requested), Collect(snapshots, size);
            c.items == w.items && c.done == w.done && !c.refused
            && (!w.done ==> DecodeToken(service, c.token) == Reached(w))
  {
    if snapshots != [] {
      var rest, records := snapshots[..|snapshots| - 1], snapshots[|snapshots| - 1];
      TokensCarryTheWalk(service, rest, requested, size);
      WalkIsComplete(service, snapshots, size);
      var w := Collect(rest, size);
      if !w.done {
        TokenOfSlice(service, records, Reached(w), size);
      }
    }
  }

  lemma TokenOfSlice(service: Service, records: seq<Item>, after: Decoded, size: nat)
    requires Keyed(service, records) && size > 0
    ensures var slice := SliceAfter(records, after, size);
            (TokenFor(slice) == "" <==> !slice.more)
            && (slice.more ==> slice.items != []
                               && DecodeToken(service, TokenFor(slice)) == Cursor(slice.items[|slice.items| - 1].id))
  {
    var slice := SliceAfter(records, after, size);
    SliceExactly(service, records, after, size, slice);
    if slice.more {
      var last := slice.items[size - 1];
      assert last in slice.items;
      LengthOfEncode(last.id);
      TokensExactly(service, TokenFor(slice), last.id);
    }
  }
}
