// Signed bucket archives: src/analytics_archive.rs, and the manifest contract in src/analytics.rs.

module Archive {
  import opened Numbers
  import opened Buckets
  import opened Aggregate
  import opened Parquet

  type byte = x: int | 0 <= x < 256

  const MAX_ARCHIVE_ROWS: nat := 1_000_000
  const MAX_ARCHIVE_BYTES: nat := 5_368_709_120
  const MAX_BUCKETS_PER_BATCH: nat := 288
  const MAX_BATCH_WIRE_BYTES: nat := 262_144
  const ZSTD: i32 := 1

  datatype Manifest = Manifest(
    manifestSchema: nat, metricSchema: i32, manifestId: string, realmId: string, assignmentEpoch: u64, objectKey: string,
    sha256: seq<byte>, byteLength: nat, rowCount: nat, minimumStart: i64, maximumStart: i64, firstSequence: u64,
    lastSequence: u64, compression: i32, createdAt: int, signingKeyId: string, signature: seq<byte>, unknown: Unknown)

  // The Parquet file format, SHA-256, P-256, the wire encoding and the checks of names.
  datatype Libraries = Libraries(
    write: seq<Row> -> Option<seq<byte>>, read: seq<byte> -> Option<seq<Row>>, digest: seq<byte> -> seq<byte>,
    encode: Manifest -> seq<byte>, sign: seq<byte> -> seq<byte>, verify: (seq<byte>, seq<byte>) -> bool,
    wireBytes: seq<TelemetryBucket> -> nat, validUuid: string -> bool, validObjectKey: string -> bool, validKeyId: string -> bool)

  // What they are trusted for.
  ghost predicate Sound(lib: Libraries) {
    && (forall rows: seq<Row> :: lib.write(rows).Some? ==> lib.read(lib.write(rows).value) == Some(rows))
    && (forall bytes: seq<byte> :: |lib.digest(bytes)| == 32)
    && (forall payload: seq<byte> :: |lib.sign(payload)| == 64 && lib.verify(payload, lib.sign(payload)))
  }

  // ------------------------------------------------------------ the manifest

  predicate ValidCore(lib: Libraries, m: Manifest) {
    && m.unknown == [] && m.manifestSchema == 1 && m.metricSchema == SCHEMA_V1 && lib.validUuid(m.manifestId)
    && ValidRealmId(m.realmId) && m.assignmentEpoch > 0 && lib.validObjectKey(m.objectKey) && |m.sha256| == 32
    && 1 <= m.byteLength <= MAX_ARCHIVE_BYTES && 1 <= m.rowCount <= MAX_ARCHIVE_ROWS
    && ValidStart(m.minimumStart) && ValidStart(m.maximumStart) && m.minimumStart <= m.maximumStart
    && ValidSequences(m.firstSequence, m.lastSequence) && m.compression == ZSTD && m.createdAt > 0
    && lib.validKeyId(m.signingKeyId)
  }

  // What a manifest says of the object, its names and itself.
  predicate Envelope(lib: Libraries, m: Manifest) {
    && m.unknown == [] && m.manifestSchema == 1 && lib.validUuid(m.manifestId) && lib.validObjectKey(m.objectKey)
    && lib.validKeyId(m.signingKeyId) && |m.sha256| == 32 && 1 <= m.byteLength <= MAX_ARCHIVE_BYTES
    && 1 <= m.rowCount <= MAX_ARCHIVE_ROWS && m.compression == ZSTD && m.createdAt > 0
  }

  // A bucket that starts then, with all that a manifest says of its rows.
  function Under(b: TelemetryBucket, m: Manifest, start: i64): TelemetryBucket {
    b.(realmId := m.realmId, assignmentEpoch := m.assignmentEpoch, start := start, schema := m.metricSchema,
       firstSequence := m.firstSequence, lastSequence := m.lastSequence)
  }

  // Of its rows a manifest may say exactly what a bucket may say of itself: the two contracts agree.
  lemma ManifestAgreesWithBuckets(lib: Libraries, m: Manifest, b: TelemetryBucket)
    requires ValidHeader(b)
    ensures ValidCore(lib, m) <==> Envelope(lib, m) && m.minimumStart <= m.maximumStart
                                   && ValidHeader(Under(b, m, m.minimumStart)) && ValidHeader(Under(b, m, m.maximumStart))
  {
  }

  function Ascii(text: string): seq<byte> {
    seq(|text|, i requires 0 <= i < |text| => text[i] as int % 256)
  }

  const DOMAIN: seq<byte> := Ascii("rustyauth.analytics.metric-bucket-manifest.v1\0")

  function Payload(lib: Libraries, m: Manifest): Option<seq<byte>> {
    if !ValidCore(lib, m) || !(m.signature == [] || |m.signature| == 64) then None
    else Some(DOMAIN + lib.encode(m.(signature := [])))
  }

  function Sign(lib: Libraries, m: Manifest): Option<Manifest> {
    var payload := Payload(lib, m.(signature := []));
    if payload.None? then None
    else
      var signed := m.(signature := lib.sign(payload.value));
      if ValidCore(lib, signed) && |signed.signature| == 64 then Some(signed) else None
  }

  predicate Verify(lib: Libraries, m: Manifest) {
    ValidCore(lib, m) && |m.signature| == 64 && Payload(lib, m).Some? && lib.verify(Payload(lib, m).value, m.signature)
  }

  // The payload does not depend on the signature, so whatever can be signed verifies.
  lemma SignedVerifies(lib: Libraries, m: Manifest)
    requires Sound(lib)
    ensures Sign(lib, m).Some? <==> ValidCore(lib, m)
    ensures Sign(lib, m).Some? ==> Verify(lib, Sign(lib, m).value)
  {
    var bare := m.(signature := []);
    if ValidCore(lib, m) {
      var payload := DOMAIN + lib.encode(bare);
      var signed := m.(signature := lib.sign(payload));
      assert signed.(signature := []) == bare;
      assert |lib.sign(payload)| == 64 && lib.verify(payload, lib.sign(payload));
      assert Payload(lib, bare) == Some(payload) && Payload(lib, signed) == Some(payload);
    }
  }

  // What a signature is for: it verifies nothing but what it was made of, and no two manifests have one encoding.
  ghost predicate Binding(lib: Libraries) {
    && (forall p: seq<byte>, q: seq<byte> :: lib.verify(p, lib.sign(q)) ==> p == q)
    && (forall m: Manifest, n: Manifest :: lib.encode(m) == lib.encode(n) ==> m == n)
  }

  // Under the signature of a manifest nothing verifies but that manifest as it was signed, field by field.
  lemma TamperingShows(lib: Libraries, m: Manifest, n: Manifest)
    requires Sound(lib) && Binding(lib) && ValidCore(lib, n) && m.signature == Sign(lib, n).value.signature
    ensures Verify(lib, m) <==> m == Sign(lib, n).value
  {
    SignedVerifies(lib, n);
    if Verify(lib, m) {
      var a, b := DOMAIN + lib.encode(m.(signature := [])), DOMAIN + lib.encode(n.(signature := []));
      assert lib.verify(a, lib.sign(b));
      assert a[|DOMAIN|..] == lib.encode(m.(signature := [])) && b[|DOMAIN|..] == lib.encode(n.(signature := []));
      assert m == m.(signature := []).(signature := m.signature);
    }
  }

  // A signature over anything that is not a manifest of this kind verifies no manifest.
  lemma ForeignSignatureIsRefused(lib: Libraries, m: Manifest, payload: seq<byte>)
    requires Binding(lib) && m.signature == lib.sign(payload) && !(DOMAIN <= payload)
    ensures !Verify(lib, m)
  {
  }

  // ------------------------------------------------------------ bounds of the rows

  function MinimumStart(bs: seq<TelemetryBucket>): i64
    requires bs != []
  {
    if |bs| == 1 then bs[0].start else Min(MinimumStart(bs[..|bs| - 1]), bs[|bs| - 1].start)
  }

  function MaximumStart(bs: seq<TelemetryBucket>): i64
    requires bs != []
  {
    if |bs| == 1 then bs[0].start else Max(MaximumStart(bs[..|bs| - 1]), bs[|bs| - 1].start)
  }

  // The least sequence that is not zero.
  function FirstSequence(bs: seq<TelemetryBucket>): u64 {
    if bs == [] then 0
    else
      var before, f := FirstSequence(bs[..|bs| - 1]), bs[|bs| - 1].firstSequence;
      if f == 0 then before else if before == 0 then f else Min(before, f)
  }

  function LastSequence(bs: seq<TelemetryBucket>): u64 {
    if bs == [] then 0 else Max(LastSequence(bs[..|bs| - 1]), bs[|bs| - 1].lastSequence)
  }

  ghost predicate StartsValid(bs: seq<TelemetryBucket>) {
    forall i :: 0 <= i < |bs| ==> ValidStart(bs[i].start)
  }

  ghost predicate SequencesValid(bs: seq<TelemetryBucket>) {
    forall i :: 0 <= i < |bs| ==> ValidSequences(bs[i].firstSequence, bs[i].lastSequence)
  }

  lemma HeadersAreValid(bs: seq<TelemetryBucket>)
    requires AllValid(bs)
    ensures StartsValid(bs) && SequencesValid(bs)
  {
  }

  lemma {:induction false} StartsAreValid(bs: seq<TelemetryBucket>)
    requires bs != [] && StartsValid(bs)
    ensures ValidStart(MinimumStart(bs)) && ValidStart(MaximumStart(bs)) && MinimumStart(bs) <= MaximumStart(bs)
  {
    if |bs| > 1 {
      StartsAreValid(bs[..|bs| - 1]);
    }
  }

  lemma {:induction false} SequencesAreValid(bs: seq<TelemetryBucket>)
    requires SequencesValid(bs)
    ensures ValidSequences(FirstSequence(bs), LastSequence(bs))
  {
    if bs != [] {
      SequencesAreValid(bs[..|bs| - 1]);
    }
  }

  // The bounds are those of the rows: each is that of some row, and no row is outside them.
  lemma {:induction false} StartsAreTight(bs: seq<TelemetryBucket>)
    requires bs != []
    ensures forall i :: 0 <= i < |bs| ==> MinimumStart(bs) <= bs[i].start <= MaximumStart(bs)
    ensures (exists i :: 0 <= i < |bs| && bs[i].start == MinimumStart(bs)) && exists i :: 0 <= i < |bs| && bs[i].start == MaximumStart(bs)
  {
    if |bs| > 1 {
      var init := bs[..|bs| - 1];
      StartsAreTight(init);
      var i :| 0 <= i < |init| && init[i].start == MinimumStart(init);
      var j :| 0 <= j < |init| && init[j].start == MaximumStart(init);
      assert bs[i] == init[i] && bs[j] == init[j];
      assert forall k :: 0 <= k < |init| ==> bs[k] == init[k];
    } else {
      assert bs[0].start == MinimumStart(bs) && bs[0].start == MaximumStart(bs);
    }
  }

  // Rows without events do not count towards the first sequence.
  lemma {:induction false} SequencesAreTight(bs: seq<TelemetryBucket>)
    ensures forall i :: 0 <= i < |bs| ==> bs[i].lastSequence <= LastSequence(bs)
    ensures forall i :: 0 <= i < |bs| && bs[i].firstSequence > 0 ==> 0 < FirstSequence(bs) <= bs[i].firstSequence
    ensures FirstSequence(bs) > 0 ==> exists i :: 0 <= i < |bs| && bs[i].firstSequence == FirstSequence(bs)
    ensures LastSequence(bs) > 0 ==> exists i :: 0 <= i < |bs| && bs[i].lastSequence == LastSequence(bs)
  {
    if bs != [] {
      var n := |bs| - 1;
      var init := bs[..n];
      SequencesAreTight(init);
      assert forall k :: 0 <= k < n ==> bs[k] == init[k];
      if FirstSequence(bs) > 0 && FirstSequence(bs) != bs[n].firstSequence {
        var i :| 0 <= i < n && init[i].firstSequence == FirstSequence(init);
        assert bs[i].firstSequence == FirstSequence(bs);
      }
      if LastSequence(bs) > 0 && LastSequence(bs) != bs[n].lastSequence {
        var i :| 0 <= i < n && init[i].lastSequence == LastSequence(init);
        assert bs[i].lastSequence == LastSequence(bs);
      }
    }
  }

  predicate OneEpoch(bs: seq<TelemetryBucket>, realmId: string, epoch: nat) {
    forall i :: 0 <= i < |bs| ==> bs[i].realmId == realmId && bs[i].assignmentEpoch == epoch
  }

  // The importer's check of the rows against the manifest.
  predicate RowsMatch(m: Manifest, bs: seq<TelemetryBucket>) {
    && bs != [] && OneEpoch(bs, m.realmId, m.assignmentEpoch)
    && m.minimumStart == MinimumStart(bs) && m.maximumStart == MaximumStart(bs)
    && m.firstSequence == FirstSequence(bs) && m.lastSequence == LastSequence(bs)
  }

  // ------------------------------------------------------------ building

  ghost function Rows(bs: seq<TelemetryBucket>): seq<Row>
    requires AllValid(bs)
  {
    seq(|bs|, i requires 0 <= i < |bs| => (BucketRoundTrip(bs[i]); ToRow(bs[i])))
  }

  method EncodeRows(bs: seq<TelemetryBucket>) returns (rows: Option<seq<Row>>)
    ensures rows.Some? <==> AllValid(bs)
    ensures rows.Some? ==> rows.value == Rows(bs)
  {
    var result: seq<Row> := [];
    for i := 0 to |bs|
      invariant |result| == i && forall j :: 0 <= j < i ==> ValidBucket(bs[j]) && Timed(bs[j]) && result[j] == ToRow(bs[j])
    {
      var v := ValidateBucket(bs[i]);
      if v != Verdict.Valid {
        return None;
      }
      BucketRoundTrip(bs[i]);
      result := result + [ToRow(bs[i])];
    }
    return Some(result);
  }

  // What can be made into an archive.
  ghost predicate Archivable(lib: Libraries, bs: seq<TelemetryBucket>, objectKey: string, keyId: string, manifestId: string,
                             createdAt: int)
  {
    && 0 < |bs| <= MAX_ARCHIVE_ROWS && OneEpoch(bs, bs[0].realmId, bs[0].assignmentEpoch) && AllValid(bs)
    && lib.write(Rows(bs)).Some? && 1 <= |lib.write(Rows(bs)).value| <= MAX_ARCHIVE_BYTES
    && lib.validObjectKey(objectKey) && lib.validKeyId(keyId) && lib.validUuid(manifestId) && createdAt > 0
  }

  function Unsigned(lib: Libraries, bs: seq<TelemetryBucket>, bytes: seq<byte>, objectKey: string, keyId: string,
                    manifestId: string, createdAt: int): Manifest
    requires bs != []
  {
    Manifest(1, SCHEMA_V1, manifestId, bs[0].realmId, bs[0].assignmentEpoch, objectKey, lib.digest(bytes), |bytes|, |bs|,
             MinimumStart(bs), MaximumStart(bs), FirstSequence(bs), LastSequence(bs), ZSTD, createdAt, keyId, [], [])
  }

  lemma UnsignedIsValid(lib: Libraries, bs: seq<TelemetryBucket>, bytes: seq<byte>, objectKey: string, keyId: string,
                        manifestId: string, createdAt: int)
    requires Sound(lib) && bs != [] && AllValid(bs) && |bs| <= MAX_ARCHIVE_ROWS
    ensures ValidCore(lib, Unsigned(lib, bs, bytes, objectKey, keyId, manifestId, createdAt)) <==>
            1 <= |bytes| <= MAX_ARCHIVE_BYTES && lib.validObjectKey(objectKey) && lib.validKeyId(keyId)
            && lib.validUuid(manifestId) && createdAt > 0
  {
    HeadersAreValid(bs);
    StartsAreValid(bs);
    SequencesAreValid(bs);
    assert ValidBucket(bs[0]);
  }

  // The manifest verifies and describes the object and its rows, and the object reads back.
  ghost predicate BuiltFrom(lib: Libraries, bs: seq<TelemetryBucket>, m: Manifest, bytes: seq<byte>) {
    && AllValid(bs) && Verify(lib, m) && RowsMatch(m, bs) && lib.read(bytes) == Some(Rows(bs))
    && m.byteLength == |bytes| && m.sha256 == lib.digest(bytes) && m.rowCount == |bs|
  }

  // An archive is built exactly when it can be.
  method Build(lib: Libraries, bs: seq<TelemetryBucket>, objectKey: string, keyId: string, manifestId: string, createdAt: int)
    returns (r: Option<(Manifest, seq<byte>)>)
    requires Sound(lib)
    ensures r.Some? <==> Archivable(lib, bs, objectKey, keyId, manifestId, createdAt)
    ensures r.Some? ==> BuiltFrom(lib, bs, r.value.0, r.value.1) && r.value.0.objectKey == objectKey
                        && r.value.0.signingKeyId == keyId && r.value.0.manifestId == manifestId && r.value.0.createdAt == createdAt
  {
    if bs == [] || !OneEpoch(bs, bs[0].realmId, bs[0].assignmentEpoch) || |bs| > MAX_ARCHIVE_ROWS {
      return None;
    }
    var rows := EncodeRows(bs);
    if rows.None? || lib.write(rows.value).None? {
      return None;
    }
    var bytes := lib.write(rows.value).value;
    if |bytes| > MAX_ARCHIVE_BYTES {
      return None;
    }
    var manifest := Unsigned(lib, bs, bytes, objectKey, keyId, manifestId, createdAt);
    UnsignedIsValid(lib, bs, bytes, objectKey, keyId, manifestId, createdAt);
    SignedVerifies(lib, manifest);
    var signed := Sign(lib, manifest);
    return if signed.None? then None else Some((signed.value, bytes));
  }

  // ------------------------------------------------------------ importing

  // The check of one batch.
  ghost predicate ValidBatch(lib: Libraries, realmId: string, bs: seq<TelemetryBucket>) {
    && 0 < |bs| <= MAX_BUCKETS_PER_BATCH && ValidRealmId(realmId) && lib.wireBytes(bs) <= MAX_BATCH_WIRE_BYTES
    && (forall i :: 0 <= i < |bs| ==> bs[i].realmId == realmId) && AllValid(bs)
    && (forall i, j :: 0 <= i < j < |bs| ==> KeyOf(bs[i]) != KeyOf(bs[j]))
  }

  function KeyOf(b: TelemetryBucket): (nat, int, nat, int) {
    (b.assignmentEpoch, b.start, b.width, b.schema)
  }

  method ValidateBatch(lib: Libraries, realmId: string, bs: seq<TelemetryBucket>) returns (ok: bool)
    ensures ok <==> ValidBatch(lib, realmId, bs)
  {
    if bs == [] || |bs| > MAX_BUCKETS_PER_BATCH || !ValidRealmId(realmId) || lib.wireBytes(bs) > MAX_BATCH_WIRE_BYTES {
      return false;
    }
    var keys: set<(nat, int, nat, int)> := {};
    for i := 0 to |bs|
      invariant forall j :: 0 <= j < i ==> bs[j].realmId == realmId && ValidBucket(bs[j]) && KeyOf(bs[j]) in keys
      invariant forall k :: k in keys ==> exists j :: 0 <= j < i && KeyOf(bs[j]) == k
      invariant forall j, k :: 0 <= j < k < i ==> KeyOf(bs[j]) != KeyOf(bs[k])
    {
      if bs[i].realmId != realmId {
        return false;
      }
      var v := ValidateBucket(bs[i]);
      if v != Verdict.Valid || KeyOf(bs[i]) in keys {
        return false;
      }
      keys := keys + {KeyOf(bs[i])};
    }
    return true;
  }

  // The rows, 288 at a time.
  function Chunks(bs: seq<TelemetryBucket>): seq<seq<TelemetryBucket>> {
    if bs == [] then [] else [bs[..Min(MAX_BUCKETS_PER_BATCH, |bs|)]] + Chunks(bs[Min(MAX_BUCKETS_PER_BATCH, |bs|)..])
  }

  function Joined(chunks: seq<seq<TelemetryBucket>>): seq<TelemetryBucket> {
    if chunks == [] then [] else chunks[0] + Joined(chunks[1..])
  }

  // The chunks are the rows in order, none of them empty or too long.
  lemma {:induction false} ChunksPartition(bs: seq<TelemetryBucket>)
    ensures Joined(Chunks(bs)) == bs
    ensures forall c :: c in Chunks(bs) ==> 0 < |c| <= MAX_BUCKETS_PER_BATCH && forall b :: b in c ==> b in bs
  {
    if bs != [] {
      var n := Min(MAX_BUCKETS_PER_BATCH, |bs|);
      ChunksPartition(bs[n..]);
      assert bs == bs[..n] + bs[n..];
      assert Chunks(bs)[1..] == Chunks(bs[n..]);
    }
  }

  type Ledger = seq<TelemetryBucket> -> bool

  ghost predicate Importable(lib: Libraries, realmId: string, accepts: Ledger, chunks: seq<seq<TelemetryBucket>>) {
    forall c :: c in chunks ==> ValidBatch(lib, realmId, c) && accepts(c)
  }

  // Chunk after chunk is checked and handed to the acceptance ledger, until one is refused.
  method ImportChunks(lib: Libraries, realmId: string, bs: seq<TelemetryBucket>, accepts: Ledger) returns (ok: bool, imported: nat)
    ensures imported <= |bs| && (ok <==> imported == |bs|)
    ensures ok <==> Importable(lib, realmId, accepts, Chunks(bs))
  {
    imported, ok := 0, true;
    assert bs[0..] == bs;
    while imported < |bs|
      invariant imported <= |bs|
      invariant Importable(lib, realmId, accepts, Chunks(bs)) <==> Importable(lib, realmId, accepts, Chunks(bs[imported..]))
    {
      var end := Min(imported + MAX_BUCKETS_PER_BATCH, |bs|);
      var chunk := bs[imported..end];
      ghost var rest := bs[imported..];
      assert rest[..Min(MAX_BUCKETS_PER_BATCH, |rest|)] == chunk && rest[Min(MAX_BUCKETS_PER_BATCH, |rest|)..] == bs[end..];
      assert Chunks(rest) == [chunk] + Chunks(bs[end..]);
      FirstChunk(lib, realmId, accepts, chunk, Chunks(bs[end..]));
      var valid := ValidateBatch(lib, realmId, chunk);
      if !valid || !accepts(chunk) {
        return false, imported;
      }
      imported := end;
    }
  }

  lemma FirstChunk(lib: Libraries, realmId: string, accepts: Ledger, chunk: seq<TelemetryBucket>, rest: seq<seq<TelemetryBucket>>)
    ensures Importable(lib, realmId, accepts, [chunk] + rest) <==>
            ValidBatch(lib, realmId, chunk) && accepts(chunk) && Importable(lib, realmId, accepts, rest)
  {
    var all := [chunk] + rest;
    assert chunk in all && forall c :: c in all <==> c == chunk || c in rest;
  }

  method DecodeRows(rows: seq<Row>) returns (bs: Option<seq<TelemetryBucket>>)
    ensures bs.Some? <==> forall i :: 0 <= i < |rows| ==> ValidBucket(FromRow(rows[i]))
    ensures bs.Some? ==> |bs.value| == |rows| && forall i :: 0 <= i < |rows| ==> bs.value[i] == FromRow(rows[i])
  {
    var result: seq<TelemetryBucket> := [];
    for i := 0 to |rows|
      invariant |result| == i && forall j :: 0 <= j < i ==> ValidBucket(FromRow(rows[j])) && result[j] == FromRow(rows[j])
    {
      var v := ValidateBucket(FromRow(rows[i]));
      if v != Verdict.Valid {
        return None;
      }
      result := result + [FromRow(rows[i])];
    }
    return Some(result);
  }

  ghost predicate Decodes(rows: seq<Row>, bs: seq<TelemetryBucket>) {
    |bs| == |rows| && AllValid(bs) && forall i :: 0 <= i < |rows| ==> bs[i] == FromRow(rows[i])
  }

  datatype Policy = Policy(enabled: bool, rollupsOnly: bool)

  // What registering the manifest and, at the end, completing it answer.
  datatype Registration = Unregistered | Registered | AlreadyComplete
  datatype Manifests = Manifests(registration: Registration, completes: bool)

  // The checks before the rows are looked at.
  predicate Admitted(lib: Libraries, realmId: string, epoch: nat, policy: Policy, m: Manifest, bytes: seq<byte>) {
    && Verify(lib, m) && m.byteLength == |bytes| && m.sha256 == lib.digest(bytes)
    && m.realmId == realmId && m.assignmentEpoch == epoch && policy.enabled && !policy.rollupsOnly
    && lib.read(bytes).Some? && m.rowCount == |lib.read(bytes).value|
  }

  // A manifest that is complete already is answered without importing anything again.
  ghost predicate Succeeds(lib: Libraries, realmId: string, epoch: nat, policy: Policy, m: Manifest, bytes: seq<byte>,
                           manifests: Manifests, accepts: Ledger, bs: seq<TelemetryBucket>)
  {
    && Admitted(lib, realmId, epoch, policy, m, bytes) && Decodes(lib.read(bytes).value, bs) && RowsMatch(m, bs)
    && match manifests.registration
       case Unregistered => false
       case AlreadyComplete => true
       case Registered => Importable(lib, realmId, accepts, Chunks(bs)) && manifests.completes
  }

  // A row within what its manifest says.
  predicate Described(m: Manifest, b: TelemetryBucket) {
    && b.realmId == m.realmId && b.assignmentEpoch == m.assignmentEpoch && m.minimumStart <= b.start <= m.maximumStart
    && b.lastSequence <= m.lastSequence && (b.firstSequence > 0 ==> 0 < m.firstSequence <= b.firstSequence)
  }

  // What is imported is what the manifest describes: as many rows, each within its bounds, and no bound wider than the rows.
  lemma ImportedIsDescribed(lib: Libraries, realmId: string, epoch: nat, policy: Policy, m: Manifest, bytes: seq<byte>,
                            manifests: Manifests, accepts: Ledger, bs: seq<TelemetryBucket>)
    requires Succeeds(lib, realmId, epoch, policy, m, bytes, manifests, accepts, bs)
    ensures |bs| == m.rowCount > 0 && forall i :: 0 <= i < |bs| ==> Described(m, bs[i])
    ensures exists i :: 0 <= i < |bs| && bs[i].start == m.minimumStart
    ensures exists i :: 0 <= i < |bs| && bs[i].start == m.maximumStart
    ensures m.firstSequence > 0 ==> exists i :: 0 <= i < |bs| && bs[i].firstSequence == m.firstSequence
    ensures m.lastSequence > 0 ==> exists i :: 0 <= i < |bs| && bs[i].lastSequence == m.lastSequence
  {
    StartsAreTight(bs);
    SequencesAreTight(bs);
  }

  // Nothing is imported under a manifest that was changed after it was signed.
  lemma TamperedIsNotImported(lib: Libraries, realmId: string, epoch: nat, policy: Policy, m: Manifest, n: Manifest,
                              bytes: seq<byte>, manifests: Manifests, accepts: Ledger, bs: seq<TelemetryBucket>)
    requires Sound(lib) && Binding(lib) && ValidCore(lib, n) && m.signature == Sign(lib, n).value.signature
    requires m != Sign(lib, n).value
    ensures !Succeeds(lib, realmId, epoch, policy, m, bytes, manifests, accepts, bs)
  {
    TamperingShows(lib, m, n);
  }

  // Nor for another realm, or for another assignment of the same realm.
  lemma ForeignAssignmentIsNotImported(lib: Libraries, realmId: string, epoch: nat, policy: Policy, m: Manifest, bytes: seq<byte>,
                                       manifests: Manifests, accepts: Ledger, bs: seq<TelemetryBucket>)
    requires bs != [] && (bs[0].realmId != realmId || bs[0].assignmentEpoch != epoch)
    ensures !Succeeds(lib, realmId, epoch, policy, m, bytes, manifests, accepts, bs)
  {
  }

  // Nor from bytes other than those that were archived, as long as no two objects have one digest.
  lemma SwappedObjectIsNotImported(lib: Libraries, built: seq<TelemetryBucket>, m: Manifest, original: seq<byte>,
                                   bytes: seq<byte>, realmId: string, epoch: nat, policy: Policy, manifests: Manifests,
                                   accepts: Ledger, bs: seq<TelemetryBucket>)
    requires BuiltFrom(lib, built, m, original) && lib.digest(bytes) != lib.digest(original)
    ensures !Succeeds(lib, realmId, epoch, policy, m, bytes, manifests, accepts, bs)
  {
  }

  method Import(lib: Libraries, realmId: string, epoch: nat, policy: Policy, m: Manifest, bytes: seq<byte>,
                manifests: Manifests, accepts: Ledger)
    returns (ok: bool, imported: nat)
    ensures ok <==> exists bs :: Succeeds(lib, realmId, epoch, policy, m, bytes, manifests, accepts, bs)
    ensures imported <= m.rowCount && (ok && manifests.registration.Registered? ==> imported == m.rowCount)
    ensures !manifests.registration.Registered? ==> imported == 0
  {
    ok, imported := false, 0;
    if !Admitted(lib, realmId, epoch, policy, m, bytes) {
      return;
    }
    var rows := lib.read(bytes).value;
    var bs := DecodeRows(rows);
    DecodedIsUnique(rows, bs);
    if bs.None? || !RowsMatch(m, bs.value) {
      return;
    }
    match manifests.registration {
      case Unregistered =>
      case AlreadyComplete =>
        assert Succeeds(lib, realmId, epoch, policy, m, bytes, manifests, accepts, bs.value);
        ok := true;
      case Registered =>
        ok, imported := ImportChunks(lib, realmId, bs.value, accepts);
        ok := ok && manifests.completes;
        assert ok <==> Succeeds(lib, realmId, epoch, policy, m, bytes, manifests, accepts, bs.value);
    }
  }

  lemma DecodedIsUnique(rows: seq<Row>, bs: Option<seq<TelemetryBucket>>)
    requires bs.Some? <==> forall i :: 0 <= i < |rows| ==> ValidBucket(FromRow(rows[i]))
    requires bs.Some? ==> |bs.value| == |rows| && forall i :: 0 <= i < |rows| ==> bs.value[i] == FromRow(rows[i])
    ensures forall some :: Decodes(rows, some) <==> bs == Some(some)
  {
    forall some | Decodes(rows, some)
      ensures bs == Some(some)
    {
      assert forall i :: 0 <= i < |rows| ==> ValidBucket(some[i]) && some[i] == FromRow(rows[i]);
      assert bs.value == some;
    }
  }

  // ------------------------------------------------------------ importing what was built

  predicate DistinctStarts(bs: seq<TelemetryBucket>) {
    forall i, j :: 0 <= i < j < |bs| ==> bs[i].start != bs[j].start
  }

  // Nothing keeps a built archive from being imported but two rows of one window in the same chunk, or a chunk that is
  // too long on the wire.
  ghost predicate ChunksFit(lib: Libraries, chunks: seq<seq<TelemetryBucket>>) {
    forall c :: c in chunks ==> DistinctStarts(c) && lib.wireBytes(c) <= MAX_BATCH_WIRE_BYTES
  }

  lemma ChunkValidExactly(lib: Libraries, bs: seq<TelemetryBucket>, c: seq<TelemetryBucket>, realmId: string, epoch: nat)
    requires AllValid(bs) && OneEpoch(bs, realmId, epoch) && 0 < |c| <= MAX_BUCKETS_PER_BATCH && forall b :: b in c ==> b in bs
    ensures ValidBatch(lib, realmId, c) <==> DistinctStarts(c) && lib.wireBytes(c) <= MAX_BATCH_WIRE_BYTES
  {
    forall i | 0 <= i < |c|
      ensures ValidBucket(c[i]) && c[i].realmId == realmId && c[i].assignmentEpoch == epoch
    {
      assert c[i] in bs;
    }
    assert ValidHeader(c[0]);
    assert forall i :: 0 <= i < |c| ==> ValidHeader(c[i]);
  }

  lemma ChunksImportExactly(lib: Libraries, bs: seq<TelemetryBucket>, realmId: string, epoch: nat, accepts: Ledger)
    requires AllValid(bs) && OneEpoch(bs, realmId, epoch)
    ensures Importable(lib, realmId, accepts, Chunks(bs)) <==>
            ChunksFit(lib, Chunks(bs)) && forall c :: c in Chunks(bs) ==> accepts(c)
  {
    ChunksPartition(bs);
    forall c | c in Chunks(bs)
      ensures ValidBatch(lib, realmId, c) <==> DistinctStarts(c) && lib.wireBytes(c) <= MAX_BATCH_WIRE_BYTES
    {
      ChunkValidExactly(lib, bs, c, realmId, epoch);
    }
  }

  lemma RowsDecode(bs: seq<TelemetryBucket>)
    requires AllValid(bs)
    ensures forall some :: Decodes(Rows(bs), some) <==> some == bs
  {
    forall i | 0 <= i < |bs|
      ensures bs[i] == FromRow(Rows(bs)[i]) && ValidBucket(FromRow(Rows(bs)[i]))
    {
      BucketRoundTrip(bs[i]);
    }
    DecodedIsUnique(Rows(bs), Some(bs));
  }

  // Importing what was built succeeds exactly when the policy permits it and the manifest is complete already, or its
  // chunks fit, are accepted and the manifest can be completed: nothing about the archive itself is ever refused.
  lemma BuiltImportsExactly(lib: Libraries, bs: seq<TelemetryBucket>, m: Manifest, bytes: seq<byte>, policy: Policy,
                            manifests: Manifests, accepts: Ledger)
    requires BuiltFrom(lib, bs, m, bytes)
    ensures (exists some :: Succeeds(lib, m.realmId, m.assignmentEpoch, policy, m, bytes, manifests, accepts, some))
            <==> policy.enabled && !policy.rollupsOnly
                 && match manifests.registration
                    case Unregistered => false
                    case AlreadyComplete => true
                    case Registered =>
                      ChunksFit(lib, Chunks(bs)) && (forall c :: c in Chunks(bs) ==> accepts(c)) && manifests.completes
  {
    RowsDecode(bs);
    ChunksImportExactly(lib, bs, m.realmId, m.assignmentEpoch, accepts);
    var permitted := policy.enabled && !policy.rollupsOnly;
    assert Admitted(lib, m.realmId, m.assignmentEpoch, policy, m, bytes) <==> permitted;
    assert Decodes(lib.read(bytes).value, bs);
    if manifests.registration.AlreadyComplete? && permitted {
      assert Succeeds(lib, m.realmId, m.assignmentEpoch, policy, m, bytes, manifests, accepts, bs);
    }
    if manifests.registration.Registered? && permitted && Importable(lib, m.realmId, accepts, Chunks(bs)) && manifests.completes {
      assert Succeeds(lib, m.realmId, m.assignmentEpoch, policy, m, bytes, manifests, accepts, bs);
    }
  }

  // Whatever is archivable has an archive.
  lemma ArchivableIsBuilt(lib: Libraries, bs: seq<TelemetryBucket>, objectKey: string, keyId: string, manifestId: string,
                          createdAt: int) returns (m: Manifest, bytes: seq<byte>)
    requires Sound(lib) && Archivable(lib, bs, objectKey, keyId, manifestId, createdAt)
    ensures BuiltFrom(lib, bs, m, bytes)
  {
    bytes := lib.write(Rows(bs)).value;
    var manifest := Unsigned(lib, bs, bytes, objectKey, keyId, manifestId, createdAt);
    UnsignedIsValid(lib, bs, bytes, objectKey, keyId, manifestId, createdAt);
    SignedVerifies(lib, manifest);
    m := Sign(lib, manifest).value;
  }

  // What the file format, the names and the clock have to say about an archive of valid rows of one epoch.
  ghost predicate Writable(lib: Libraries, bs: seq<TelemetryBucket>, objectKey: string, keyId: string, manifestId: string,
                           createdAt: int)
    requires AllValid(bs)
  {
    && lib.write(Rows(bs)).Some? && 1 <= |lib.write(Rows(bs)).value| <= MAX_ARCHIVE_BYTES
    && lib.validObjectKey(objectKey) && lib.validKeyId(keyId) && lib.validUuid(manifestId) && createdAt > 0
  }

  lemma PairIsValid(bs: seq<TelemetryBucket>, first: TelemetryBucket, second: TelemetryBucket)
    requires bs == [first, second] && ValidBucket(first) && ValidBucket(second)
    ensures AllValid(bs)
  {
    forall i | 0 <= i < |bs|
      ensures ValidBucket(bs[i])
    {
      assert bs[i] == first || bs[i] == second;
    }
  }

  lemma PairInOneChunk(bs: seq<TelemetryBucket>)
    requires |bs| == 2 && bs[0].start == bs[1].start
    ensures bs in Chunks(bs) && !DistinctStarts(bs)
  {
    OneChunk(bs);
  }

  lemma TwoRevisionsAreValid(bs: seq<TelemetryBucket>, first: TelemetryBucket, second: TelemetryBucket, revision: u64)
    requires bs == [first, second] && ValidBucket(first) && second == first.(revision := revision) && revision > 0
    ensures AllValid(bs)
  {
    OtherRevision(first, revision);
    PairIsValid(bs, first, second);
  }

  lemma OtherRevision(b: TelemetryBucket, revision: u64)
    requires ValidBucket(b) && revision > 0
    ensures ValidBucket(b.(revision := revision))
  {
  }

  lemma OneChunk(bs: seq<TelemetryBucket>)
    requires 0 < |bs| <= MAX_BUCKETS_PER_BATCH
    ensures Chunks(bs) == [bs]
  {
    assert bs[..|bs|] == bs && Chunks(bs[|bs|..]) == [];
  }

  // Two revisions of one window are built into an archive by every library that can write their rows, and that archive
  // can never be imported.
  lemma TwoRevisionsCannotBeImported(lib: Libraries, bs: seq<TelemetryBucket>, revision: u64, objectKey: string, keyId: string,
                                     manifestId: string, createdAt: int) returns (m: Manifest, bytes: seq<byte>)
    requires |bs| == 2 && ValidBucket(bs[0]) && bs[1] == bs[0].(revision := revision) && revision > 0
    requires Sound(lib) && (AllValid(bs) ==> Writable(lib, bs, objectKey, keyId, manifestId, createdAt))
    ensures Archivable(lib, bs, objectKey, keyId, manifestId, createdAt) && BuiltFrom(lib, bs, m, bytes)
    ensures forall policy, completes, accepts, some ::
              !Succeeds(lib, m.realmId, m.assignmentEpoch, policy, m, bytes, Manifests(Registered, completes), accepts, some)
  {
    TwoRevisionsAreValid(bs, bs[0], bs[1], revision);
    PairInOneChunk(bs);
    m, bytes := ArchivableIsBuilt(lib, bs, objectKey, keyId, manifestId, createdAt);
    forall policy, completes, accepts, some
      ensures !Succeeds(lib, m.realmId, m.assignmentEpoch, policy, m, bytes, Manifests(Registered, completes), accepts, some)
    {
      BuiltImportsExactly(lib, bs, m, bytes, policy, Manifests(Registered, completes), accepts);
    }
  }
}
