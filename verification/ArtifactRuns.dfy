/** Properties of whole runs of the artifact store: immutability, spent reservations, and crash-safe uploads. */
module ArtifactRuns {
  import opened Wrappers
  import opened ArtifactSpec
  import opened ArtifactProofs

  // ---------------------------------------------------------------- what a run leaves alone

  /** The same artifact, up to how long it is kept. */
  ghost predicate SameArtifact(a: Object, b: Object) { a.(expires := b.expires) == b }

  /** The same upload further along: only bytes have been added. */
  ghost predicate Continues(a: Upload, b: Upload) {
    && a.(received := b.received, updated := b.updated, content := b.content) == b
    && a.received <= b.received && a.content <= b.content
  }

  /** Nothing that existed in s has changed its identity in t, and nothing removed has come back. */
  ghost predicate Descends(s: State, t: State) {
    && s.nextId <= t.nextId
    && (forall id <- t.objects :: id < s.nextId ==> id in s.objects && SameArtifact(s.objects[id], t.objects[id]))
    && (forall id <- t.uploads :: id < s.nextId ==> id in s.uploads && Continues(s.uploads[id], t.uploads[id]))
    && (forall id <- t.reservations :: id < s.nextId ==>
        id in s.reservations && s.reservations[id] == t.reservations[id])
  }

  lemma PublishDescends(cfg: Config, s: State, producer: string, items: seq<Item>, days: int, budget: nat)
    ensures Descends(s, Publish(cfg, s, producer, items, days, budget).0)
  {
    if 1 <= days {
      BatchKeys(cfg, items, producer, days, s.nextId);
    }
  }

  predicate Publishes(op: Op) { op.DoPublishReserved? || op.DoPublishUnreserved? }

  lemma PublicationDescends(cfg: Config, s: State, op: Op)
    requires Publishes(op)
    ensures Descends(s, Apply(cfg, s, op))
  {
    match op
    case DoPublishReserved(id, producer, items, days) =>
      if id in s.reservations {
        PublishDescends(cfg, s, producer, items, days, s.reservations[id].declared);
      }
    case DoPublishUnreserved(producer, items, budget, days, free) =>
      if budget >= 0 {
        PublishDescends(cfg, s, producer, items, days, budget);
      }
  }

  predicate NamesUpload(op: Op) { op.DoAppend? || op.DoAppendCrash? || op.DoCommit? || op.DoAbort? }

  lemma UploadStepDescends(cfg: Config, s: State, op: Op)
    requires NamesUpload(op)
    ensures Descends(s, Apply(cfg, s, op))
  {
  }

  lemma AllocationDescends(cfg: Config, s: State, op: Op)
    requires op.DoBegin? || op.DoReserve?
    ensures Descends(s, Apply(cfg, s, op))
  {
  }

  lemma StepDescends(cfg: Config, s: State, op: Op)
    ensures Descends(s, Apply(cfg, s, op))
  {
    if Publishes(op) {
      PublicationDescends(cfg, s, op);
    } else if NamesUpload(op) {
      UploadStepDescends(cfg, s, op);
    } else if op.DoBegin? || op.DoReserve? {
      AllocationDescends(cfg, s, op);
    }
  }

  /** Published bytes are immutable, and no identifier is ever reused, over every run from every state. */
  lemma {:induction false} EveryRunDescends(cfg: Config, s: State, ops: seq<Op>)
    ensures Descends(s, Run(cfg, s, ops))
  {
    if ops != [] {
      var n := |ops| - 1;
      EveryRunDescends(cfg, s, ops[..n]);
      StepDescends(cfg, Run(cfg, s, ops[..n]), ops[n]);
    }
  }

  /** A reservation that is released, spent or swept away is refused by every later publication. */
  lemma SpentReservationIsRefused(cfg: Config, s: State, ops: seq<Op>, id: Id, producer: string, items: seq<Item>,
                                  days: int)
    requires id < s.nextId && id !in s.reservations
    ensures var late := Run(cfg, s, ops);
            PublishReserved(cfg, late, id, producer, items, days) ==
              (late, Err(if ProducerOk(producer) then NotFound else BadArgument))
  {
    EveryRunDescends(cfg, s, ops);
  }

  /**
   * A batch that validates: kept for an allowed time, every item a plain file of allowed size, together within budget.
   */
  predicate Publishable(cfg: Config, items: seq<Item>, days: int, budget: int) {
    && 1 <= days <= cfg.policy.maxRetentionDays
    && (forall item <- items ::
          item.isFile && PublishNameOk(item.name) && MimeOk(item.mimeType) && item.statSize <= cfg.policy.maxArtifact)
    && Sizes(items) <= budget
  }

  /** Every file was copied whole: no system call failed and its size did not change. */
  predicate Copied(items: seq<Item>) {
    forall item <- items :: item.fault.NoFault? && |item.copied| == item.statSize
  }

  lemma BatchValidates(cfg: Config, items: seq<Item>, days: int, budget: nat)
    ensures BatchCheck(cfg, items, days, budget) == None <==> Publishable(cfg, items, days, budget)
  {
  }

  /** The batch that a reservation's own producer can publish against it. */
  predicate FitsReservation(cfg: Config, r: Reservation, producer: string, items: seq<Item>, days: int) {
    ProducerOk(producer) && producer == r.producer && Publishable(cfg, items, days, r.declared) && Copied(items)
  }

  /**
   * The steps that end a reservation: its release, a publication that goes through, and a sweep, on its own or inside a
   * begin whose arguments are valid, once an hour has passed since it was made.
   */
  predicate EndsIt(cfg: Config, id: Id, r: Reservation, op: Op) {
    match op
    case DoRelease(target) => target == id
    case DoPublishReserved(target, producer, items, days) =>
      target == id && FitsReservation(cfg, r, producer, items, days)
    case DoGc(now) => now >= r.updated + 3600.0
    case DoBegin(args, now, _) => BeginArgsOk(cfg, args) && now >= r.updated + 3600.0
    case _ => false
  }

  lemma EndsByStep(cfg: Config, s: State, id: Id, op: Op)
    requires id < s.nextId && id in s.reservations
    ensures id in Apply(cfg, s, op).reservations <==> !EndsIt(cfg, id, s.reservations[id], op)
  {
    if Publishes(op) {
      EndsByPublication(cfg, s, id, op);
    }
  }

  lemma EndsByPublication(cfg: Config, s: State, id: Id, op: Op)
    requires Publishes(op) && id in s.reservations
    ensures id in Apply(cfg, s, op).reservations <==> !EndsIt(cfg, id, s.reservations[id], op)
  {
  }

  /** Over every run: a reservation is still held exactly when no step of the run was one that ends it. */
  lemma {:induction false} ReservationEnds(cfg: Config, s: State, ops: seq<Op>, id: Id)
    requires id < s.nextId && id in s.reservations
    ensures id in Run(cfg, s, ops).reservations <==> forall op <- ops :: !EndsIt(cfg, id, s.reservations[id], op)
  {
    if ops != [] {
      var n := |ops| - 1;
      var t := Run(cfg, s, ops[..n]);
      assert ops == ops[..n] + [ops[n]];
      ReservationEnds(cfg, s, ops[..n], id);
      EveryRunDescends(cfg, s, ops[..n]);
      StepDescends(cfg, t, ops[n]);
      if id in t.reservations {
        EndsByStep(cfg, t, id, ops[n]);
      }
    }
  }

  /**
   * What a reservation is for: after any run, a publication against it goes through exactly when no step of the run
   * ended it and the batch is a valid one of its producer that fits it. No quota can refuse it by then.
   */
  lemma ReservationIsHonoured(cfg: Config, s: State, ops: seq<Op>, id: Id, producer: string, items: seq<Item>,
                              days: int)
    requires id < s.nextId && id in s.reservations
    ensures PublishReserved(cfg, Run(cfg, s, ops), id, producer, items, days).1.Ok? <==>
              (forall op <- ops :: !EndsIt(cfg, id, s.reservations[id], op))
                && FitsReservation(cfg, s.reservations[id], producer, items, days)
  {
    EveryRunDescends(cfg, s, ops);
    ReservationEnds(cfg, s, ops, id);
  }

  /** The run that shows it: an hour after a reservation was made, one sweep, and its own producer is refused. */
  lemma SweptAfterAnHour(cfg: Config, s: State, id: Id, items: seq<Item>, days: int)
    requires id < s.nextId && id in s.reservations && ProducerOk(s.reservations[id].producer)
    ensures var late := Run(cfg, s, [DoGc(s.reservations[id].updated + 3600.0)]);
            PublishReserved(cfg, late, id, s.reservations[id].producer, items, days) == (late, Err(NotFound))
  {
    var ops := [DoGc(s.reservations[id].updated + 3600.0)];
    assert ops[0] in ops && EndsIt(cfg, id, s.reservations[id], ops[0]);
    ReservationEnds(cfg, s, ops, id);
  }

  // ---------------------------------------------------------------- all or nothing

  /** The artifact that an item becomes: its own name, type and bytes, kept from when it was copied. */
  function ArtifactOfItem(cfg: Config, item: Item, producer: string, days: int): Object {
    Object(item.name, item.mimeType, producer, |item.copied|, cfg.sha256(item.copied), item.at,
           item.at + 86400.0 * days as real, item.copied)
  }

  /** Every item of a batch is an artifact of its own. */
  ghost predicate AllPublished(cfg: Config, objects: map<Id, Object>, items: seq<Item>, producer: string, days: int,
                               first: Id) {
    forall i | 0 <= i < |items| ::
      first + i in objects && objects[first + i] == ArtifactOfItem(cfg, items[i], producer, days)
  }

  /**
   * A publication that succeeds publishes every item with its own bytes and digest; one that fails leaves every record
   * as it was.
   */
  lemma PublishIsAllOrNothing(cfg: Config, s: State, producer: string, items: seq<Item>, days: int, budget: nat)
    ensures var (after, r) := Publish(cfg, s, producer, items, days, budget);
            && (r.Err? ==> after.objects == s.objects)
            && (r.Ok? ==> AllPublished(cfg, after.objects, items, producer, days, r.value))
            && after.uploads == s.uploads && after.reservations == s.reservations
  {
    if BatchCheck(cfg, items, days, budget) == None && forall item <- items :: Lands(item) {
      WholeBatch(cfg, s.objects, items, producer, days, s.nextId);
      assert Publish(cfg, s, producer, items, days, budget).1 == Ok(s.nextId);
    } else {
      NothingPublished(cfg, s, producer, items, days, budget);
    }
  }

  lemma NothingPublished(cfg: Config, s: State, producer: string, items: seq<Item>, days: int, budget: nat)
    requires BatchCheck(cfg, items, days, budget) != None || exists item <- items :: !Lands(item)
    ensures var (after, r) := Publish(cfg, s, producer, items, days, budget);
            r.Err? && after == s.(nextId := after.nextId)
  {
  }

  lemma WholeBatch(cfg: Config, objects: map<Id, Object>, items: seq<Item>, producer: string, days: nat, first: Id)
    requires forall item <- items :: Lands(item)
    ensures AllPublished(cfg, objects + Batch(cfg, items, producer, days, first), items, producer, days, first)
  {
    BatchKeys(cfg, items, producer, days, first);
    forall i | 0 <= i < |items| ensures Lands(items[i]) {
      assert items[i] in items;
    }
  }

  /** No publication touches the uploads. */
  lemma PublicationKeepsUploads(cfg: Config, s: State, op: Op)
    requires Publishes(op)
    ensures Apply(cfg, s, op).uploads == s.uploads && Apply(cfg, s, op).nextId >= s.nextId
  {
  }

  // ---------------------------------------------------------------- crash-safe uploads

  /** One acknowledged append. */
  datatype Chunk = Chunk(offset: nat, payload: seq<byte>)

  /** The appends to an upload that were acknowledged during a run, oldest first. */
  ghost function Acked(cfg: Config, s: State, ops: seq<Op>, id: Id): seq<Chunk> {
    if ops == [] then []
    else
      var n := |ops| - 1;
      var prior := Acked(cfg, s, ops[..n], id);
      match ops[n]
      case DoAppend(target, offset, data, digest, _) =>
        var check := AppendCheck(cfg, Run(cfg, s, ops[..n]), target, offset, data, digest);
        if target == id && check.Ok? then prior + [Chunk(offset, check.value)] else prior
      case _ => prior
  }

  function Bytes(chunks: seq<Chunk>): seq<byte> {
    if chunks == [] then [] else Bytes(chunks[..|chunks| - 1]) + chunks[|chunks| - 1].payload
  }

  /** Each chunk starts where the chunks before it end: offset order, no gap, no overlap. */
  ghost predicate Consecutive(chunks: seq<Chunk>) {
    forall i | 0 <= i < |chunks| :: chunks[i].offset == |Bytes(chunks[..i])|
  }

  /** What an upload owes to its acknowledged chunks, whatever crashes came between. */
  ghost predicate Faithful(u: Upload, chunks: seq<Chunk>) {
    && Consecutive(chunks)
    && u.received == |Bytes(chunks)| <= |u.content|
    && (|u.content| == u.received ==> u.content == Bytes(chunks))
  }

  lemma AnotherChunk(chunks: seq<Chunk>, c: Chunk)
    requires Consecutive(chunks) && c.offset == |Bytes(chunks)|
    ensures Consecutive(chunks + [c]) && Bytes(chunks + [c]) == Bytes(chunks) + c.payload
  {
    var more := chunks + [c];
    assert more[..|chunks|] == chunks;
    forall i | 0 <= i < |more| ensures more[i].offset == |Bytes(more[..i])| {
      if i < |chunks| {
        assert more[..i] == chunks[..i];
      }
    }
  }

  /** An upload that begins during the run stays faithful to its acknowledged chunks at every point of the run. */
  lemma {:induction false} UploadsStayFaithful(cfg: Config, s: State, ops: seq<Op>, id: Id)
    requires Sound(cfg, s) && WithinQuota(cfg, s) && id >= s.nextId
    ensures var t := Run(cfg, s, ops);
            && (id in t.uploads ==> Faithful(t.uploads[id], Acked(cfg, s, ops, id)))
            && (id >= t.nextId ==> Acked(cfg, s, ops, id) == [])
  {
    EveryRunKeepsQuotas(cfg, s, ops);
    if ops != [] {
      var n := |ops| - 1;
      var t := Run(cfg, s, ops[..n]);
      UploadsStayFaithful(cfg, s, ops[..n], id);
      EveryRunKeepsQuotas(cfg, s, ops[..n]);
      FaithfulStep(cfg, t, ops[n], id, Acked(cfg, s, ops[..n], id));
    }
  }

  /** The chunks acknowledged after one more step. */
  ghost function AckedAfter(cfg: Config, t: State, op: Op, id: Id, chunks: seq<Chunk>): seq<Chunk> {
    match op
    case DoAppend(target, offset, data, digest, _) =>
      var check := AppendCheck(cfg, t, target, offset, data, digest);
      if target == id && check.Ok? then chunks + [Chunk(offset, check.value)] else chunks
    case _ => chunks
  }

  lemma FaithfulStep(cfg: Config, t: State, op: Op, id: Id, chunks: seq<Chunk>)
    requires Sound(cfg, t)
    requires id in t.uploads ==> Faithful(t.uploads[id], chunks)
    requires id >= t.nextId ==> chunks == []
    ensures var after := Apply(cfg, t, op);
            && (id in after.uploads ==> Faithful(after.uploads[id], AckedAfter(cfg, t, op, id, chunks)))
            && (id >= after.nextId ==> AckedAfter(cfg, t, op, id, chunks) == [])
  {
    if Publishes(op) {
      PublicationKeepsUploads(cfg, t, op);
    } else if op.DoAppend? {
      FaithfulAppend(cfg, t, op, id, chunks);
    } else if NamesUpload(op) {
      FaithfulUploadStep(cfg, t, op, id, chunks);
    } else {
      FaithfulOtherStep(cfg, t, op, id, chunks);
    }
  }

  lemma FaithfulAppend(cfg: Config, t: State, op: Op, id: Id, chunks: seq<Chunk>)
    requires Sound(cfg, t) && op.DoAppend?
    requires id in t.uploads ==> Faithful(t.uploads[id], chunks)
    ensures var after := Apply(cfg, t, op); id in after.uploads ==>
            Faithful(after.uploads[id], AckedAfter(cfg, t, op, id, chunks))
    ensures id >= t.nextId ==> AckedAfter(cfg, t, op, id, chunks) == chunks && Apply(cfg, t, op).nextId == t.nextId
  {
    var check := AppendCheck(cfg, t, op.id, op.offset, op.data, op.digest);
    if op.id == id && check.Ok? {
      FaithfulGrows(t.uploads[id], chunks, op.offset, check.value, op.now);
      assert Apply(cfg, t, op).uploads[id] == Longer(t.uploads[id], op.offset, check.value, op.now);
    }
  }

  function Longer(u: Upload, offset: nat, payload: seq<byte>, now: real): Upload {
    u.(content := u.content + payload, received := offset + |payload|, updated := now)
  }

  lemma FaithfulGrows(u: Upload, chunks: seq<Chunk>, offset: nat, payload: seq<byte>, now: real)
    requires Faithful(u, chunks) && u.received == offset
    ensures Faithful(Longer(u, offset, payload, now), chunks + [Chunk(offset, payload)])
  {
    AnotherChunk(chunks, Chunk(offset, payload));
  }

  lemma FaithfulOtherStep(cfg: Config, t: State, op: Op, id: Id, chunks: seq<Chunk>)
    requires !Publishes(op) && !NamesUpload(op)
    requires id in t.uploads ==> Faithful(t.uploads[id], chunks)
    requires id >= t.nextId ==> chunks == []
    ensures var after := Apply(cfg, t, op);
            (id in after.uploads ==> Faithful(after.uploads[id], chunks)) && (id >= after.nextId ==> chunks == [])
  {
  }

  lemma FaithfulUploadStep(cfg: Config, t: State, op: Op, id: Id, chunks: seq<Chunk>)
    requires NamesUpload(op) && !op.DoAppend?
    requires id in t.uploads ==> Faithful(t.uploads[id], chunks)
    ensures id in Apply(cfg, t, op).uploads ==> Faithful(Apply(cfg, t, op).uploads[id], chunks)
    ensures t.nextId <= Apply(cfg, t, op).nextId
  {
  }

  /**
   * Crash safety: whatever appends crashed halfway and whatever else ran in between, a commit that succeeds
   * publishes exactly the acknowledged chunks, in offset order, each once.
   */
  lemma {:induction false} CommitPublishesAckedChunks(cfg: Config, s: State, ops: seq<Op>, id: Id, now: real)
    requires Sound(cfg, s) && WithinQuota(cfg, s) && id >= s.nextId
    requires CommitCheck(cfg, Run(cfg, s, ops), id).Ok?
    ensures var (after, r) := Commit(cfg, Run(cfg, s, ops), id, now);
            var chunks := Acked(cfg, s, ops, id);
            && r.Ok? && r.value in after.objects
            && Consecutive(chunks)
            && after.objects[r.value].content == Bytes(chunks)
            && after.objects[r.value].sha256 == cfg.sha256(Bytes(chunks))
  {
    UploadsStayFaithful(cfg, s, ops, id);
  }

  /** What is left to send of an upload so that it can be committed. */
  ghost predicate CanFinish(cfg: Config, u: Upload) {
    && |u.content| == u.received
    && (u.expected.Some? ==>
        exists rest :: |rest| == u.declared - u.received && cfg.sha256(u.content + rest) == u.expected.value)
  }

  /**
   * Some later run commits an upload if and only if a crash has left no bytes in it beyond what was acknowledged, and
   * what it holds can still be completed to its expected digest.
   */
  lemma CommitIsReachable(cfg: Config, s: State, id: Id)
    requires Sound(cfg, s) && id in s.uploads
    ensures (exists ops :: CommitCheck(cfg, Run(cfg, s, ops), id).Ok?) <==> CanFinish(cfg, s.uploads[id])
  {
    var u := s.uploads[id];
    if ops :| CommitCheck(cfg, Run(cfg, s, ops), id).Ok? {
      CommittedWasFinishable(cfg, s, ops, id);
    }
    if CanFinish(cfg, u) {
      var rest: seq<byte> :| |rest| == u.declared - u.received
        && (u.expected.Some? ==> cfg.sha256(u.content + rest) == u.expected.value)
        by {
          if u.expected.None? {
            var zero: byte := 0;
            assert |seq(u.declared - u.received, _ => zero)| == u.declared - u.received;
          }
        }
      var ops := SendRest(cfg, s, id, rest);
      assert CommitCheck(cfg, Run(cfg, s, ops), id).Ok?;
    }
  }

  lemma CommittedWasFinishable(cfg: Config, s: State, ops: seq<Op>, id: Id)
    requires Sound(cfg, s) && id in s.uploads && CommitCheck(cfg, Run(cfg, s, ops), id).Ok?
    ensures CanFinish(cfg, s.uploads[id])
  {
    var u, done := s.uploads[id], Run(cfg, s, ops).uploads[id];
    EveryRunDescends(cfg, s, ops);
    TornStaysTorn(cfg, s, ops, id);
    var rest := done.content[|u.content|..];
    assert u.content + rest == done.content;
  }

  /** What an upload holds after more of it was sent. */
  ghost predicate Further(u: Upload, rest: seq<byte>, v: Upload) {
    v.content == u.content + rest && v.received == u.received + |rest| && v.declared == u.declared
      && v.expected == u.expected
  }

  lemma EncodedFits(payload: seq<byte>)
    requires |payload| <= MAX_CHUNK_BYTES
    ensures Base64(payload).length <= MAX_CHUNK_BYTES * 4 / 3 + 8
  {
  }

  /** A run of appends that sends the rest of an upload, in chunks the store accepts. */
  lemma {:induction false} SendRest(cfg: Config, s: State, id: Id, rest: seq<byte>) returns (ops: seq<Op>)
    requires id in s.uploads && UploadSound(cfg, s.uploads[id])
    requires |s.uploads[id].content| == s.uploads[id].received
             && |rest| <= s.uploads[id].declared - s.uploads[id].received
    ensures id in Run(cfg, s, ops).uploads && Further(s.uploads[id], rest, Run(cfg, s, ops).uploads[id])
    decreases |rest|
  {
    if rest == [] {
      return [];
    }
    var n := if |rest| <= MAX_CHUNK_BYTES then 0 else |rest| - MAX_CHUNK_BYTES;
    var first, chunk := rest[..n], rest[n..];
    assert rest == first + chunk;
    var earlier := SendRest(cfg, s, id, first);
    var t := Run(cfg, s, earlier);
    var op := DoAppend(id, t.uploads[id].received, Base64(chunk), None, 0.0);
    EncodedFits(chunk);
    assert AppendCheck(cfg, t, id, op.offset, op.data, None) == Ok(chunk);
    ops := earlier + [op];
    assert ops[..|ops| - 1] == earlier;
    assert s.uploads[id].content + first + chunk == s.uploads[id].content + rest;
  }

  /** The input that fails: an append that crashes after its first byte tears an upload that was whole. */
  lemma CrashTears(cfg: Config, s: State, id: Id, offset: int, data: Encoded, digest: Option<Digest>, written: nat)
    requires Sound(cfg, s)
    requires AppendCheck(cfg, s, id, offset, data, digest).Ok?
             && AppendCheck(cfg, s, id, offset, data, digest).value != [] && written > 0
    ensures var torn := AppendCrash(cfg, s, id, offset, data, digest, written);
            && id in torn.uploads && !CanFinish(cfg, torn.uploads[id])
            && forall ops :: CommitCheck(cfg, Run(cfg, torn, ops), id).Err?
  {
    var torn := AppendCrash(cfg, s, id, offset, data, digest, written);
    assert |torn.uploads[id].content| > torn.uploads[id].received;
    TornIsSound(cfg, s, id, offset, data, digest, written);
    CommitIsReachable(cfg, torn, id);
  }

  lemma TornIsSound(cfg: Config, s: State, id: Id, offset: int, data: Encoded, digest: Option<Digest>, written: nat)
    requires Sound(cfg, s)
    ensures Sound(cfg, AppendCrash(cfg, s, id, offset, data, digest, written))
  {
  }

  /** After a crash that left bytes behind, no later run can commit the upload: its content stays too long. */
  lemma TornUploadNeverCommits(cfg: Config, s: State, ops: seq<Op>, id: Id)
    requires Sound(cfg, s) && id in s.uploads
    requires |s.uploads[id].content| > s.uploads[id].received
    ensures CommitCheck(cfg, Run(cfg, s, ops), id).Err?
  {
    TornStaysTorn(cfg, s, ops, id);
  }

  lemma {:induction false} TornStaysTorn(cfg: Config, s: State, ops: seq<Op>, id: Id)
    requires Sound(cfg, s) && id in s.uploads
    ensures var t := Run(cfg, s, ops);
            |s.uploads[id].content| > s.uploads[id].received && id in t.uploads ==>
              |t.uploads[id].content| > t.uploads[id].received
  {
    if ops != [] {
      var n := |ops| - 1;
      TornStaysTorn(cfg, s, ops[..n], id);
      EveryRunDescends(cfg, s, ops[..n]);
      StepDescends(cfg, Run(cfg, s, ops[..n]), ops[n]);
      if |s.uploads[id].content| > s.uploads[id].received {
        TornStep(cfg, Run(cfg, s, ops[..n]), ops[n], id);
      }
    }
  }

  lemma TornStep(cfg: Config, t: State, op: Op, id: Id)
    requires id in t.uploads ==> |t.uploads[id].content| > t.uploads[id].received
    requires id < t.nextId
    ensures var after := Apply(cfg, t, op); id in after.uploads ==>
            |after.uploads[id].content| > after.uploads[id].received
  {
    if Publishes(op) {
      PublicationKeepsUploads(cfg, t, op);
    } else {
      StepDescends(cfg, t, op);
    }
  }
}
