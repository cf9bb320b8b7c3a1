/**
 * The upload and download loops of the controller against the store, with any steps of other callers between
 * any two of their requests: env(k) is what the others do before request k, clock(k) the time it is served.
 */
module ArtifactTransfer {
  import opened Wrappers
  import opened ArtifactSpec
  import opened ArtifactProofs
  import opened ArtifactRuns
  import opened ArtifactStorage
  import opened ArtifactTransferSpec

  datatype ClientError = Refused(why: Refusal) | FileEnded | BadReply | TooBig | ChecksumFailed

  ghost predicate Good(store: ArtifactStore)
    reads store
  {
    store.Valid() && Sound(store.cfg, store.View()) && WithinQuota(store.cfg, store.View())
  }

  // ---------------------------------------------------------------- other callers

  predicate OfService(op: Op) { op.DoBegin? || NamesUpload(op) || op.DoDelete? || op.DoUpdate? || op.DoGc? }

  /** One step of the storage service for some other caller. */
  method Serve(store: ArtifactStore, op: Op)
    requires store.Valid() && OfService(op)
    modifies store
    ensures store.Valid() && store.View() == Apply(store.cfg, old(store.View()), op)
  {
    match op {
      case DoBegin(args, now, free) => var _ := store.Begin(args, now, free);
      case DoAppend(id, offset, data, digest, now) => var _, _ := store.Append(id, offset, data, digest, now, None);
      case DoAppendCrash(id, offset, data, digest, written) =>
        var _, _ := store.Append(id, offset, data, digest, 0.0, Some(written));
      case DoCommit(id, now) => var _ := store.Commit(id, now);
      case DoAbort(id) => var _ := store.Abort(id);
      case DoDelete(id, confirm) => var _ := store.Delete(id, confirm);
      case DoUpdate(id, days, now) => var _ := store.Update(id, days, now);
      case DoGc(now) => var _ := store.GcLocked(now);
    }
  }

  /** One step of a module broker. */
  method Broker(store: ArtifactStore, op: Op)
    requires store.Valid() && !OfService(op) && forall id <- store.objects :: id < store.nextId
    modifies store
    ensures store.Valid() && store.View() == Apply(store.cfg, old(store.View()), op)
  {
    match op {
      case DoReserve(producer, declared, now, free) => var _ := store.Reserve(producer, declared, now, free);
      case DoRelease(id) => store.Release(id);
      case DoPublishReserved(id, producer, items, days) => var _ := store.PublishReserved(id, producer, items, days);
      case DoPublishUnreserved(producer, items, budget, days, free) =>
        var _ := store.PublishUnreserved(producer, items, budget, days, free);
    }
  }

  /** One step of some other caller, carried out on the store. */
  method Perform(store: ArtifactStore, op: Op)
    requires Good(store)
    modifies store
    ensures Good(store) && store.View() == Apply(store.cfg, old(store.View()), op)
  {
    StepKeeps(store.cfg, store.View(), op);
    if OfService(op) {
      Serve(store, op);
    } else {
      Broker(store, op);
    }
  }

  method Others(store: ArtifactStore, ops: seq<Op>)
    requires Good(store)
    modifies store
    ensures Good(store) && store.View() == Run(store.cfg, old(store.View()), ops)
  {
    for i := 0 to |ops|
      invariant Good(store) && store.View() == Run(store.cfg, old(store.View()), ops[..i])
    {
      Perform(store, ops[i]);
      assert ops[..i + 1][..i] == ops[..i];
    }
    assert ops[..|ops|] == ops;
  }

  // ---------------------------------------------------------------- upload

  /** The append of a chunk, after what the others did before it. */
  method AppendChunk(store: ArtifactStore, c: Client, id: Id, offset: nat, n: nat, k: nat, ghost first: State,
                     ghost s: State)
    returns (r: Result<nat, ClientError>)
    requires Good(store) && store.View() == Run(store.cfg, s, c.env(k))
    requires k > 0 && offset == Sent(c, k - 1) < offset + n == Sent(c, k) && Halfway(store.cfg, c, first, s, id, k - 1)
    modifies store
    ensures Good(store) && s.nextId <= store.nextId
    ensures r.Ok? ==> r.value == offset + n && Halfway(store.cfg, c, first, store.View(), id, k)
    ensures r.Err? ==> Requested(store.cfg, c, first, store.View(), id, AppendRefused(k), None)
  {
    var chunk := c.file[offset..offset + n];
    assert ChunkOp(store.cfg, c, id, k) ==
           DoAppend(id, offset, Base64(chunk), Some(store.cfg.sha256(chunk)), c.clock(k));
    ChunkSent(store.cfg, c, first, s, id, k);
    var appended, _ := store.Append(id, offset, Base64(chunk), Some(store.cfg.sha256(chunk)), c.clock(k), None);
    if appended.Err? {
      return Err(Refused(appended.error));
    }
    if appended.value != offset + n {
      return Err(BadReply);
    }
    return Ok(offset + n);
  }

  /** One turn of the upload loop: whatever the others do, a read that may come up short, and an append. */
  method SendChunk(store: ArtifactStore, c: Client, id: Id, offset: nat, k: nat, ghost first: State)
    returns (r: Result<nat, ClientError>, ghost course: Course)
    requires Good(store) && id < store.nextId && k > 0 && offset == Sent(c, k - 1) < |c.file|
    requires Halfway(store.cfg, c, first, store.View(), id, k - 1)
    modifies store
    ensures Good(store) && old(store.nextId) <= store.nextId
    ensures r.Ok? ==> r.value == Sent(c, k) > offset && Halfway(store.cfg, c, first, store.View(), id, k)
    ensures r.Err? ==> Requested(store.cfg, c, first, store.View(), id, course, None)
  {
    ghost var s := store.View();
    course := AppendRefused(k);
    Others(store, c.env(k));
    var n := Min(c.readSize(k), Min(UPLOAD_CHUNK, |c.file| - offset));
    if n == 0 {
      EveryRunDescends(store.cfg, s, c.env(k));
      StopsShort(store.cfg, c, first, s, id, k);
      return Err(FileEnded), FileShort(k - 1);
    }
    r := AppendChunk(store, c, id, offset, n, k, first, s);
  }

  /** The chunks, one after another until the whole file is sent. */
  method SendChunks(store: ArtifactStore, c: Client, id: Id, ghost first: State)
    returns (failed: Option<ClientError>, chunks: nat, ghost course: Course)
    requires Good(store) && id < store.nextId && store.View() == first
    modifies store
    ensures Good(store)
    ensures failed.None? ==>
              && Sent(c, chunks) == |c.file| && (chunks > 0 ==> Sent(c, chunks - 1) < |c.file|)
              && Halfway(store.cfg, c, first, store.View(), id, chunks)
    ensures failed.Some? ==> Requested(store.cfg, c, first, store.View(), id, course, None)
  {
    var offset := 0;
    chunks, course := 0, NotBegun;
    Starts(store.cfg, c, first, id);
    while offset < |c.file|
      invariant offset == Sent(c, chunks) && (chunks > 0 ==> Sent(c, chunks - 1) < |c.file|)
      invariant Good(store) && id < store.nextId
      invariant Halfway(store.cfg, c, first, store.View(), id, chunks)
      decreases |c.file| - offset
    {
      var sent;
      sent, course := SendChunk(store, c, id, offset, chunks + 1, first);
      if sent.Err? {
        return Some(sent.error), chunks, course;
      }
      offset, chunks := sent.value, chunks + 1;
    }
    failed := None;
  }

  function Outcome(r: Result<Id, ClientError>): Option<Id> { if r.Ok? then Some(r.value) else None }

  /** The commit of a file that has been sent. */
  method CommitFile(store: ArtifactStore, c: Client, id: Id, chunks: nat, ghost first: State)
    returns (r: Result<Id, ClientError>, ghost course: Course)
    requires Good(store) && Halfway(store.cfg, c, first, store.View(), id, chunks)
    requires Sent(c, chunks) == |c.file| && (chunks > 0 ==> Sent(c, chunks - 1) < |c.file|)
    modifies store
    ensures Good(store) && Requested(store.cfg, c, first, store.View(), id, course, Outcome(r))
  {
    ghost var s := store.View();
    Others(store, c.env(chunks + 1));
    CommitSent(store.cfg, c, first, s, id, chunks + 1);
    var committed := store.Commit(id, c.clock(chunks + 1));
    if committed.Err? {
      return Err(Refused(committed.error)), CommitRefused(chunks);
    }
    return Ok(committed.value), Stored(chunks);
  }

  /** The requests after begin: the chunks, then the commit. */
  method SendAll(store: ArtifactStore, c: Client, id: Id) returns (r: Result<Id, ClientError>, ghost course: Course)
    requires Good(store) && id < store.nextId
    modifies store
    ensures Good(store) && Requested(store.cfg, c, old(store.View()), store.View(), id, course, Outcome(r))
  {
    ghost var first := store.View();
    var failed, chunks;
    failed, chunks, course := SendChunks(store, c, id, first);
    if failed.Some? {
      return Err(failed.value), course;
    }
    r, course := CommitFile(store, c, id, chunks, first);
  }

  /** The identifier that begin draws once the others have done what they do before it, if it admits the upload. */
  ghost function Begun(cfg: Config, s: State, c: Client): Option<Id> {
    Given(ArtifactSpec.Begin(cfg, Run(cfg, s, c.env(0)), c.args, c.clock(0), c.free).1)
  }

  /** The others' first steps, and begin. */
  method BeginUpload(store: ArtifactStore, c: Client) returns (r: Result<Id, ClientError>)
    requires Good(store) && c.args.size == |c.file|
    modifies store
    ensures Good(store) && store.View() == Run(store.cfg, old(store.View()), c.env(0) + [BeginOp(c)])
    ensures Outcome(r) == Begun(store.cfg, old(store.View()), c)
    ensures r.Ok? ==> r.value < store.nextId
    ensures r.Ok? && KeepsOff(c.env, r.value) ==> Underway(store.cfg, c, store.View(), r.value, 0)
  {
    ghost var first := store.View();
    Others(store, c.env(0));
    BeginRuns(store.cfg, c, first);
    BeginStarts(store.cfg, c, store.View());
    var begun := store.Begin(c.args, c.clock(0), c.free);
    return if begun.Err? then Err(Refused(begun.error)) else Ok(begun.value);
  }

  method AbortUpload(store: ArtifactStore, id: Id)
    requires Good(store)
    modifies store
    ensures Good(store) && store.View() == Apply(store.cfg, old(store.View()), DoAbort(id)) && id !in store.uploads
  {
    RemovalKeeps(store.cfg, store.View(), id, true);
    var _ := store.Abort(id);
  }

  /** The requests after begin, and an abort when they fail; mid is the store before it. */
  method SendOrAbort(store: ArtifactStore, c: Client, id: Id)
    returns (r: Result<Id, ClientError>, ghost course: Course, ghost mid: State)
    requires Good(store) && id < store.nextId
    modifies store
    ensures Good(store) && Requested(store.cfg, c, old(store.View()), mid, id, course, Outcome(r))
    ensures store.View() == if r.Ok? then mid else Apply(store.cfg, mid, DoAbort(id))
    ensures r.Err? ==> id !in store.uploads
  {
    r, course := SendAll(store, c, id);
    mid := store.View();
    if r.Err? {
      AbortUpload(store, id);
    }
  }

  /**
   * The chunked upload of a file of fixed content. All that happens on the store meanwhile is the client's own requests
   * and the others' steps between them. Whenever it succeeds, the artifact it reports holds exactly the bytes of the
   * file, whatever short reads happened and whatever callers that keep off the upload did. It then succeeds exactly
   * when the store admits it and no sweep an hour after an acknowledgement comes before the next request. When it
   * fails, nothing is left behind.
   */
  method UploadFile(store: ArtifactStore, c: Client)
    returns (r: Result<Id, ClientError>, uploadId: Option<Id>, ghost course: Course)
    requires Good(store) && c.args.size == |c.file| && c.args.expected.Some?
    modifies store
    ensures Good(store) && uploadId == Begun(store.cfg, old(store.View()), c)
    ensures Uploads(store.cfg, c, old(store.View()), store.View(), uploadId, Outcome(r), course)
  {
    ghost var first := store.View();
    var begun := BeginUpload(store, c);
    if begun.Err? {
      return begun, None, NotBegun;
    }
    uploadId := Some(begun.value);
    ghost var s, mid := store.View(), first;
    r, course, mid := SendOrAbort(store, c, begun.value);
    UploadEnds(store.cfg, c, first, s, mid, store.View(), begun.value, Outcome(r), course);
  }

  // ---------------------------------------------------------------- download

  /** One read of an artifact as it was first seen, after what the others do before it. */
  method ReadPiece(store: ArtifactStore, id: Id, info: Object, offset: nat, ops: seq<Op>, now: real)
    returns (r: Result<seq<byte>, ClientError>)
    requires Good(store) && id < store.nextId && offset < info.bytes == |info.content|
    requires id in store.objects ==> SameArtifact(info, store.objects[id])
    modifies store
    ensures Good(store) && store.View() == Run(store.cfg, old(store.View()), ops) && id < store.nextId
    ensures id in store.objects ==> SameArtifact(info, store.objects[id])
    ensures r.Ok? <==> Readable(store.View(), id, now)
    ensures r.Ok? ==> r.value == info.content[offset..offset + Min(DOWNLOAD_CHUNK, info.bytes - offset)]
  {
    EveryRunDescends(store.cfg, store.View(), ops);
    Others(store, ops);
    var length := Min(DOWNLOAD_CHUNK, info.bytes - offset);
    PieceReads(store.cfg, store.View(), id, info, offset, length, now);
    var reply := store.Read(id, offset, length, now);
    if reply.Err? {
      return Err(Refused(reply.error));
    }
    var chunk := reply.value.payload;
    if reply.value.offset != offset || |chunk| != length || reply.value.nextOffset != offset + |chunk|
       || store.cfg.sha256(chunk) != reply.value.sha256 {
      return Err(BadReply);
    }
    return Ok(chunk);
  }

  /** The reads of an artifact as it was first seen, one after another. */
  method ReadAll(store: ArtifactStore, id: Id, info: Object, env: nat -> seq<Op>, clock: nat -> real)
    returns (r: Result<seq<byte>, ClientError>, count: nat)
    requires Good(store) && id in store.objects && store.objects[id] == info && id < store.nextId
    modifies store
    ensures Good(store) && count <= Pieces(info.bytes)
    ensures store.View() == Run(store.cfg, old(store.View()), Between(env, count))
    ensures r.Ok? <==> StaysReadable(store.cfg, old(store.View()), id, env, clock, Pieces(info.bytes))
    ensures r.Ok? ==> r.value == info.content
  {
    var written: seq<byte>, offset := [], 0;
    count := 0;
    ghost var first := store.View();
    while offset < info.bytes
      invariant offset == |written| && Good(store) && id < store.nextId
      invariant id in store.objects ==> SameArtifact(info, store.objects[id])
      invariant Reading(store.cfg, first, store.View(), id, info, env, clock, count, written)
      decreases info.bytes - offset
    {
      ghost var s := store.View();
      var chunk := ReadPiece(store, id, info, offset, env(count + 1), clock(count + 1));
      if chunk.Err? {
        ReadingStops(store.cfg, first, s, id, info, env, clock, count + 1, written);
        return chunk, count + 1;
      }
      ReadingStep(store.cfg, first, s, id, info, env, clock, count + 1, written, chunk.value);
      written, offset, count := written + chunk.value, offset + |chunk.value|, count + 1;
    }
    ReadingEnds(store.cfg, first, store.View(), id, info, env, clock, count, written);
    r := Ok(written);
  }

  /**
   * The chunked download. It changes nothing on the store. Whatever anybody does there meanwhile, it succeeds exactly
   * when the artifact is within the caller's limit and is there, unexpired, at each of its requests; it has then
   * written exactly the bytes the artifact had at its first request.
   */
  method DownloadFile(store: ArtifactStore, id: Id, maximum: nat, env: nat -> seq<Op>, clock: nat -> real)
    returns (r: Result<seq<byte>, ClientError>, count: nat)
    requires Good(store)
    modifies store
    ensures Good(store) && store.View() == Run(store.cfg, old(store.View()), Between(env, count))
    ensures r.Ok? <==> Downloadable(store.cfg, old(store.View()), id, maximum, env, clock)
    ensures r.Ok? ==> r.value == old(store.objects)[id].content && |r.value| <= maximum
    ensures count <= if id in old(store.objects) then Pieces(old(store.objects)[id].bytes) else 0
  {
    count := 0;
    if id !in store.objects {
      return Err(Refused(NotFound)), count;
    }
    if store.objects[id].expires <= clock(0) {
      return Err(Refused(Expired)), count;
    }
    var info := store.objects[id];
    if info.bytes > maximum {
      return Err(TooBig), count;
    }
    r, count := ReadAll(store, id, info, env, clock);
    if r.Ok? && store.cfg.sha256(r.value) != info.sha256 {
      r := Err(ChecksumFailed);
    }
  }

  /**
   * End to end: what is uploaded is what is downloaded, after any steps of anybody in between. The download succeeds
   * exactly when the file fits the caller's limit and the steps that concern the artifact itself, its deletion, its
   * updates, and sweeps after its expiry, leave it there, unexpired, for every read.
   */
  method RoundTrip(store: ArtifactStore, c: Client, between: seq<Op>, later: nat -> seq<Op>, clock: nat -> real,
                   maximum: nat)
    returns (sent: Result<Id, ClientError>, uploadId: Option<Id>, received: Result<seq<byte>, ClientError>,
             ghost course: Course)
    requires Good(store) && c.args.size == |c.file| && c.args.expected.Some?
    modifies store
    ensures uploadId == Begun(store.cfg, old(store.View()), c)
    ensures sent.Ok? ==> uploadId.Some? && course.Stored?
    ensures uploadId.Some? && KeepsOff(c.env, uploadId.value) && ReadsOn(c)
            && c.args.expected == Some(store.cfg.sha256(c.file)) ==>
              (sent.Ok? <==> Unswept(store.cfg, c, Chunks(c) + 1))
    ensures sent.Ok? && KeepsOff(c.env, uploadId.value) ==>
              && (received.Ok? ==> received.value == c.file)
              && (received.Ok? <==>
                  |c.file| <= maximum
                  && Lasts(store.cfg, sent.value, Uploaded(store.cfg, c, c.clock(course.chunks + 1)), between, later,
                           clock,
                           Pieces(|c.file|)))
  {
    var count;
    sent, uploadId, course := UploadFile(store, c);
    if sent.Err? {
      return sent, uploadId, Err(FileEnded), course;
    }
    ghost var s := store.View();
    EveryRunDescends(store.cfg, s, between);
    Others(store, between);
    if KeepsOff(c.env, uploadId.value) {
      LastsIsDownloadable(store.cfg, s, sent.value, maximum, between, later, clock);
    }
    received, count := DownloadFile(store, sent.value, maximum, later, clock);
  }
}
