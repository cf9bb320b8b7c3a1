/** The requests of the controller's transfer loops as steps of a run, between whatever steps other callers take. */
module ArtifactTransferSpec {
  import opened Wrappers
  import opened ArtifactSpec
  import opened ArtifactProofs
  import opened ArtifactRuns
  import opened ArtifactFates

  const UPLOAD_CHUNK := 512 * 1024
  const DOWNLOAD_CHUNK := 256 * 1024

  function Min(a: nat, b: nat): nat { if a <= b then a else b }

  lemma {:induction false} RunThen(cfg: Config, s: State, first: seq<Op>, rest: seq<Op>)
    ensures Run(cfg, s, first + rest) == Run(cfg, Run(cfg, s, first), rest)
  {
    if rest == [] {
      assert first + rest == first;
    } else {
      var n := |rest| - 1;
      RunThen(cfg, s, first, rest[..n]);
      assert (first + rest)[..|first| + n] == first + rest[..n];
    }
  }

  lemma RunOne(cfg: Config, s: State, op: Op)
    ensures Run(cfg, s, [op]) == Apply(cfg, s, op)
  {
    assert [op][..0] == [];
  }

  // ---------------------------------------------------------------- other callers

  /** A step that names an upload of ours. */
  predicate Meddles(op: Op, id: Id) { NamesUpload(op) && op.id == id }

  /** Nobody else knows the upload identifier; sweeps may still remove the upload. */
  ghost predicate KeepsOff(env: nat -> seq<Op>, id: Id) { forall k: nat, op :: op in env(k) ==> !Meddles(op, id) }

  ghost predicate Quiet(env: nat -> seq<Op>) { forall k: nat :: env(k) == [] }

  /** A sweep, on its own or inside a begin whose arguments are valid, an hour after a time. */
  predicate Sweeps(cfg: Config, op: Op, since: real) {
    match op
    case DoGc(now) => now >= since + 3600.0
    case DoBegin(args, now, _) => BeginArgsOk(cfg, args) && now >= since + 3600.0
    case _ => false
  }

  lemma StepKeepsOff(cfg: Config, s: State, op: Op, id: Id)
    requires !Meddles(op, id) && id < s.nextId && id in s.uploads
    ensures id in Apply(cfg, s, op).uploads <==> !Sweeps(cfg, op, s.uploads[id].updated)
    ensures id in Apply(cfg, s, op).uploads ==> Apply(cfg, s, op).uploads[id] == s.uploads[id]
  {
    if Publishes(op) {
      PublicationKeepsUploads(cfg, s, op);
    } else if NamesUpload(op) {
      OtherUploadUntouched(cfg, s, op, id);
    }
  }

  lemma OtherUploadUntouched(cfg: Config, s: State, op: Op, id: Id)
    requires NamesUpload(op) && op.id != id && id in s.uploads
    ensures id in Apply(cfg, s, op).uploads && Apply(cfg, s, op).uploads[id] == s.uploads[id]
  {
  }

  /**
   * While others keep off it, an upload is exactly as it was, unless one of their steps is a sweep an hour after its
   * last acknowledgement: then, and only then, it is gone.
   */
  lemma {:induction false} RunKeepsOff(cfg: Config, s: State, ops: seq<Op>, id: Id)
    requires (forall op <- ops :: !Meddles(op, id)) && id < s.nextId && id in s.uploads
    ensures id in Run(cfg, s, ops).uploads <==> forall op <- ops :: !Sweeps(cfg, op, s.uploads[id].updated)
    ensures id in Run(cfg, s, ops).uploads ==> Run(cfg, s, ops).uploads[id] == s.uploads[id]
  {
    if ops != [] {
      var n := |ops| - 1;
      var t := Run(cfg, s, ops[..n]);
      assert ops == ops[..n] + [ops[n]];
      RunKeepsOff(cfg, s, ops[..n], id);
      EveryRunDescends(cfg, s, ops[..n]);
      StepDescends(cfg, t, ops[n]);
      if id in t.uploads {
        StepKeepsOff(cfg, t, ops[n], id);
      }
    }
  }

  // ---------------------------------------------------------------- the requests of an upload

  /**
   * An upload: the file and what begin is asked for, what the others do before each request, how much each read yields,
   * when each request is served, and the space that begin finds free.
   */
  datatype Client = Client(file: seq<byte>, args: BeginArgs, env: nat -> seq<Op>, readSize: nat -> nat,
                           clock: nat -> real, free: int)

  /** The bytes sent by the first k chunks: a read may come up short of a chunk. */
  function Sent(c: Client, k: nat): (n: nat)
    ensures n <= |c.file|
  {
    if k == 0 then 0 else var at := Sent(c, k - 1); at + Min(c.readSize(k), Min(UPLOAD_CHUNK, |c.file| - at))
  }

  lemma {:induction false} SentGrows(c: Client, j: nat, k: nat)
    requires j <= k
    ensures Sent(c, j) <= Sent(c, k)
    decreases k - j
  {
    if j < k {
      SentGrows(c, j, k - 1);
    }
  }

  /** The k-th chunk, counting from one. */
  function Piece(c: Client, k: nat): seq<byte>
    requires k > 0
  {
    SentGrows(c, k - 1, k);
    c.file[Sent(c, k - 1)..Sent(c, k)]
  }

  function ChunkOp(cfg: Config, c: Client, id: Id, k: nat): Op
    requires k > 0
  {
    DoAppend(id, Sent(c, k - 1), Base64(Piece(c, k)), Some(cfg.sha256(Piece(c, k))), c.clock(k))
  }

  function CommitOp(c: Client, id: Id, k: nat): Op { DoCommit(id, c.clock(k)) }

  /** The first k chunks, each after whatever the others do before it. */
  function Sending(cfg: Config, c: Client, id: Id, k: nat): seq<Op> {
    if k == 0 then [] else Sending(cfg, c, id, k - 1) + (c.env(k) + [ChunkOp(cfg, c, id, k)])
  }

  /** How an upload went: how many chunks it sent, and whether begin, a read, the last append or the commit ended it. */
  datatype Course =
    | NotBegun
    | FileShort(chunks: nat)
    | AppendRefused(chunks: nat)
    | CommitRefused(chunks: nat)
    | Stored(chunks: nat)

  /** What happens on the store after begin: the client's chunks and its commit, and the others' steps before each. */
  function Requests(cfg: Config, c: Client, id: Id, course: Course): seq<Op> {
    match course
    case NotBegun => []
    case FileShort(n) => Sending(cfg, c, id, n) + c.env(n + 1)
    case AppendRefused(n) => Sending(cfg, c, id, n)
    case CommitRefused(n) => Sending(cfg, c, id, n) + (c.env(n + 1) + [CommitOp(c, id, n + 1)])
    case Stored(n) => Sending(cfg, c, id, n) + (c.env(n + 1) + [CommitOp(c, id, n + 1)])
  }

  function BeginOp(c: Client): Op { DoBegin(c.args, c.clock(0), c.free) }

  /** Everything that happens on the store during an upload: one that began and was not stored is aborted at the end. */
  function History(cfg: Config, c: Client, id: Id, course: Course): seq<Op> {
    var opening := c.env(0) + [BeginOp(c)];
    match course
    case NotBegun => opening
    case Stored(_) => opening + Requests(cfg, c, id, course)
    case _ => opening + Requests(cfg, c, id, course) + [DoAbort(id)]
  }

  lemma HistoryRuns(cfg: Config, c: Client, first: State, id: Id, course: Course)
    requires !course.NotBegun?
    ensures var t := Run(cfg, Run(cfg, first, c.env(0) + [BeginOp(c)]), Requests(cfg, c, id, course));
            Run(cfg, first, History(cfg, c, id, course)) == if course.Stored? then t else Apply(cfg, t, DoAbort(id))
  {
    var begun := c.env(0) + [BeginOp(c)] + Requests(cfg, c, id, course);
    RunThen(cfg, first, c.env(0) + [BeginOp(c)], Requests(cfg, c, id, course));
    RunThen(cfg, first, begun, [DoAbort(id)]);
    RunOne(cfg, Run(cfg, first, begun), DoAbort(id));
  }

  /** None of the others' steps before any request up to the k-th sweeps what the request before it had acknowledged. */
  ghost predicate Unswept(cfg: Config, c: Client, k: nat) {
    forall j: nat, op :: 0 < j <= k && op in c.env(j) ==> !Sweeps(cfg, op, c.clock(j - 1))
  }

  lemma UnsweptStep(cfg: Config, c: Client, k: nat)
    requires k > 0
    ensures Unswept(cfg, c, k) <==> Unswept(cfg, c, k - 1) && forall op <- c.env(k) :: !Sweeps(cfg, op, c.clock(k - 1))
  {
  }

  ghost predicate ReadsOn(c: Client) { forall k: nat :: c.readSize(k) > 0 }

  /** How many chunks it takes to send the whole file, when k of them do not send more than it has. */
  ghost function ChunksFrom(c: Client, k: nat): (n: nat)
    requires ReadsOn(c)
    ensures k <= n && Sent(c, n) == |c.file|
    ensures forall j :: k <= j < n ==> Sent(c, j) < |c.file|
    decreases |c.file| - Sent(c, k)
  {
    if Sent(c, k) == |c.file| then k
    else
      assert c.readSize(k + 1) > 0;
      ChunksFrom(c, k + 1)
  }

  /** How many chunks it takes to send the whole file. */
  ghost function Chunks(c: Client): nat
    requires ReadsOn(c)
  {
    ChunksFrom(c, 0)
  }

  lemma ChunksLeft(c: Client, k: nat)
    requires ReadsOn(c)
    ensures Sent(c, k) < |c.file| <==> k < Chunks(c)
  {
    if k >= Chunks(c) {
      SentGrows(c, Chunks(c), k);
    }
  }

  // ---------------------------------------------------------------- the upload on the store

  /** Every chunk the client may send passes the encoded-length check of the store. */
  lemma ChunkFits(payload: seq<byte>)
    requires |payload| <= UPLOAD_CHUNK
    ensures Base64(payload).length <= MAX_CHUNK_BYTES * 4 / 3 + 8
  {
  }

  /** Our upload is on the store as begin was asked, with the first offset bytes, last acknowledged at a time. */
  ghost predicate Holds(s: State, id: Id, file: seq<byte>, offset: nat, a: BeginArgs, at: real)
    requires offset <= |file|
  {
    && id < s.nextId && id in s.uploads && a.retentionDays >= 0
    && s.uploads[id] == Upload(a.name, a.mimeType, a.producer, |file|, offset, a.expected, a.retentionDays, at,
                               file[..offset])
  }

  /** What the others do before a request leaves our upload as it is, unless they sweep it away. */
  lemma Meanwhile(cfg: Config, s: State, ops: seq<Op>, id: Id, file: seq<byte>, offset: nat, a: BeginArgs, at: real)
    requires offset <= |file| && (forall op <- ops :: !Meddles(op, id)) && Holds(s, id, file, offset, a, at)
    ensures var t := Run(cfg, s, ops);
            && (id in t.uploads <==> forall op <- ops :: !Sweeps(cfg, op, at))
            && (id in t.uploads ==> Holds(t, id, file, offset, a, at))
  {
    EveryRunDescends(cfg, s, ops);
    RunKeepsOff(cfg, s, ops, id);
  }

  /**
   * The next chunk of an upload is acknowledged exactly when the upload is still there, and then it is further along.
   */
  lemma ChunkLands(cfg: Config, s: State, id: Id, file: seq<byte>, offset: nat, n: nat, a: BeginArgs, at: real,
                   now: real)
    requires Sound(cfg, s) && offset + n <= |file| && n <= UPLOAD_CHUNK
    requires id in s.uploads ==> Holds(s, id, file, offset, a, at)
    ensures var chunk := file[offset..offset + n];
            var (after, r) := Append(cfg, s, id, offset, Base64(chunk), Some(cfg.sha256(chunk)), now);
            && (id in s.uploads <==> r.Ok?)
            && (r.Ok? ==> r.value == offset + n && Holds(after, id, file, offset + n, a, now))
  {
    var chunk := file[offset..offset + n];
    ChunkFits(chunk);
    assert file[..offset] + chunk == file[..offset + n];
    if id in s.uploads {
      assert AppendCheck(cfg, s, id, offset, Base64(chunk), Some(cfg.sha256(chunk))) == Ok(chunk);
    }
  }

  /** Our upload once some chunks have been acknowledged: nobody has meddled with it or swept it. */
  ghost predicate Underway(cfg: Config, c: Client, s: State, id: Id, chunks: nat) {
    && KeepsOff(c.env, id) && Holds(s, id, c.file, Sent(c, chunks), c.args, c.clock(chunks))
       && Unswept(cfg, c, chunks)
  }

  /** Our upload was swept away before one of the requests it takes. */
  ghost predicate Overrun(cfg: Config, c: Client, k: nat) {
    !Unswept(cfg, c, k) && (ReadsOn(c) ==> k <= Chunks(c) + 1)
  }

  /**
   * The artifact that an upload becomes when it is committed: the file, named, typed, owned and kept as begin was
   * asked.
   */
  function Uploaded(cfg: Config, c: Client, now: real): Object {
    Object(c.args.name, c.args.mimeType, c.args.producer, |c.file|, cfg.sha256(c.file), now,
           now + 86400.0 * c.args.retentionDays as real, c.file)
  }

  predicate Holding(cfg: Config, c: Client, s: State, id: Id, now: real) {
    id in s.objects && s.objects[id] == Uploaded(cfg, c, now)
  }

  lemma BeginStarts(cfg: Config, c: Client, s: State)
    requires c.args.size == |c.file|
    ensures var (after, r) := Begin(cfg, s, c.args, c.clock(0), c.free);
            r.Ok? && KeepsOff(c.env, r.value) ==> Underway(cfg, c, after, r.value, 0)
  {
  }

  lemma BeginRuns(cfg: Config, c: Client, first: State)
    requires Sound(cfg, Run(cfg, first, c.env(0))) && WithinQuota(cfg, Run(cfg, first, c.env(0)))
    ensures var after := Begin(cfg, Run(cfg, first, c.env(0)), c.args, c.clock(0), c.free).0;
            && after == Run(cfg, first, c.env(0) + [BeginOp(c)]) && Sound(cfg, after) && WithinQuota(cfg, after)
  {
    var t := Run(cfg, first, c.env(0));
    BeginKeeps(cfg, t, c.args, c.clock(0), c.free);
    RunOne(cfg, t, BeginOp(c));
    RunThen(cfg, first, c.env(0), [BeginOp(c)]);
  }

  // ---- one chunk

  function Appended(cfg: Config, t: State, op: Op): (State, Result<nat, Refusal>)
    requires op.DoAppend?
  {
    Append(cfg, t, op.id, op.offset, op.data, op.digest, op.now)
  }

  lemma AppendedRuns(cfg: Config, s: State, ops: seq<Op>, op: Op)
    requires op.DoAppend? && Sound(cfg, Run(cfg, s, ops)) && WithinQuota(cfg, Run(cfg, s, ops))
    ensures var after := Appended(cfg, Run(cfg, s, ops), op).0;
            && after == Run(cfg, s, ops + [op]) && after.nextId >= s.nextId && Sound(cfg, after)
               && WithinQuota(cfg, after)
  {
    EveryRunDescends(cfg, s, ops);
    AppendKeeps(cfg, Run(cfg, s, ops), op.id, op.offset, op.data, op.digest, op.now, 0);
    RunOne(cfg, Run(cfg, s, ops), op);
    RunThen(cfg, s, ops, [op]);
  }

  /**
   * With others keeping off, chunk k is acknowledged exactly when none of them sweeps, and the upload is further along.
   */
  lemma ChunkGoes(cfg: Config, c: Client, s: State, id: Id, k: nat)
    requires k > 0 && Underway(cfg, c, s, id, k - 1) && Sound(cfg, Run(cfg, s, c.env(k)))
    ensures var (after, r) := Appended(cfg, Run(cfg, s, c.env(k)), ChunkOp(cfg, c, id, k));
            && (r.Ok? <==> forall op <- c.env(k) :: !Sweeps(cfg, op, c.clock(k - 1)))
            && (r.Ok? ==> r.value == Sent(c, k) && Holds(after, id, c.file, r.value, c.args, c.clock(k)))
  {
    var at := Sent(c, k - 1);
    Meanwhile(cfg, s, c.env(k), id, c.file, at, c.args, c.clock(k - 1));
    ChunkLands(cfg, Run(cfg, s, c.env(k)), id, c.file, at, Sent(c, k) - at, c.args, c.clock(k - 1),
               c.clock(k));
  }

  lemma ChunkLeads(cfg: Config, c: Client, s: State, id: Id, k: nat)
    requires k > 0 && Underway(cfg, c, s, id, k - 1) && Sound(cfg, Run(cfg, s, c.env(k))) && Sent(c, k - 1) < |c.file|
    ensures var (after, r) := Appended(cfg, Run(cfg, s, c.env(k)), ChunkOp(cfg, c, id, k));
            if r.Ok? then Underway(cfg, c, after, id, k) else Overrun(cfg, c, k)
  {
    ChunkGoes(cfg, c, s, id, k);
    UnsweptStep(cfg, c, k);
    if ReadsOn(c) {
      ChunksLeft(c, k - 1);
    }
  }

  // ---- all of them

  /** The store once some chunks have been sent: the run so far, and our upload in it if nobody meddled. */
  ghost predicate Halfway(cfg: Config, c: Client, first: State, s: State, id: Id, chunks: nat) {
    && s == Run(cfg, first, Sending(cfg, c, id, chunks))
    && (Underway(cfg, c, first, id, 0) ==> Underway(cfg, c, s, id, chunks))
  }

  /**
   * What comes of an upload that is ours alone: what it stores is exactly the file; if reads and digest are right, it
   * stores it exactly when nobody sweeps it, an hour after what it last had acknowledged, before one of its requests.
   */
  ghost predicate SentAll(cfg: Config, c: Client, s: State, stored: Option<Id>, now: real) {
    && (stored.Some? ==> Holding(cfg, c, s, stored.value, now))
    && (ReadsOn(c) && c.args.expected == Some(cfg.sha256(c.file)) ==>
        (stored.Some? <==> Unswept(cfg, c, Chunks(c) + 1)))
  }

  /** The requests after begin have been made, and this is what they have led to. */
  ghost predicate Requested(cfg: Config, c: Client, first: State, s: State, id: Id, course: Course,
                            stored: Option<Id>) {
    && !course.NotBegun? && (stored.Some? <==> course.Stored?) && s == Run(cfg, first, Requests(cfg, c, id, course))
    && (Underway(cfg, c, first, id, 0) ==> SentAll(cfg, c, s, stored, c.clock(course.chunks + 1)))
  }

  /**
   * What an upload comes to. The store is where the client's requests and the others' steps lead. What is stored holds
   * the file when nobody else names the upload; if the client also reads on and expects the file's own digest, it is
   * stored exactly when no sweep comes too late. What is not stored leaves nothing behind.
   */
  ghost predicate Uploads(cfg: Config, c: Client, first: State, after: State, uploadId: Option<Id>, stored: Option<Id>,
                          course: Course) {
    var id := if uploadId.Some? then uploadId.value else 0;
    && after == Run(cfg, first, History(cfg, c, id, course))
    && (course.NotBegun? <==> uploadId.None?) && (stored.Some? <==> course.Stored?)
    && (stored.Some? && KeepsOff(c.env, id) ==> Holding(cfg, c, after, stored.value, c.clock(course.chunks + 1)))
    && (uploadId.Some? && KeepsOff(c.env, id) && ReadsOn(c) && c.args.expected == Some(cfg.sha256(c.file)) ==>
          (stored.Some? <==> Unswept(cfg, c, Chunks(c) + 1)))
    && (uploadId.Some? && stored.None? ==> id !in after.uploads)
  }

  lemma UploadEnds(cfg: Config, c: Client, first: State, s: State, mid: State, after: State, id: Id,
                   stored: Option<Id>, course: Course)
    requires s == Run(cfg, first, c.env(0) + [BeginOp(c)])
    requires KeepsOff(c.env, id) ==> Underway(cfg, c, s, id, 0)
    requires Requested(cfg, c, s, mid, id, course, stored)
    requires after == if stored.Some? then mid else Apply(cfg, mid, DoAbort(id))
    ensures Uploads(cfg, c, first, after, Some(id), stored, course)
  {
    HistoryRuns(cfg, c, first, id, course);
  }

  lemma Starts(cfg: Config, c: Client, first: State, id: Id)
    ensures Halfway(cfg, c, first, first, id, 0)
  {
  }

  lemma StopsShort(cfg: Config, c: Client, first: State, s: State, id: Id, k: nat)
    requires k > 0 && Halfway(cfg, c, first, s, id, k - 1) && c.readSize(k) == 0
    ensures Requested(cfg, c, first, Run(cfg, s, c.env(k)), id, FileShort(k - 1), None)
  {
    RunThen(cfg, first, Sending(cfg, c, id, k - 1), c.env(k));
  }

  lemma OverrunEnds(cfg: Config, c: Client, s: State, k: nat, now: real)
    requires Overrun(cfg, c, k)
    ensures SentAll(cfg, c, s, None, now)
  {
  }

  lemma ChunkSent(cfg: Config, c: Client, first: State, s: State, id: Id, k: nat)
    requires k > 0 && Halfway(cfg, c, first, s, id, k - 1) && Sent(c, k - 1) < |c.file|
    requires Sound(cfg, Run(cfg, s, c.env(k))) && WithinQuota(cfg, Run(cfg, s, c.env(k)))
    ensures var (after, r) := Appended(cfg, Run(cfg, s, c.env(k)), ChunkOp(cfg, c, id, k));
            && Sound(cfg, after) && WithinQuota(cfg, after) && after.nextId >= s.nextId
            && if r.Ok? then Halfway(cfg, c, first, after, id, k)
               else Requested(cfg, c, first, after, id, AppendRefused(k), None)
  {
    var op := ChunkOp(cfg, c, id, k);
    var (after, r) := Appended(cfg, Run(cfg, s, c.env(k)), op);
    AppendedRuns(cfg, s, c.env(k), op);
    RunThen(cfg, first, Sending(cfg, c, id, k - 1), c.env(k) + [op]);
    if Underway(cfg, c, first, id, 0) {
      ChunkLeads(cfg, c, s, id, k);
      if r.Err? {
        OverrunEnds(cfg, c, after, k, c.clock(k + 1));
      }
    }
  }

  // ---- the commit

  function Given(r: Result<Id, Refusal>): Option<Id> { if r.Ok? then Some(r.value) else None }

  /**
   * With others keeping off, the commit of a whole and correct upload goes through exactly when none of them sweeps it.
   */
  lemma CommitLeads(cfg: Config, c: Client, s: State, id: Id, k: nat)
    requires k > 0 && Underway(cfg, c, s, id, k - 1) && Sent(c, k - 1) == |c.file|
    ensures var (after, r) := Commit(cfg, Run(cfg, s, c.env(k)), id, c.clock(k));
            && (r.Ok? ==> Unswept(cfg, c, k) && Holding(cfg, c, after, r.value, c.clock(k)))
            && (c.args.expected == Some(cfg.sha256(c.file)) ==> (r.Ok? <==> Unswept(cfg, c, k)))
  {
    Meanwhile(cfg, s, c.env(k), id, c.file, |c.file|, c.args, c.clock(k - 1));
    assert c.file[..|c.file|] == c.file;
    UnsweptStep(cfg, c, k);
  }

  /** The commit is the request after the last chunk. */
  lemma LastChunk(c: Client, k: nat)
    requires k > 0 && Sent(c, k - 1) == |c.file| && (k > 1 ==> Sent(c, k - 2) < |c.file|) && ReadsOn(c)
    ensures k == Chunks(c) + 1
  {
    ChunksLeft(c, k - 1);
    if k > 1 {
      ChunksLeft(c, k - 2);
    }
  }

  lemma CommitRuns(cfg: Config, s: State, ops: seq<Op>, id: Id, now: real)
    requires Sound(cfg, Run(cfg, s, ops)) && WithinQuota(cfg, Run(cfg, s, ops))
    ensures var after := Commit(cfg, Run(cfg, s, ops), id, now).0;
            after == Run(cfg, s, ops + [DoCommit(id, now)]) && Sound(cfg, after) && WithinQuota(cfg, after)
  {
    CommitKeeps(cfg, Run(cfg, s, ops), id, now);
    RunOne(cfg, Run(cfg, s, ops), DoCommit(id, now));
    RunThen(cfg, s, ops, [DoCommit(id, now)]);
  }

  lemma CommitEnds(cfg: Config, c: Client, s: State, id: Id, k: nat)
    requires k > 0 && Underway(cfg, c, s, id, k - 1)
    requires Sent(c, k - 1) == |c.file| && (k > 1 ==> Sent(c, k - 2) < |c.file|)
    ensures var (after, r) := Commit(cfg, Run(cfg, s, c.env(k)), id, c.clock(k));
            SentAll(cfg, c, after, Given(r), c.clock(k))
  {
    CommitLeads(cfg, c, s, id, k);
    if ReadsOn(c) {
      LastChunk(c, k);
    }
  }

  lemma CommitHistory(cfg: Config, c: Client, first: State, id: Id, n: nat, course: Course)
    requires course == Stored(n) || course == CommitRefused(n)
    ensures Run(cfg, Run(cfg, first, Sending(cfg, c, id, n)), c.env(n + 1) + [DoCommit(id, c.clock(n + 1))])
            == Run(cfg, first, Requests(cfg, c, id, course))
  {
    var sending, rest := Sending(cfg, c, id, n), c.env(n + 1) + [DoCommit(id, c.clock(n + 1))];
    assert Requests(cfg, c, id, course) == sending + rest;
    RunThen(cfg, first, sending, rest);
  }

  lemma CommitRequested(cfg: Config, c: Client, first: State, s: State, after: State, id: Id, k: nat,
                        stored: Option<Id>, course: Course)
    requires k > 0 && Halfway(cfg, c, first, s, id, k - 1)
    requires course == if stored.Some? then Stored(k - 1) else CommitRefused(k - 1)
    requires after == Run(cfg, s, c.env(k) + [DoCommit(id, c.clock(k))])
    requires Underway(cfg, c, first, id, 0) ==> SentAll(cfg, c, after, stored, c.clock(k))
    ensures Requested(cfg, c, first, after, id, course, stored)
  {
    CommitHistory(cfg, c, first, id, k - 1, course);
    assert course.chunks + 1 == k;
  }

  /** The commit, as the last request, with what it leads to. */
  lemma CommitSent(cfg: Config, c: Client, first: State, s: State, id: Id, k: nat)
    requires k > 0 && Halfway(cfg, c, first, s, id, k - 1)
    requires Sound(cfg, Run(cfg, s, c.env(k))) && WithinQuota(cfg, Run(cfg, s, c.env(k)))
    requires Sent(c, k - 1) == |c.file| && (k > 1 ==> Sent(c, k - 2) < |c.file|)
    ensures var (after, r) := Commit(cfg, Run(cfg, s, c.env(k)), id, c.clock(k));
            && Sound(cfg, after) && WithinQuota(cfg, after)
            && Requested(cfg, c, first, after, id, if r.Ok? then Stored(k - 1) else CommitRefused(k - 1), Given(r))
  {
    var (after, r) := Commit(cfg, Run(cfg, s, c.env(k)), id, c.clock(k));
    CommitRuns(cfg, s, c.env(k), id, c.clock(k));
    if Underway(cfg, c, first, id, 0) {
      CommitEnds(cfg, c, s, id, k);
    }
    CommitRequested(cfg, c, first, s, after, id, k, Given(r), if r.Ok? then Stored(k - 1) else CommitRefused(k - 1));
  }

  // ---------------------------------------------------------------- the requests of a download

  /** What the others do before the first k reads. A read changes nothing. */
  function Between(env: nat -> seq<Op>, k: nat): seq<Op> { if k == 0 then [] else Between(env, k - 1) + env(k) }

  lemma BetweenRuns(cfg: Config, first: State, env: nat -> seq<Op>, k: nat)
    requires k > 0
    ensures Run(cfg, first, Between(env, k)) == Run(cfg, Run(cfg, first, Between(env, k - 1)), env(k))
  {
    RunThen(cfg, first, Between(env, k - 1), env(k));
  }

  /** How many reads it takes. */
  function Pieces(bytes: nat): nat { (bytes + DOWNLOAD_CHUNK - 1) / DOWNLOAD_CHUNK }

  /** The artifact is there and has not expired. */
  predicate Readable(s: State, id: Id, now: real) { id in s.objects && now < s.objects[id].expires }

  /** It is so when each of the first k reads is served. */
  ghost predicate StaysReadable(cfg: Config, first: State, id: Id, env: nat -> seq<Op>, clock: nat -> real, k: nat) {
    forall j: nat :: 0 < j <= k ==> Readable(Run(cfg, first, Between(env, j)), id, clock(j))
  }

  /** When a download may succeed: the artifact fits the caller's limit, and is there for all of its reads. */
  ghost predicate Downloadable(cfg: Config, first: State, id: Id, maximum: nat, env: nat -> seq<Op>,
                               clock: nat -> real) {
    && Readable(first, id, clock(0)) && first.objects[id].bytes <= maximum
    && StaysReadable(cfg, first, id, env, clock, Pieces(first.objects[id].bytes))
  }

  /** One read of an artifact as it was first seen: the bytes from there on, exactly when it is still readable. */
  lemma PieceReads(cfg: Config, s: State, id: Id, info: Object, offset: nat, length: nat, now: real)
    requires Sound(cfg, s) && (id in s.objects ==> SameArtifact(info, s.objects[id]))
    requires 1 <= length <= DOWNLOAD_CHUNK && offset + length <= info.bytes
    ensures Read(cfg, s, id, offset, length, now).Ok? <==> Readable(s, id, now)
    ensures Readable(s, id, now) ==>
              && info.bytes == |info.content|
              && var chunk := info.content[offset..offset + length];
                 var reply := Read(cfg, s, id, offset, length, now).value;
                 && reply.offset == offset && reply.payload == chunk && reply.nextOffset == offset + length
                 && reply.sha256 == cfg.sha256(chunk)
  {
  }

  /** The download after k reads, each of which found more to read and found the artifact. */
  ghost predicate Reading(cfg: Config, first: State, s: State, id: Id, info: Object, env: nat -> seq<Op>,
                          clock: nat -> real, k: nat, written: seq<byte>)
  {
    && s == Run(cfg, first, Between(env, k)) && StaysReadable(cfg, first, id, env, clock, k)
    && (k > 0 ==> (k - 1) * DOWNLOAD_CHUNK < info.bytes) && info.bytes == |info.content|
    && written == info.content[..Min(k * DOWNLOAD_CHUNK, info.bytes)]
  }

  lemma WrittenOn(content: seq<byte>, k: nat)
    requires k > 0 && (k - 1) * DOWNLOAD_CHUNK < |content|
    ensures var at := (k - 1) * DOWNLOAD_CHUNK;
            content[..at] + content[at..at + Min(DOWNLOAD_CHUNK, |content| - at)] ==
            content[..Min(k * DOWNLOAD_CHUNK, |content|)]
  {
  }

  lemma ReadingStep(cfg: Config, first: State, s: State, id: Id, info: Object, env: nat -> seq<Op>, clock: nat -> real,
                    k: nat, written: seq<byte>, chunk: seq<byte>)
    requires k > 0 && Reading(cfg, first, s, id, info, env, clock, k - 1, written) && |written| < info.bytes
    requires Readable(Run(cfg, s, env(k)), id, clock(k))
    requires chunk == info.content[|written|..|written| + Min(DOWNLOAD_CHUNK, info.bytes - |written|)]
    ensures Reading(cfg, first, Run(cfg, s, env(k)), id, info, env, clock, k, written + chunk)
  {
    BetweenRuns(cfg, first, env, k);
    WrittenOn(info.content, k);
    assert |written| == (k - 1) * DOWNLOAD_CHUNK;
  }

  lemma PiecesCover(bytes: nat, k: nat)
    requires k > 0
    ensures (k - 1) * DOWNLOAD_CHUNK < bytes <==> k <= Pieces(bytes)
  {
  }

  lemma Unreadable(cfg: Config, first: State, id: Id, env: nat -> seq<Op>, clock: nat -> real, k: nat, n: nat)
    requires 0 < k <= n && !Readable(Run(cfg, first, Between(env, k)), id, clock(k))
    ensures !StaysReadable(cfg, first, id, env, clock, n)
  {
  }

  lemma ReadingStops(cfg: Config, first: State, s: State, id: Id, info: Object, env: nat -> seq<Op>, clock: nat -> real,
                     k: nat, written: seq<byte>)
    requires k > 0 && Reading(cfg, first, s, id, info, env, clock, k - 1, written) && |written| < info.bytes
    requires !Readable(Run(cfg, s, env(k)), id, clock(k))
    ensures Run(cfg, s, env(k)) == Run(cfg, first, Between(env, k)) && k <= Pieces(info.bytes)
    ensures !StaysReadable(cfg, first, id, env, clock, Pieces(info.bytes))
  {
    BetweenRuns(cfg, first, env, k);
    PiecesCover(info.bytes, k);
    Unreadable(cfg, first, id, env, clock, k, Pieces(info.bytes));
  }

  lemma ReadingEnds(cfg: Config, first: State, s: State, id: Id, info: Object, env: nat -> seq<Op>, clock: nat -> real,
                    k: nat, written: seq<byte>)
    requires Reading(cfg, first, s, id, info, env, clock, k, written) && |written| >= info.bytes
    ensures k == Pieces(info.bytes) && written == info.content
  {
    PiecesCover(info.bytes, k + 1);
    if k > 0 {
      PiecesCover(info.bytes, k);
    }
    assert info.content[..|info.content|] == info.content;
  }

  // ---------------------------------------------------------------- from the upload to the download

  /** What is left of an artifact, and read in time, at the information and at each of the first n reads. */
  ghost predicate Lasts(cfg: Config, id: Id, o: Object, between: seq<Op>, later: nat -> seq<Op>, clock: nat -> real,
                        n: nat) {
    forall j: nat :: j <= n ==>
      var left := ObjectLife(cfg, id, Some(o), between + Between(later, j)); left.Some? && clock(j) < left.value.expires
  }

  lemma LastsReadable(cfg: Config, s: State, id: Id, between: seq<Op>, later: nat -> seq<Op>, clock: nat -> real,
                      j: nat)
    requires id < s.nextId && id in s.objects
    ensures var left := ObjectLife(cfg, id, Some(s.objects[id]), between + Between(later, j));
            Readable(Run(cfg, Run(cfg, s, between), Between(later, j)), id, clock(j)) <==>
            left.Some? && clock(j) < left.value.expires
  {
    RunThen(cfg, s, between, Between(later, j));
    EveryObjectLives(cfg, s, between + Between(later, j), id);
  }

  /** An artifact can be downloaded exactly when its own steps leave it in time for every read. */
  lemma LastsIsDownloadable(cfg: Config, s: State, id: Id, maximum: nat, between: seq<Op>, later: nat -> seq<Op>,
                            clock: nat -> real)
    requires id < s.nextId && id in s.objects
    ensures var o := s.objects[id];
            Downloadable(cfg, Run(cfg, s, between), id, maximum, later, clock) <==>
            o.bytes <= maximum && Lasts(cfg, id, o, between, later, clock, Pieces(o.bytes))
  {
    var o, t := s.objects[id], Run(cfg, s, between);
    EveryRunDescends(cfg, s, between);
    assert Between(later, 0) == [];
    forall j: nat ensures var left := ObjectLife(cfg, id, Some(o), between + Between(later, j));
                          Readable(Run(cfg, t, Between(later, j)), id, clock(j)) <==>
                          left.Some? && clock(j) < left.value.expires
    {
      LastsReadable(cfg, s, id, between, later, clock, j);
    }
    assert Run(cfg, t, Between(later, 0)) == t;
  }
}
