/** What a step does to each entry of the store, and what whole runs do to it, said entry by entry. */
module ArtifactFates {
  import opened Wrappers
  import opened ArtifactSpec
  import opened ArtifactProofs
  import opened ArtifactRuns

  function Found<T>(m: map<Id, T>, id: Id): Option<T> { if id in m then Some(m[id]) else None }

  function Earlier(a: real, b: real): real { if a <= b then a else b }

  // ---------------------------------------------------------------- artifacts

  /**
   * The steps that remove an artifact: a confirmed delete of it, and a sweep, on its own or inside a begin whose
   * arguments are valid, once it has expired.
   */
  predicate Removes(cfg: Config, op: Op, id: Id, expires: real) {
    match op
    case DoDelete(target, confirm) => target == id && confirm
    case DoGc(now) => now >= expires
    case DoBegin(args, now, _) => BeginArgsOk(cfg, args) && now >= expires
    case _ => false
  }

  /** Until when an artifact is kept once a step has left it: an update of it counts from now, up to its oldest age. */
  function KeptUntil(cfg: Config, op: Op, id: Id, o: Object): real {
    if op.DoUpdate? && op.id == id && 1 <= op.days <= cfg.policy.maxRetentionDays && op.now < o.expires
    then Earlier(op.now + op.days as real * 86400.0, o.created + cfg.policy.maxRetentionDays as real * 86400.0)
    else o.expires
  }

  /** What a step makes of an artifact: nothing but its expiry ever changes. */
  function ObjectAfter(cfg: Config, op: Op, id: Id, o: Option<Object>): Option<Object> {
    if o.None? || Removes(cfg, op, id, o.value.expires) then None
    else Some(o.value.(expires := KeptUntil(cfg, op, id, o.value)))
  }

  lemma PublicationObjectFate(cfg: Config, s: State, op: Op, id: Id)
    requires Publishes(op) && id < s.nextId
    ensures Found(Apply(cfg, s, op).objects, id) == Found(s.objects, id)
  {
    match op
    case DoPublishReserved(target, producer, items, days) =>
      if 1 <= days {
        BatchKeys(cfg, items, producer, days, s.nextId);
      }
    case DoPublishUnreserved(producer, items, budget, days, free) =>
      if 1 <= days {
        BatchKeys(cfg, items, producer, days, s.nextId);
      }
  }

  lemma ObjectFate(cfg: Config, s: State, op: Op, id: Id)
    requires id < s.nextId
    ensures Found(Apply(cfg, s, op).objects, id) == ObjectAfter(cfg, op, id, Found(s.objects, id))
  {
    if Publishes(op) {
      PublicationObjectFate(cfg, s, op, id);
    }
  }

  function ObjectLife(cfg: Config, id: Id, o: Option<Object>, ops: seq<Op>): Option<Object> {
    if ops == [] then o else ObjectAfter(cfg, ops[|ops| - 1], id, ObjectLife(cfg, id, o, ops[..|ops| - 1]))
  }

  /**
   * Over every run, an artifact is what its own steps make of it: no quota, sweep or publication takes it away early.
   */
  lemma {:induction false} EveryObjectLives(cfg: Config, s: State, ops: seq<Op>, id: Id)
    requires id < s.nextId
    ensures Found(Run(cfg, s, ops).objects, id) == ObjectLife(cfg, id, Found(s.objects, id), ops)
  {
    if ops != [] {
      var n := |ops| - 1;
      EveryObjectLives(cfg, s, ops[..n], id);
      EveryRunDescends(cfg, s, ops[..n]);
      ObjectFate(cfg, Run(cfg, s, ops[..n]), ops[n], id);
    }
  }

  /** A run without updates of an artifact keeps it, unchanged, exactly when none of its steps removes it. */
  lemma {:induction false} ObjectStays(cfg: Config, s: State, ops: seq<Op>, id: Id)
    requires id < s.nextId && id in s.objects && forall op <- ops :: !(op.DoUpdate? && op.id == id)
    ensures Found(Run(cfg, s, ops).objects, id) ==
            if forall op <- ops :: !Removes(cfg, op, id, s.objects[id].expires) then Some(s.objects[id]) else None
  {
    if ops != [] {
      var n := |ops| - 1;
      assert ops == ops[..n] + [ops[n]];
      ObjectStays(cfg, s, ops[..n], id);
      EveryRunDescends(cfg, s, ops[..n]);
      ObjectFate(cfg, Run(cfg, s, ops[..n]), ops[n], id);
    }
  }

  // ---------------------------------------------------------------- uploads

  /** A chunk that an upload acknowledges: at its end, within what it declared, and as its digest says. */
  predicate Accepts(cfg: Config, u: Upload, offset: int, data: Encoded, digest: Option<Digest>) {
    && offset == u.received <= cfg.policy.maxArtifact && data.payload.Some?
    && data.length <= 524288 * 4 / 3 + 8 && |data.payload.value| <= 524288
    && u.received + |data.payload.value| <= u.declared
    && (digest.Some? ==> digest.value == cfg.sha256(data.payload.value))
  }

  /** An upload that a commit turns into an artifact: it holds what it declared, of the expected digest. */
  predicate Whole(cfg: Config, u: Upload) {
    |u.content| == u.received == u.declared && (u.expected.Some? ==> u.expected.value == cfg.sha256(u.content))
  }

  /** What a step makes of an upload. A crashed append leaves bytes in it that it does not count. */
  function UploadAfter(cfg: Config, op: Op, id: Id, u: Upload): Option<Upload> {
    match op
    case DoAppend(target, offset, data, digest, now) =>
      if target != id || !Accepts(cfg, u, offset, data, digest) then Some(u)
      else
        var payload := data.payload.value;
        Some(u.(content := u.content + payload, received := u.received + |payload|, updated := now))
    case DoAppendCrash(target, offset, data, digest, written) =>
      if target != id || !Accepts(cfg, u, offset, data, digest) then Some(u)
      else
        var payload := data.payload.value;
        Some(u.(content := u.content + payload[..if written < |payload| then written else |payload|]))
    case DoCommit(target, _) => if target == id && Whole(cfg, u) then None else Some(u)
    case DoAbort(target) => if target == id then None else Some(u)
    case DoGc(now) => if now >= u.updated + 3600.0 then None else Some(u)
    case DoBegin(args, now, _) => if BeginArgsOk(cfg, args) && now >= u.updated + 3600.0 then None else Some(u)
    case _ => Some(u)
  }

  lemma AppendFate(cfg: Config, s: State, op: Op, id: Id)
    requires (op.DoAppend? || op.DoAppendCrash?) && id in s.uploads
    ensures Found(Apply(cfg, s, op).uploads, id) == UploadAfter(cfg, op, id, s.uploads[id])
  {
    if op.id == id && op.data.payload.Some? {
      var payload := op.data.payload.value;
      assert payload[..|payload|] == payload;
      assert AppendCheck(cfg, s, id, op.offset, op.data, op.digest).Ok? <==>
             Accepts(cfg, s.uploads[id], op.offset, op.data, op.digest);
    }
  }

  lemma UploadFate(cfg: Config, s: State, op: Op, id: Id)
    requires id < s.nextId && id in s.uploads
    ensures Found(Apply(cfg, s, op).uploads, id) == UploadAfter(cfg, op, id, s.uploads[id])
  {
    if Publishes(op) {
      PublicationKeepsUploads(cfg, s, op);
    } else if op.DoAppend? || op.DoAppendCrash? {
      AppendFate(cfg, s, op, id);
    }
  }

  // ---------------------------------------------------------------- entries that a step creates

  /** The artifact that a complete upload becomes: named, typed, owned and kept as begin was asked. */
  function ArtifactOf(cfg: Config, u: Upload, now: real): Object {
    Object(u.name, u.mimeType, u.producer, |u.content|, cfg.sha256(u.content), now,
           now + 86400.0 * u.retentionDays as real, u.content)
  }

  /** Artifacts appear by a commit that goes through, and by a publication that goes through, and in no other way. */
  ghost predicate NewObject(cfg: Config, s: State, op: Op, id: Id, o: Object) {
    match op
    case DoCommit(target, now) =>
      id == s.nextId && target in s.uploads && Whole(cfg, s.uploads[target])
      && o == ArtifactOf(cfg, s.uploads[target], now)
    case DoPublishReserved(_, producer, items, days) =>
      s.nextId <= id < s.nextId + |items| && o == ArtifactOfItem(cfg, items[id - s.nextId], producer, days)
    case DoPublishUnreserved(producer, items, _, days, _) =>
      s.nextId <= id < s.nextId + |items| && o == ArtifactOfItem(cfg, items[id - s.nextId], producer, days)
    case _ => false
  }

  lemma PublishedIsItem(cfg: Config, items: seq<Item>, producer: string, days: nat, first: Id, id: Id)
    requires (forall item <- items :: Lands(item)) && id in Batch(cfg, items, producer, days, first)
    ensures first <= id < first + |items|
    ensures Batch(cfg, items, producer, days, first)[id] == ArtifactOfItem(cfg, items[id - first], producer, days)
  {
    BatchKeys(cfg, items, producer, days, first);
    assert items[id - first] in items;
  }

  lemma NewObjects(cfg: Config, s: State, op: Op, id: Id)
    requires Sound(cfg, s) && id >= s.nextId && id in Apply(cfg, s, op).objects
    ensures NewObject(cfg, s, op, id, Apply(cfg, s, op).objects[id])
  {
    if Publishes(op) {
      NewPublished(cfg, s, op, id);
    }
  }

  lemma NewPublished(cfg: Config, s: State, op: Op, id: Id)
    requires Sound(cfg, s) && Publishes(op) && id >= s.nextId && id in Apply(cfg, s, op).objects
    ensures NewObject(cfg, s, op, id, Apply(cfg, s, op).objects[id])
  {
    var producer, items, days := op.producer, op.items, op.days;
    assert Found(Apply(cfg, s, op).objects, id).Some? && id !in s.objects;
    assert 1 <= days && forall item <- items :: Lands(item);
    PublishedIsItem(cfg, items, producer, days, s.nextId, id);
  }

  /** Uploads appear by begin alone, empty, as asked for. */
  lemma NewUploads(cfg: Config, s: State, op: Op, id: Id)
    requires Sound(cfg, s) && id >= s.nextId && id in Apply(cfg, s, op).uploads
    ensures op.DoBegin? && BeginArgsOk(cfg, op.args) && id == s.nextId
    ensures var a := op.args;
            Apply(cfg, s, op).uploads[id] ==
            Upload(a.name, a.mimeType, a.producer, a.size, 0, a.expected, a.retentionDays, op.now, [])
  {
    if Publishes(op) {
      PublicationKeepsUploads(cfg, s, op);
    }
  }

  /** Reservations appear by reserve alone. */
  lemma NewReservations(cfg: Config, s: State, op: Op, id: Id)
    requires Sound(cfg, s) && id >= s.nextId && id in Apply(cfg, s, op).reservations
    ensures op.DoReserve? && id == s.nextId && op.declared >= 0
    ensures Apply(cfg, s, op).reservations[id] == Reservation(op.producer, op.declared, op.now)
  {
  }

  // ---------------------------------------------------------------- what is admitted

  /** A size that fits the store, its producer, and the disk. */
  ghost predicate FitsIn(cfg: Config, s: State, producer: string, size: nat, free: int) {
    && Used(s, None) + size <= cfg.policy.totalQuota && Used(s, Some(producer)) + size <= cfg.policy.producerQuota
    && size + cfg.policy.freeReserve <= free
  }

  /**
   * Begin admits exactly what fits once expired and idle entries are swept; the first limit passed is the one named.
   */
  lemma BeginAnswers(cfg: Config, s: State, a: BeginArgs, now: real, free: int)
    ensures var swept := Apply(cfg, s, DoGc(now));
            var r := Begin(cfg, s, a, now, free).1;
            && (r.Ok? <==> BeginArgsOk(cfg, a) && FitsIn(cfg, swept, a.producer, a.size, free))
            && (r == Err(BadArgument) <==> !BeginArgsOk(cfg, a))
            && (r == Err(TotalQuota) <==> BeginArgsOk(cfg, a) && Used(swept, None) + a.size > cfg.policy.totalQuota)
            && (r == Err(FreeReserve) ==> a.size + cfg.policy.freeReserve > free)
    ensures Begin(cfg, s, a, now, free).1.Ok? ==> Begin(cfg, s, a, now, free).1.value == s.nextId
  {
  }

  lemma ReserveAnswers(cfg: Config, s: State, producer: string, declared: int, now: real, free: int)
    ensures var r := Reserve(cfg, s, producer, declared, now, free).1;
            && (r.Ok? <==> ProducerOk(producer) && declared >= 0 && FitsIn(cfg, s, producer, declared, free))
            && (r == Err(BadArgument) <==> !ProducerOk(producer) || declared < 0)
            && (r.Ok? ==> r.value == s.nextId)
  {
  }

  /**
   * A publication without a reservation goes through exactly when its budget fits and its items do what they declare.
   */
  lemma PublicationAnswers(cfg: Config, s: State, producer: string, items: seq<Item>, budget: int, days: int, free: int)
    ensures PublishUnreserved(cfg, s, producer, items, budget, days, free).1.Ok? <==>
            && ProducerOk(producer) && budget >= 0 && FitsIn(cfg, s, producer, budget, free)
            && Publishable(cfg, items, days, budget) && Copied(items)
  {
    if budget >= 0 {
      BatchValidates(cfg, items, days, budget);
    }
  }

  /** What counts: nothing in an empty store, and each entry its bytes, for the store and for its own producer. */
  lemma UsageAddsUp(s: State, id: Id, o: Object, u: Upload, r: Reservation, who: Option<string>)
    requires id !in s.objects && id !in s.uploads && id !in s.reservations
    ensures Used(State(map[], map[], map[], s.nextId), who) == 0
    ensures Used(s.(objects := s.objects[id := o]), who) ==
            Used(s, who) + if who.None? || who.value == o.producer then o.bytes else 0
    ensures Used(s.(uploads := s.uploads[id := u]), who) ==
            Used(s, who) + if who.None? || who.value == u.producer then u.declared else 0
    ensures Used(s.(reservations := s.reservations[id := r]), who) ==
            Used(s, who) + if who.None? || who.value == r.producer then r.declared else 0
  {
    SumWithObject(s.objects, id, o, who);
    UsedAfterUpload(s, id, u, who);
    UsedAfterReservation(s, id, r, who);
  }

  // ---------------------------------------------------------------- names

  predicate Control(c: char) { c < ' ' || c == 0x7F as char }

  /** What a name may not hold: nothing in it separates paths, and no control character is in it. */
  predicate NameSafe(name: string) {
    1 <= |name| <= 128 && '/' !in name && '\\' !in name && forall c <- name :: !Control(c)
  }

  /** Every stored entry has a name that stays within one directory. */
  ghost predicate NamesSafe(s: State) {
    (forall id <- s.objects :: NameSafe(s.objects[id].name)) && forall id <- s.uploads :: NameSafe(s.uploads[id].name)
  }

  lemma NamesAccepted(name: string)
    ensures UploadNameOk(name) <==> NameSafe(name)
    ensures PublishNameOk(name) ==> UploadNameOk(name)
  {
  }

  lemma StepNamesSafe(cfg: Config, s: State, op: Op)
    requires Sound(cfg, s) && NamesSafe(s)
    ensures NamesSafe(Apply(cfg, s, op))
  {
    var t := Apply(cfg, s, op);
    StepDescends(cfg, s, op);
    forall id <- t.objects ensures NameSafe(t.objects[id].name) {
      if id >= s.nextId {
        NewObjects(cfg, s, op, id);
        if Publishes(op) {
          PublishedNames(cfg, s, op, id);
        }
      }
    }
    forall id <- t.uploads ensures NameSafe(t.uploads[id].name) {
      if id >= s.nextId {
        NewUploads(cfg, s, op, id);
        NamesAccepted(op.args.name);
      }
    }
  }

  lemma PublishedNames(cfg: Config, s: State, op: Op, id: Id)
    requires Sound(cfg, s) && Publishes(op) && id >= s.nextId && id in Apply(cfg, s, op).objects
    ensures NameSafe(Apply(cfg, s, op).objects[id].name)
  {
    var items, days := op.items, op.days;
    NewObjects(cfg, s, op, id);
    var item := items[id - s.nextId];
    assert item in items && ItemCheck(cfg, item) == None;
    NamesAccepted(item.name);
  }

  lemma {:induction false} EveryNameIsSafe(cfg: Config, s: State, ops: seq<Op>)
    requires Sound(cfg, s) && WithinQuota(cfg, s) && NamesSafe(s)
    ensures NamesSafe(Run(cfg, s, ops))
  {
    if ops != [] {
      var n := |ops| - 1;
      EveryNameIsSafe(cfg, s, ops[..n]);
      EveryRunKeepsQuotas(cfg, s, ops[..n]);
      StepNamesSafe(cfg, Run(cfg, s, ops[..n]), ops[n]);
    }
  }
}
