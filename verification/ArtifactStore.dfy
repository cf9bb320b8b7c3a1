/**
 * The artifact store directory as an object that both programs update in place under one lock. Every method is
 * one locked body, proved against the step of ArtifactSpec of the same name.
 */
module ArtifactStorage {
  import opened Wrappers
  import opened ArtifactSpec
  import opened ArtifactProofs

  /** A publication staging directory inside .uploads; its name is not an upload identifier. */
  datatype Stage = Stage(key: nat, index: nat)

  function Held(producers: map<string, nat>, p: string): nat { if p in producers then producers[p] else 0 }

  lemma TakenBack(before: map<Id, Object>, batch: map<Id, Object>, ids: seq<Id>)
    requires before.Keys !! batch.Keys && forall id :: id in ids <==> id in batch
    ensures before + batch - (set id | id in ids) == before
  {
  }

  lemma AddThenSet(a: map<Id, Object>, b: map<Id, Object>, id: Id, o: Object)
    ensures (a + b)[id := o] == a + b[id := o]
  {
  }

  lemma AttemptsAt(items: seq<Item>, index: nat)
    requires index < |items| && !Lands(items[index]) && forall i | 0 <= i < index :: Lands(items[i])
    ensures Attempts(items) == index + 1 && !(forall item <- items :: Lands(item))
  {
    assert items[index] in items;
  }

  lemma BatchGrows(cfg: Config, items: seq<Item>, n: nat, producer: string, days: nat, first: Id)
    requires n < |items|
    ensures Batch(cfg, items[..n + 1], producer, days, first) ==
            Batch(cfg, items[..n], producer, days, first)[first + n := Published(cfg, items[n], producer, days)]
  {
    assert items[..n + 1][..n] == items[..n];
  }

  class ArtifactStore {
    const cfg: Config
    var objects: map<Id, Object>
    var uploads: map<Id, Upload>
    var staging: map<Stage, seq<byte>>
    var reservations: map<Id, Reservation>
    var nextId: Id

    ghost function View(): State
      reads this
    {
      State(objects, uploads, reservations, nextId)
    }

    /** Between locked bodies no staging directory is left in .uploads. */
    ghost predicate Valid()
      reads this
    {
      staging == map[]
    }

    constructor (cfg: Config)
      ensures this.cfg == cfg && Valid() && View() == State(map[], map[], map[], 0)
    {
      this.cfg := cfg;
      objects, uploads, staging, reservations, nextId := map[], map[], map[], map[], 0;
    }

    // -------------------------------------------------------------- usage

    /** One directory of the usage scan, visited in whatever order the system lists it. */
    static method Tally(charges: map<Id, Charge>, total0: nat, producers0: map<string, nat>)
      returns (total: nat, producers: map<string, nat>)
      ensures total == total0 + Sum(charges, None)
      ensures forall p: string :: Held(producers, p) == Held(producers0, p) + Sum(charges, Some(p))
    {
      total, producers := total0, producers0;
      var rest := charges;
      while rest != map[]
        invariant total + Sum(rest, None) == total0 + Sum(charges, None)
        invariant forall p: string ::
                  Held(producers, p) + Sum(rest, Some(p)) == Held(producers0, p) + Sum(charges, Some(p))
        decreases |rest|
      {
        var id :| id in rest;
        var c := rest[id];
        SumRemove(rest, id, None);
        forall p: string ensures Sum(rest, Some(p)) == Weight(c, Some(p)) + Sum(rest - {id}, Some(p)) {
          SumRemove(rest, id, Some(p));
        }
        total := total + c.bytes;
        producers := producers[c.producer := Held(producers, c.producer) + c.bytes];
        rest := rest - {id};
      }
    }

    method Usage() returns (total: nat, producers: map<string, nat>)
      ensures total == Used(View(), None)
      ensures forall p: string :: Held(producers, p) == Used(View(), Some(p))
    {
      total, producers := Tally(ObjectCharges(objects), 0, map[]);
      total, producers := Tally(UploadCharges(uploads), total, producers);
      total, producers := Tally(ReservationCharges(reservations), total, producers);
    }

    /** The quota and free-space checks shared by begin, reserve and unreserved publication. */
    method Admit(producer: string, size: nat, free: int) returns (r: Option<Refusal>)
      ensures r == Admission(cfg, View(), producer, size, free)
    {
      var total, producers := Usage();
      if total + size > cfg.policy.totalQuota {
        return Some(TotalQuota);
      }
      if Held(producers, producer) + size > cfg.policy.producerQuota {
        return Some(ProducerQuota);
      }
      if free - size < cfg.policy.freeReserve {
        return Some(FreeReserve);
      }
      return None;
    }

    // -------------------------------------------------------------- the storage service

    method SweepObjects(now: real)
      modifies this`objects
      ensures objects == Swept(old(View()), now).objects
    {
      var rest := objects.Keys;
      while rest != {}
        invariant rest <= old(objects).Keys
        invariant objects == map id | id in old(objects)
                  && (id in rest || old(objects)[id].expires > now) :: old(objects)[id]
        decreases |rest|
      {
        var id :| id in rest;
        if objects[id].expires <= now {
          objects := objects - {id};
        }
        rest := rest - {id};
      }
    }

    method SweepReservations(now: real)
      modifies this`reservations
      ensures reservations == Swept(old(View()), now).reservations
    {
      var rest := reservations.Keys;
      while rest != {}
        invariant rest <= old(reservations).Keys
        invariant reservations == map id | id in old(reservations)
                  && (id in rest || old(reservations)[id].updated + UPLOAD_TTL_SECONDS > now)
                                    :: old(reservations)[id]
        decreases |rest|
      {
        var id :| id in rest;
        if reservations[id].updated + UPLOAD_TTL_SECONDS <= now {
          reservations := reservations - {id};
        }
        rest := rest - {id};
      }
    }

    /** The listing of .uploads; a name that is not an upload identifier raises and ends the sweep. */
    method SweepUploads(now: real) returns (finished: bool)
      modifies this`uploads
      ensures finished <==> staging == map[]
      ensures finished ==> uploads == Swept(old(View()), now).uploads
    {
      var rest, foreign := uploads.Keys, staging.Keys;
      while rest != {} || foreign != {}
        invariant rest <= old(uploads).Keys && foreign == staging.Keys
        invariant uploads == map id | id in old(uploads)
                  && (id in rest || old(uploads)[id].updated + UPLOAD_TTL_SECONDS > now)
                               :: old(uploads)[id]
        decreases |rest|
      {
        if {
          case foreign != {} =>
            return false;
          case rest != {} =>
            var id :| id in rest;
            if uploads[id].updated + UPLOAD_TTL_SECONDS <= now {
              uploads := uploads - {id};
            }
            rest := rest - {id};
        }
      }
      finished := true;
    }

    /** The sweep runs to its end exactly because publication never leaves a staging directory behind. */
    method GcLocked(now: real) returns (finished: bool)
      modifies this
      ensures staging == old(staging) && nextId == old(nextId)
      ensures finished <==> old(Valid())
      ensures finished ==> View() == Swept(old(View()), now)
    {
      SweepObjects(now);
      finished := SweepUploads(now);
      if finished {
        SweepReservations(now);
      }
    }

    method Begin(a: BeginArgs, now: real, free: int) returns (r: Result<Id, Refusal>)
      requires Valid()
      modifies this
      ensures Valid() && (View(), r) == ArtifactSpec.Begin(cfg, old(View()), a, now, free)
    {
      if !BeginArgsOk(cfg, a) {
        return Err(BadArgument);
      }
      var finished := GcLocked(now);
      var refusal := Admit(a.producer, a.size, free);
      if refusal.Some? {
        return Err(refusal.value);
      }
      var id := nextId;
      nextId := nextId + 1;
      uploads := uploads[id := Upload(a.name, a.mimeType, a.producer, a.size, 0, a.expected, a.retentionDays, now, [])];
      return Ok(id);
    }

    /**
     * Append in its two writes: the content file grows first, the metadata is replaced after; a crash stops in between.
     */
    method Append(id: Id, offset: int, data: Encoded, digest: Option<Digest>, now: real, crashAfter: Option<nat>)
      returns (r: Result<nat, Refusal>, crashed: bool)
      requires Valid()
      modifies this`uploads
      ensures Valid() && crashed == (crashAfter.Some? && AppendCheck(cfg, old(View()), id, offset, data, digest).Ok?)
      ensures !crashed ==> (View(), r) == ArtifactSpec.Append(cfg, old(View()), id, offset, data, digest, now)
      ensures crashed ==> View() == AppendCrash(cfg, old(View()), id, offset, data, digest, crashAfter.value)
    {
      crashed := false;
      if !(0 <= offset <= cfg.policy.maxArtifact) {
        return Err(BadArgument), false;
      }
      if data.length > MAX_CHUNK_BYTES * 4 / 3 + 8 {
        return Err(TooLarge), false;
      }
      if data.payload.None? {
        return Err(NotBase64), false;
      }
      var payload := data.payload.value;
      if |payload| > MAX_CHUNK_BYTES {
        return Err(TooLarge), false;
      }
      if digest.Some? && cfg.sha256(payload) != digest.value {
        return Err(DigestMismatch), false;
      }
      if id !in uploads {
        return Err(NotFound), false;
      }
      var metadata := uploads[id];
      if metadata.received != offset {
        return Err(BadOffset), false;
      }
      if offset + |payload| > metadata.declared {
        return Err(BeyondDeclared), false;
      }
      if crashAfter.Some? {
        var written := if crashAfter.value < |payload| then payload[..crashAfter.value] else payload;
        uploads := uploads[id := uploads[id].(content := uploads[id].content + written)];
        return Err(SystemFault), true;
      }
      uploads := uploads[id := uploads[id].(content := uploads[id].content + payload)];
      uploads := uploads[id := uploads[id].(received := offset + |payload|, updated := now)];
      assert uploads == old(uploads)[id :=
                                     metadata.(content := metadata.content + payload, received := offset + |payload|,
                                               updated := now)];
      r := Ok(offset + |payload|);
    }

    method Commit(id: Id, now: real) returns (r: Result<Id, Refusal>)
      requires Valid()
      modifies this
      ensures Valid() && (View(), r) == ArtifactSpec.Commit(cfg, old(View()), id, now)
    {
      if id !in uploads {
        return Err(NotFound);
      }
      var metadata := uploads[id];
      if metadata.received != metadata.declared || |metadata.content| != metadata.declared {
        return Err(Incomplete);
      }
      var sha256 := cfg.sha256(metadata.content);
      if metadata.expected.Some? && metadata.expected.value != sha256 {
        return Err(DigestMismatch);
      }
      var artifact := nextId;
      nextId := nextId + 1;
      uploads := uploads - {id};
      objects := objects[artifact :=
                         Object(metadata.name, metadata.mimeType, metadata.producer, metadata.declared, sha256, now,
                                            now + metadata.retentionDays as real * DAY_SECONDS, metadata.content)];
      return Ok(artifact);
    }

    method Abort(id: Id) returns (removed: bool)
      requires Valid()
      modifies this`uploads
      ensures Valid() && (View(), removed) == ArtifactSpec.Abort(old(View()), id)
    {
      removed := id in uploads;
      uploads := uploads - {id};
    }

    method Delete(id: Id, confirm: bool) returns (r: Result<bool, Refusal>)
      requires Valid()
      modifies this`objects
      ensures Valid() && (View(), r) == ArtifactSpec.Delete(old(View()), id, confirm)
    {
      if !confirm {
        return Err(NotConfirmed);
      }
      r := Ok(id in objects);
      objects := objects - {id};
    }

    method Update(id: Id, days: int, now: real) returns (r: Result<Object, Refusal>)
      requires Valid()
      modifies this`objects
      ensures Valid() && (View(), r) == ArtifactSpec.Update(cfg, old(View()), id, days, now)
    {
      if !(1 <= days <= cfg.policy.maxRetentionDays) {
        return Err(BadArgument);
      }
      if id !in objects {
        return Err(NotFound);
      }
      var metadata := objects[id];
      if metadata.expires <= now {
        return Err(Expired);
      }
      var requested := now + days as real * DAY_SECONDS;
      var maximum := metadata.created + cfg.policy.maxRetentionDays as real * DAY_SECONDS;
      metadata := metadata.(expires := if requested <= maximum then requested else maximum);
      objects := objects[id := metadata];
      return Ok(metadata);
    }

    /** Reading takes no lock: the record, then a slice of the content file. */
    method Read(id: Id, offset: int, length: int, now: real) returns (r: Result<ReadReply, Refusal>)
      ensures r == ArtifactSpec.Read(cfg, View(), id, offset, length, now)
    {
      if id !in objects {
        return Err(NotFound);
      }
      var metadata := objects[id];
      if metadata.expires <= now {
        return Err(Expired);
      }
      if !(0 <= offset <= metadata.bytes) || !(1 <= length <= MAX_READ_BYTES) {
        return Err(BadArgument);
      }
      var payload := if offset <= |metadata.content| then metadata.content[offset..] else [];
      var wanted := if length <= metadata.bytes - offset then length else metadata.bytes - offset;
      if wanted <= |payload| {
        payload := payload[..wanted];
      }
      return Ok(ReadReply(id, offset, payload, offset + |payload|, offset + |payload| >= metadata.bytes,
                          cfg.sha256(payload)));
    }

    // -------------------------------------------------------------- the module brokers

    method Reserve(producer: string, declared: int, now: real, free: int) returns (r: Result<Id, Refusal>)
      requires Valid()
      modifies this
      ensures Valid() && (View(), r) == ArtifactSpec.Reserve(cfg, old(View()), producer, declared, now, free)
    {
      if !ProducerOk(producer) || declared < 0 {
        return Err(BadArgument);
      }
      var refusal := Admit(producer, declared, free);
      if refusal.Some? {
        return Err(refusal.value);
      }
      var id := nextId;
      nextId := nextId + 1;
      reservations := reservations[id := Reservation(producer, declared, now)];
      return Ok(id);
    }

    method Release(id: Id)
      requires Valid()
      modifies this`reservations
      ensures Valid() && View() == ArtifactSpec.Release(old(View()), id)
    {
      reservations := reservations - {id};
    }

    /** Stages, copies and moves one item; whatever stops it, only its own staging directory is left behind. */
    method PublishOne(item: Item, producer: string, days: nat, stage: Stage) returns (r: Result<Id, Refusal>)
      requires Valid() && nextId !in objects
      modifies this`objects, this`staging, this`nextId
      ensures nextId == old(nextId) + 1
      ensures r.Ok? <==> Lands(item)
      ensures r.Ok? ==>
              Valid() && r.value == old(nextId)
              && objects == old(objects)[old(nextId) := Published(cfg, item, producer, days)]
      ensures r.Err? ==> objects == old(objects) && staging.Keys <= {stage} && r.error == FailureOf(item)
    {
      var id := nextId;
      nextId := nextId + 1;
      if item.fault == OnStaging {
        return Err(SystemFault);
      }
      staging := staging[stage := []];
      if item.fault == OnCopy {
        return Err(SystemFault);
      }
      staging := staging[stage := item.copied];
      if |staging[stage]| != item.statSize {
        return Err(OutputChanged);
      }
      var sha256 := cfg.sha256(staging[stage]);
      if item.fault == OnMetadata || item.fault == OnMove {
        return Err(SystemFault);
      }
      objects := objects[id := Object(item.name, item.mimeType, producer, item.statSize, sha256, item.at,
                                      item.at + days as real * DAY_SECONDS, staging[stage])];
      staging := staging - {stage};
      return Ok(id);
    }

    /** What the try block of publication has done after its first n items. */
    ghost predicate Moved(before: map<Id, Object>, items: seq<Item>, n: nat, producer: string, days: nat, first: Id,
                          published: seq<Id>)
      requires n <= |items|
      reads this
    {
      && Valid() && nextId == first + n
      && objects == before + Batch(cfg, items[..n], producer, days, first)
      && forall id :: id in published <==> first <= id < first + n
    }

    /** One turn of the publication loop, with its except block: a failure takes back every object already moved. */
    method PublishNext(items: seq<Item>, index: nat, producer: string, days: nat, key: nat, published: seq<Id>,
                       ghost before: map<Id, Object>, ghost first: Id)
      returns (r: Result<Id, Refusal>)
      requires index < |items| && Moved(before, items, index, producer, days, first, published)
               && forall id <- before :: id < first
      modifies this`objects, this`staging, this`nextId
      ensures r.Ok? <==> Lands(items[index])
      ensures r.Ok? ==> Moved(before, items, index + 1, producer, days, first, published + [r.value])
      ensures r.Err? ==>
              Valid() && objects == before && nextId == first + index + 1 && r.error == FailureOf(items[index])
    {
      ghost var batch := Batch(cfg, items[..index], producer, days, first);
      BatchKeys(cfg, items[..index], producer, days, first);
      r := PublishOne(items[index], producer, days, Stage(key, index));
      if r.Err? {
        TakeBack(Stage(key, index), published, before, batch);
      } else {
        BatchGrows(cfg, items, index, producer, days, first);
        AddThenSet(before, batch, r.value, Published(cfg, items[index], producer, days));
      }
    }

    /** The publication loop. */
    method MoveAll(items: seq<Item>, producer: string, days: nat, key: nat) returns (failure: Option<Refusal>)
      requires Valid() && (forall id <- objects :: id < nextId)
      modifies this`objects, this`staging, this`nextId
      ensures Valid()
      ensures failure.None? <==> forall item <- items :: Lands(item)
      ensures failure.None? ==>
              objects == old(objects) + Batch(cfg, items, producer, days, old(nextId))
              && nextId == old(nextId) + |items|
      ensures failure.Some? ==> objects == old(objects) && nextId == old(nextId) + Attempts(items)
      ensures failure.Some? ==> Attempts(items) > 0 && failure.value == FailureOf(items[Attempts(items) - 1])
    {
      ghost var before := objects;
      var first := nextId;
      var published: seq<Id> := [];
      for index := 0 to |items|
        invariant forall i | 0 <= i < index :: Lands(items[i])
        invariant Moved(before, items, index, producer, days, first, published)
      {
        var one := PublishNext(items, index, producer, days, key, published, before, first);
        if one.Err? {
          AttemptsAt(items, index);
          return Some(one.error);
        }
        published := published + [one.value];
      }
      assert items[..|items|] == items;
      return None;
    }

    /** Publication under the lock. */
    method PublishLocked(producer: string, items: seq<Item>, days: int, budget: nat, key: nat)
      returns (r: Result<Id, Refusal>)
      requires Valid() && (forall id <- objects :: id < nextId)
      modifies this
      ensures Valid() && (View(), r) == Publish(cfg, old(View()), producer, items, days, budget)
    {
      if !(1 <= days <= cfg.policy.maxRetentionDays) {
        return Err(BadArgument);
      }
      var problem := ItemsCheck(cfg, items);
      if problem.Some? {
        return Err(problem.value);
      }
      if Sizes(items) > budget {
        return Err(OverBudget);
      }
      var first := nextId;
      var failure := MoveAll(items, producer, days, key);
      return if failure.Some? then Err(failure.value) else Ok(first);
    }

    /** The except block: the staging directory and every object already published are removed. */
    method TakeBack(stage: Stage, published: seq<Id>, ghost before: map<Id, Object>, ghost batch: map<Id, Object>)
      requires staging.Keys <= {stage} && objects == before + batch
      requires before.Keys !! batch.Keys && forall id :: id in published <==> id in batch
      modifies this`objects, this`staging
      ensures Valid() && objects == before
    {
      staging := staging - {stage};
      assert staging == map[];
      for i := 0 to |published|
        invariant Valid() && objects == old(objects) - (set id | id in published[..i])
      {
        objects := objects - {published[i]};
      }
      assert published[..|published|] == published;
      TakenBack(before, batch, published);
    }

    method PublishReserved(id: Id, producer: string, items: seq<Item>, days: int) returns (r: Result<Id, Refusal>)
      requires Valid() && (forall o <- objects :: o < nextId)
      modifies this
      ensures Valid() && (View(), r) == ArtifactSpec.PublishReserved(cfg, old(View()), id, producer, items, days)
    {
      if !ProducerOk(producer) {
        return Err(BadArgument);
      }
      if id !in reservations {
        return Err(NotFound);
      }
      if reservations[id].producer != producer {
        return Err(WrongProducer);
      }
      r := PublishLocked(producer, items, days, reservations[id].declared, id);
      if r.Ok? {
        reservations := reservations - {id};
      }
    }

    method PublishUnreserved(producer: string, items: seq<Item>, budget: int, days: int, free: int)
      returns (r: Result<Id, Refusal>)
      requires Valid() && (forall o <- objects :: o < nextId)
      modifies this
      ensures Valid() && (View(), r) ==
              ArtifactSpec.PublishUnreserved(cfg, old(View()), producer, items, budget, days, free)
    {
      if !ProducerOk(producer) || budget < 0 {
        return Err(BadArgument);
      }
      var refusal := Admit(producer, budget, free);
      if refusal.Some? {
        return Err(refusal.value);
      }
      r := PublishLocked(producer, items, days, budget, nextId);
    }
  }
}
