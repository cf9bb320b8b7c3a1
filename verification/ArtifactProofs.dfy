/** What every run of the artifact store keeps: the quotas, sound records, immutable contents, exact uploads. */
module ArtifactProofs {
  import opened Wrappers
  import opened ArtifactSpec

  // ---------------------------------------------------------------- sums of charges

  lemma {:induction false} SumRemove(m: map<Id, Charge>, k: Id, who: Option<string>)
    requires k in m
    ensures Sum(m, who) == Weight(m[k], who) + Sum(m - {k}, who)
    decreases |m|
  {
    var first :| first in m && Sum(m, who) == Weight(m[first], who) + Sum(m - {first}, who);
    if first != k {
      SumRemove(m - {first}, k, who);
      SumRemove(m - {k}, first, who);
      assert m - {first} - {k} == m - {k} - {first};
    }
  }

  lemma SumInsert(m: map<Id, Charge>, k: Id, c: Charge, who: Option<string>)
    requires k !in m
    ensures Sum(m[k := c], who) == Sum(m, who) + Weight(c, who)
  {
    SumRemove(m[k := c], k, who);
    assert m[k := c] - {k} == m;
  }

  lemma MergeLess(a: map<Id, Charge>, b: map<Id, Charge>, k: Id)
    requires a.Keys !! b.Keys && k in b
    ensures (a + b) - {k} == a + (b - {k})
  {
  }

  lemma SumMergedRemove(a: map<Id, Charge>, b: map<Id, Charge>, k: Id, who: Option<string>)
    requires a.Keys !! b.Keys && k in b
    ensures Sum(a + b, who) == Weight(b[k], who) + Sum(a + (b - {k}), who)
  {
    MergeLess(a, b, k);
    SumRemove(a + b, k, who);
  }

  lemma {:induction false} SumDisjoint(a: map<Id, Charge>, b: map<Id, Charge>, who: Option<string>)
    requires a.Keys !! b.Keys
    ensures Sum(a + b, who) == Sum(a, who) + Sum(b, who)
    decreases |b|
  {
    if b == map[] {
      assert a + b == a;
    } else {
      var k :| k in b;
      SumRemove(b, k, who);
      SumMergedRemove(a, b, k, who);
      SumDisjoint(a, b - {k}, who);
    }
  }

  lemma {:induction false} SumShrinks(small: map<Id, Charge>, big: map<Id, Charge>, who: Option<string>)
    requires small.Keys <= big.Keys && forall k <- small :: small[k] == big[k]
    ensures Sum(small, who) <= Sum(big, who)
    decreases |small|
  {
    if small != map[] {
      var k :| k in small;
      SumRemove(small, k, who);
      SumRemove(big, k, who);
      SumShrinks(small - {k}, big - {k}, who);
    }
  }

  lemma {:induction false} SumForOne(m: map<Id, Charge>, who: string)
    ensures Sum(m, Some(who)) <= Sum(m, None)
    decreases |m|
  {
    if m != map[] {
      var k :| k in m;
      SumRemove(m, k, Some(who));
      SumRemove(m, k, None);
      SumForOne(m - {k}, who);
    }
  }

  // ---------------------------------------------------------------- what each kind of change does to the usage

  lemma UsedAfterUpload(s: State, id: Id, u: Upload, who: Option<string>)
    requires id !in s.uploads
    ensures Used(s.(uploads := s.uploads[id := u]), who) == Used(s, who) + Weight(Charge(u.producer, u.declared), who)
  {
    assert UploadCharges(s.uploads[id := u]) == UploadCharges(s.uploads)[id := Charge(u.producer, u.declared)];
    SumInsert(UploadCharges(s.uploads), id, Charge(u.producer, u.declared), who);
  }

  lemma UsedWithoutUpload(s: State, id: Id, who: Option<string>)
    requires id in s.uploads
    ensures Used(s, who) == Used(s.(uploads := s.uploads - {id}), who)
            + Weight(Charge(s.uploads[id].producer, s.uploads[id].declared), who)
  {
    assert UploadCharges(s.uploads - {id}) == UploadCharges(s.uploads) - {id};
    SumRemove(UploadCharges(s.uploads), id, who);
  }

  lemma SumWithObject(objects: map<Id, Object>, id: Id, o: Object, who: Option<string>)
    requires id !in objects
    ensures Sum(ObjectCharges(objects[id := o]), who) ==
            Sum(ObjectCharges(objects), who) + Weight(Charge(o.producer, o.bytes), who)
  {
    assert ObjectCharges(objects[id := o]) == ObjectCharges(objects)[id := Charge(o.producer, o.bytes)];
    SumInsert(ObjectCharges(objects), id, Charge(o.producer, o.bytes), who);
  }

  lemma UsedAfterReservation(s: State, id: Id, r: Reservation, who: Option<string>)
    requires id !in s.reservations
    ensures Used(s.(reservations := s.reservations[id := r]), who) ==
            Used(s, who) + Weight(Charge(r.producer, r.declared), who)
  {
    assert ReservationCharges(s.reservations[id := r]) ==
           ReservationCharges(s.reservations)[id := Charge(r.producer, r.declared)];
    SumInsert(ReservationCharges(s.reservations), id, Charge(r.producer, r.declared), who);
  }

  lemma UsedWithoutReservation(s: State, id: Id, who: Option<string>)
    requires id in s.reservations
    ensures Used(s, who) == Used(Release(s, id), who)
            + Weight(Charge(s.reservations[id].producer, s.reservations[id].declared), who)
  {
    assert ReservationCharges(s.reservations - {id}) == ReservationCharges(s.reservations) - {id};
    SumRemove(ReservationCharges(s.reservations), id, who);
  }

  /** A state whose entries all stem from another one uses no more. */
  lemma UsedShrinks(small: State, big: State, who: Option<string>)
    requires small.objects.Keys <= big.objects.Keys
             && forall id <- small.objects :: small.objects[id] == big.objects[id]
    requires small.uploads.Keys <= big.uploads.Keys
             && forall id <- small.uploads :: small.uploads[id] == big.uploads[id]
    requires small.reservations.Keys <= big.reservations.Keys
    requires forall id <- small.reservations :: small.reservations[id] == big.reservations[id]
    ensures Used(small, who) <= Used(big, who)
  {
    SumShrinks(ObjectCharges(small.objects), ObjectCharges(big.objects), who);
    SumShrinks(UploadCharges(small.uploads), UploadCharges(big.uploads), who);
    SumShrinks(ReservationCharges(small.reservations), ReservationCharges(big.reservations), who);
  }

  /** What a batch of sizes weighs for one account. */
  function BatchWeight(items: seq<Item>, producer: string, who: Option<string>): nat {
    Weight(Charge(producer, Sizes(items)), who)
  }

  lemma {:induction false} BatchKeys(cfg: Config, items: seq<Item>, producer: string, days: nat, first: Id)
    ensures forall id :: id in Batch(cfg, items, producer, days, first) <==> first <= id < first + |items|
    ensures forall i | 0 <= i < |items| ::
            Batch(cfg, items, producer, days, first)[first + i] == Published(cfg, items[i], producer, days)
  {
    if items != [] {
      BatchKeys(cfg, items[..|items| - 1], producer, days, first);
    }
  }

  /** A batch charges its producer the sum of its sizes. */
  lemma {:induction false} SumOfBatch(cfg: Config, items: seq<Item>, producer: string, days: nat, first: Id,
                                      who: Option<string>)
    ensures Sum(ObjectCharges(Batch(cfg, items, producer, days, first)), who) == BatchWeight(items, producer, who)
  {
    if items != [] {
      var n := |items| - 1;
      SumOfBatch(cfg, items[..n], producer, days, first, who);
      BatchKeys(cfg, items[..n], producer, days, first);
      SumWithObject(Batch(cfg, items[..n], producer, days, first), first + n, Published(cfg, items[n], producer, days),
                    who);
    }
  }

  lemma SumWithBatch(cfg: Config, objects: map<Id, Object>, items: seq<Item>, producer: string, days: nat, first: Id,
                     who: Option<string>)
    requires forall id <- objects :: id < first
    ensures Sum(ObjectCharges(objects + Batch(cfg, items, producer, days, first)), who) ==
            Sum(ObjectCharges(objects), who) + BatchWeight(items, producer, who)
  {
    var batch := Batch(cfg, items, producer, days, first);
    BatchKeys(cfg, items, producer, days, first);
    SumOfBatch(cfg, items, producer, days, first, who);
    assert ObjectCharges(objects + batch) == ObjectCharges(objects) + ObjectCharges(batch);
    SumDisjoint(ObjectCharges(objects), ObjectCharges(batch), who);
  }

  // ---------------------------------------------------------------- the invariants

  ghost predicate WithinQuota(cfg: Config, s: State) {
    Used(s, None) <= cfg.policy.totalQuota && forall p: string :: Used(s, Some(p)) <= cfg.policy.producerQuota
  }

  ghost predicate ObjectSound(cfg: Config, o: Object) {
    && |o.content| == o.bytes <= cfg.policy.maxArtifact
    && o.sha256 == cfg.sha256(o.content)
    && o.expires <= o.created + cfg.policy.maxRetentionDays as real * DAY_SECONDS
  }

  ghost predicate UploadSound(cfg: Config, u: Upload) {
    u.received <= u.declared <= cfg.policy.maxArtifact && u.received <= |u.content|
      && 1 <= u.retentionDays <= cfg.policy.maxRetentionDays
  }

  ghost predicate Sound(cfg: Config, s: State) {
    && (forall id <- s.objects :: id < s.nextId && ObjectSound(cfg, s.objects[id]))
    && (forall id <- s.uploads :: id < s.nextId && UploadSound(cfg, s.uploads[id]))
    && (forall id <- s.reservations :: id < s.nextId)
  }

  // ---------------------------------------------------------------- one step

  lemma SweepKeeps(cfg: Config, s: State, now: real)
    requires Sound(cfg, s) && WithinQuota(cfg, s)
    ensures Sound(cfg, Swept(s, now)) && WithinQuota(cfg, Swept(s, now))
    ensures forall who :: Used(Swept(s, now), who) <= Used(s, who)
  {
    forall who ensures Used(Swept(s, now), who) <= Used(s, who) {
      UsedShrinks(Swept(s, now), s, who);
    }
  }

  /** An admitted charge leaves every account within its quota. */
  lemma AdmittedFits(cfg: Config, s: State, producer: string, size: nat, free: int, who: Option<string>)
    requires WithinQuota(cfg, s) && Admission(cfg, s, producer, size, free) == None
    ensures Used(s, who) + Weight(Charge(producer, size), who) <=
            if who.None? then cfg.policy.totalQuota else cfg.policy.producerQuota
  {
  }

  lemma BeginKeeps(cfg: Config, s: State, a: BeginArgs, now: real, free: int)
    requires Sound(cfg, s) && WithinQuota(cfg, s)
    ensures Sound(cfg, Begin(cfg, s, a, now, free).0) && WithinQuota(cfg, Begin(cfg, s, a, now, free).0)
  {
    if BeginArgsOk(cfg, a) {
      var swept := Swept(s, now);
      SweepKeeps(cfg, s, now);
      var after := Begin(cfg, s, a, now, free).0;
      if Admission(cfg, swept, a.producer, a.size, free) == None {
        forall who ensures Used(after, who) <= if who.None? then cfg.policy.totalQuota else cfg.policy.producerQuota {
          UsedAfterUpload(swept, s.nextId, after.uploads[s.nextId], who);
          AdmittedFits(cfg, swept, a.producer, a.size, free, who);
        }
      }
    }
  }

  lemma UploadRewritten(s: State, id: Id, u: Upload, who: Option<string>)
    requires id in s.uploads && u.producer == s.uploads[id].producer && u.declared == s.uploads[id].declared
    ensures Used(s.(uploads := s.uploads[id := u]), who) == Used(s, who)
  {
    assert UploadCharges(s.uploads[id := u]) == UploadCharges(s.uploads);
  }

  lemma AppendKeeps(cfg: Config, s: State, id: Id, offset: int, data: Encoded, digest: Option<Digest>, now: real,
                    written: nat)
    requires Sound(cfg, s) && WithinQuota(cfg, s)
    ensures var after := Append(cfg, s, id, offset, data, digest, now).0;
            Sound(cfg, after) && WithinQuota(cfg, after)
    ensures var after := AppendCrash(cfg, s, id, offset, data, digest, written);
            Sound(cfg, after) && WithinQuota(cfg, after)
  {
    if AppendCheck(cfg, s, id, offset, data, digest).Ok? {
      var after := Append(cfg, s, id, offset, data, digest, now).0;
      var crashed := AppendCrash(cfg, s, id, offset, data, digest, written);
      forall who ensures Used(after, who) == Used(s, who) && Used(crashed, who) == Used(s, who) {
        UploadRewritten(s, id, after.uploads[id], who);
        UploadRewritten(s, id, crashed.uploads[id], who);
      }
    }
  }

  /** A commit moves exactly the declared bytes from the upload to the object: nobody's usage changes. */
  lemma CommitConserves(cfg: Config, s: State, id: Id, now: real, who: Option<string>)
    requires Sound(cfg, s)
    ensures Used(Commit(cfg, s, id, now).0, who) == Used(s, who)
  {
    if CommitCheck(cfg, s, id).Ok? {
      UsedWithoutUpload(s, id, who);
      SumWithObject(s.objects, s.nextId, Committed(cfg, s.uploads[id], now), who);
    }
  }

  lemma RetentionBounded(cfg: Config, days: nat)
    requires days <= cfg.policy.maxRetentionDays
    ensures days as real * DAY_SECONDS <= cfg.policy.maxRetentionDays as real * DAY_SECONDS
  {
  }

  lemma CommitKeeps(cfg: Config, s: State, id: Id, now: real)
    requires Sound(cfg, s) && WithinQuota(cfg, s)
    ensures Sound(cfg, Commit(cfg, s, id, now).0) && WithinQuota(cfg, Commit(cfg, s, id, now).0)
  {
    var after := Commit(cfg, s, id, now).0;
    forall who ensures Used(after, who) == Used(s, who) {
      CommitConserves(cfg, s, id, now, who);
    }
    if CommitCheck(cfg, s, id).Ok? {
      RetentionBounded(cfg, s.uploads[id].retentionDays);
    }
  }

  lemma RemovalKeeps(cfg: Config, s: State, id: Id, confirm: bool)
    requires Sound(cfg, s) && WithinQuota(cfg, s)
    ensures Sound(cfg, Abort(s, id).0) && WithinQuota(cfg, Abort(s, id).0)
    ensures Sound(cfg, Delete(s, id, confirm).0) && WithinQuota(cfg, Delete(s, id, confirm).0)
    ensures Sound(cfg, Release(s, id)) && WithinQuota(cfg, Release(s, id))
  {
    forall who
      ensures Used(Abort(s, id).0, who) <= Used(s, who)
      ensures Used(Delete(s, id, confirm).0, who) <= Used(s, who)
      ensures Used(Release(s, id), who) <= Used(s, who)
    {
      UsedShrinks(Abort(s, id).0, s, who);
      UsedShrinks(Delete(s, id, confirm).0, s, who);
      UsedShrinks(Release(s, id), s, who);
    }
  }

  lemma UpdateKeeps(cfg: Config, s: State, id: Id, days: int, now: real)
    requires Sound(cfg, s) && WithinQuota(cfg, s)
    ensures Sound(cfg, Update(cfg, s, id, days, now).0) && WithinQuota(cfg, Update(cfg, s, id, days, now).0)
  {
    var after := Update(cfg, s, id, days, now).0;
    assert ObjectCharges(after.objects) == ObjectCharges(s.objects);
    forall who ensures Used(after, who) == Used(s, who) {
    }
  }

  lemma ReserveKeeps(cfg: Config, s: State, producer: string, declared: int, now: real, free: int)
    requires Sound(cfg, s) && WithinQuota(cfg, s)
    ensures var after := Reserve(cfg, s, producer, declared, now, free).0; Sound(cfg, after) && WithinQuota(cfg, after)
  {
    var (after, r) := Reserve(cfg, s, producer, declared, now, free);
    if r.Ok? {
      forall who ensures Used(after, who) <= if who.None? then cfg.policy.totalQuota else cfg.policy.producerQuota {
        UsedAfterReservation(s, s.nextId, Reservation(producer, declared, now), who);
        AdmittedFits(cfg, s, producer, declared, free, who);
      }
    }
  }

  /**
   * A successful publication adds exactly the sizes of its items, which its budget covers; a failed one adds nothing.
   */
  lemma PublishUsage(cfg: Config, s: State, producer: string, items: seq<Item>, days: int, budget: nat,
                     who: Option<string>)
    requires Sound(cfg, s)
    ensures var (after, r) := Publish(cfg, s, producer, items, days, budget);
            && Used(after, who) == Used(s, who) + (if r.Ok? then BatchWeight(items, producer, who) else 0)
            && (r.Ok? ==> Sizes(items) <= budget)
  {
    if BatchCheck(cfg, items, days, budget) == None {
      SumWithBatch(cfg, s.objects, items, producer, days, s.nextId, who);
    }
  }

  lemma PublishSound(cfg: Config, s: State, producer: string, items: seq<Item>, days: int, budget: nat)
    requires Sound(cfg, s)
    ensures Sound(cfg, Publish(cfg, s, producer, items, days, budget).0)
  {
    var after := Publish(cfg, s, producer, items, days, budget).0;
    if BatchCheck(cfg, items, days, budget) == None && forall item <- items :: Lands(item) {
      BatchKeys(cfg, items, producer, days, s.nextId);
      forall id <- after.objects ensures id < after.nextId && ObjectSound(cfg, after.objects[id]) {
        if id >= s.nextId {
          var item := items[id - s.nextId];
          assert item in items && ItemCheck(cfg, item) == None;
          assert after.objects[id] == Published(cfg, item, producer, days);
          RetentionBounded(cfg, days);
        }
      }
    }
  }

  /** Publishing against a reservation never raises anybody's usage: the reserved bytes cover what is published. */
  lemma PublishReservedNeverRaises(cfg: Config, s: State, id: Id, producer: string, items: seq<Item>, days: int,
                                   who: Option<string>)
    requires Sound(cfg, s)
    ensures Used(PublishReserved(cfg, s, id, producer, items, days).0, who) <= Used(s, who)
  {
    if id in s.reservations && s.reservations[id].producer == producer {
      var budget := s.reservations[id].declared;
      var (after, r) := Publish(cfg, s, producer, items, days, budget);
      PublishUsage(cfg, s, producer, items, days, budget, who);
      if r.Ok? {
        UsedWithoutReservation(after, id, who);
      }
    }
  }

  lemma PublishReservedKeeps(cfg: Config, s: State, id: Id, producer: string, items: seq<Item>, days: int)
    requires Sound(cfg, s) && WithinQuota(cfg, s)
    ensures var after := PublishReserved(cfg, s, id, producer, items, days).0;
            Sound(cfg, after) && WithinQuota(cfg, after)
  {
    var after := PublishReserved(cfg, s, id, producer, items, days).0;
    forall who ensures Used(after, who) <= Used(s, who) {
      PublishReservedNeverRaises(cfg, s, id, producer, items, days, who);
    }
    if id in s.reservations {
      PublishSound(cfg, s, producer, items, days, s.reservations[id].declared);
    }
  }

  lemma PublishUnreservedKeeps(cfg: Config, s: State, producer: string, items: seq<Item>, budget: int, days: int,
                               free: int)
    requires Sound(cfg, s) && WithinQuota(cfg, s)
    ensures var after := PublishUnreserved(cfg, s, producer, items, budget, days, free).0;
            Sound(cfg, after) && WithinQuota(cfg, after)
  {
    var after := PublishUnreserved(cfg, s, producer, items, budget, days, free).0;
    if ProducerOk(producer) && budget >= 0 && Admission(cfg, s, producer, budget, free) == None {
      forall who ensures Used(after, who) <= if who.None? then cfg.policy.totalQuota else cfg.policy.producerQuota {
        PublishUsage(cfg, s, producer, items, days, budget, who);
        AdmittedFits(cfg, s, producer, budget, free, who);
      }
      PublishSound(cfg, s, producer, items, days, budget);
    }
  }

  lemma StepKeeps(cfg: Config, s: State, op: Op)
    requires Sound(cfg, s) && WithinQuota(cfg, s)
    ensures Sound(cfg, Apply(cfg, s, op)) && WithinQuota(cfg, Apply(cfg, s, op))
  {
    match op
    case DoBegin(args, now, free) => BeginKeeps(cfg, s, args, now, free);
    case DoAppend(id, offset, data, digest, now) => AppendKeeps(cfg, s, id, offset, data, digest, now, 0);
    case DoAppendCrash(id, offset, data, digest, written) =>
      AppendKeeps(cfg, s, id, offset, data, digest, 0.0, written);
    case DoCommit(id, now) => CommitKeeps(cfg, s, id, now);
    case DoAbort(id) => RemovalKeeps(cfg, s, id, true);
    case DoDelete(id, confirm) => RemovalKeeps(cfg, s, id, confirm);
    case DoUpdate(id, days, now) => UpdateKeeps(cfg, s, id, days, now);
    case DoGc(now) => SweepKeeps(cfg, s, now);
    case DoReserve(producer, declared, now, free) => ReserveKeeps(cfg, s, producer, declared, now, free);
    case DoRelease(id) => RemovalKeeps(cfg, s, id, true);
    case DoPublishReserved(id, producer, items, days) => PublishReservedKeeps(cfg, s, id, producer, items, days);
    case DoPublishUnreserved(producer, items, budget, days, free) =>
      PublishUnreservedKeeps(cfg, s, producer, items, budget, days, free);
  }

  /** Quota conservation: no interleaving of the two programs takes the store or any producer over its quota. */
  lemma {:induction false} EveryRunKeepsQuotas(cfg: Config, s: State, ops: seq<Op>)
    requires Sound(cfg, s) && WithinQuota(cfg, s)
    ensures Sound(cfg, Run(cfg, s, ops)) && WithinQuota(cfg, Run(cfg, s, ops))
  {
    if ops != [] {
      var n := |ops| - 1;
      EveryRunKeepsQuotas(cfg, s, ops[..n]);
      StepKeeps(cfg, Run(cfg, s, ops[..n]), ops[n]);
    }
  }
}
