/** What every operation of the store accepts, and what it tells its caller, in terms of the store it was called on. */
module ArtifactReplies {
  import opened Wrappers
  import opened ArtifactSpec
  import opened ArtifactProofs
  import opened ArtifactRuns
  import opened ArtifactFates

  // ---------------------------------------------------------------- arguments

  predicate AlphaNumeric(c: char) { 'a' <= c <= 'z' || 'A' <= c <= 'Z' || '0' <= c <= '9' }

  /** No whitespace, in ASCII or beyond. */
  predicate Blankless(s: string) {
    forall c <- s ::
      var u := c as int;
      && u !in {0x09, 0x0A, 0x0B, 0x0C, 0x0D, 0x1C, 0x1D, 0x1E, 0x1F, 0x20, 0x85, 0xA0, 0x1680}
      && !(0x2000 <= u < 0x200B) && u !in {0x2028, 0x2029, 0x202F, 0x205F, 0x3000}
  }

  predicate Plain(c: char) { AlphaNumeric(c) || c in "._-" }

  predicate HexDigit(c: char) { '0' <= c <= '9' || 'a' <= c <= 'f' }

  /** The arguments begin takes: a safe name, a plain producer, allowed size and time, a type without blanks. */
  lemma ArgumentsAccepted(cfg: Config, a: BeginArgs)
    ensures BeginArgsOk(cfg, a) <==>
            && NameSafe(a.name)
            && 1 <= |a.producer| <= 64 && AlphaNumeric(a.producer[0]) && (forall c <- a.producer :: Plain(c))
            && 0 <= a.size <= cfg.policy.maxArtifact && 1 <= a.retentionDays <= cfg.policy.maxRetentionDays
            && 1 <= |a.mimeType| <= 200 && Blankless(a.mimeType)
            && (a.expected.Some? ==> |a.expected.value| == 64 && forall c <- a.expected.value :: HexDigit(c))
  {
    NamesAccepted(a.name);
    ProducerAccepted(a.producer);
  }

  lemma ProducerAccepted(producer: string)
    ensures ProducerOk(producer) <==>
            1 <= |producer| <= 64 && AlphaNumeric(producer[0]) && forall c <- producer :: Plain(c)
  {
    forall c ensures IsNamePart(c) <==> Plain(c) {
    }
    if ProducerOk(producer) {
      forall c <- producer ensures Plain(c) {
        var i :| 0 <= i < |producer| && producer[i] == c;
      }
    }
  }

  /** An output's name begins and ends plainly, and holds nothing but letters, digits, dots, underscores and dashes. */
  lemma OutputNamesAccepted(name: string)
    ensures PublishNameOk(name) <==>
            && 1 <= |name| <= 128 && (forall c <- name :: Plain(c))
            && AlphaNumeric(name[0]) && AlphaNumeric(name[|name| - 1])
  {
  }

  // ---------------------------------------------------------------- uploads and artifacts

  /** The check that names the first limit passed: the store's, then the producer's, then the disk's. */
  lemma LimitsInOrder(cfg: Config, s: State, producer: string, size: nat, free: int)
    ensures var total, own := Used(s, None) + size, Used(s, Some(producer)) + size;
            var r := Admission(cfg, s, producer, size, free);
            && (r == None <==> FitsIn(cfg, s, producer, size, free))
            && (r == Some(TotalQuota) <==> total > cfg.policy.totalQuota)
            && (r == Some(ProducerQuota) <==> total <= cfg.policy.totalQuota && own > cfg.policy.producerQuota)
            && (r == Some(FreeReserve) <==>
                total <= cfg.policy.totalQuota && own <= cfg.policy.producerQuota
                && size + cfg.policy.freeReserve > free)
  {
  }

  /** An append is acknowledged exactly when the upload accepts the chunk, with how much the upload then counts. */
  lemma AppendAnswers(cfg: Config, s: State, id: Id, offset: int, data: Encoded, digest: Option<Digest>, now: real)
    ensures var (after, r) := Append(cfg, s, id, offset, data, digest, now);
            && (r.Ok? <==> id in s.uploads && offset >= 0 && Accepts(cfg, s.uploads[id], offset, data, digest))
            && (r.Ok? ==> id in after.uploads && r.value == after.uploads[id].received)
            && (r.Err? ==> after == s)
            && (r == Err(BadOffset) ==> id in s.uploads && s.uploads[id].received != offset)
            && (r == Err(BeyondDeclared) ==>
                id in s.uploads && data.payload.Some? && offset + |data.payload.value| > s.uploads[id].declared)
  {
  }

  /** A commit goes through exactly when the upload is whole, and names the artifact it made. */
  lemma CommitAnswers(cfg: Config, s: State, id: Id, now: real)
    ensures var (after, r) := Commit(cfg, s, id, now);
            && (r.Ok? <==> id in s.uploads && Whole(cfg, s.uploads[id]))
            && (r.Ok? ==>
                && r.value == s.nextId && after.nextId == s.nextId + 1
                && after.objects == s.objects[s.nextId := ArtifactOf(cfg, s.uploads[id], now)]
                && after.uploads == s.uploads - {id})
            && (r.Err? ==> after == s)
            && (r == Err(Incomplete) <==>
                id in s.uploads && !(s.uploads[id].received == s.uploads[id].declared == |s.uploads[id].content|))
  {
  }

  /** Abort and a confirmed delete say whether there was something to remove; an unconfirmed delete is refused. */
  lemma RemovalAnswers(s: State, id: Id, confirm: bool)
    ensures Abort(s, id).1 <==> id in s.uploads
    ensures Delete(s, id, confirm).1 == if confirm then Ok(id in s.objects) else Err(NotConfirmed)
    ensures id !in Abort(s, id).0.uploads && (confirm ==> id !in Delete(s, id, confirm).0.objects)
  {
  }

  /** An update goes through for an artifact that has not expired, and returns it as it is kept from now on. */
  lemma UpdateAnswers(cfg: Config, s: State, id: Id, days: int, now: real)
    ensures var (after, r) := Update(cfg, s, id, days, now);
            && (r.Ok? <==> 1 <= days <= cfg.policy.maxRetentionDays && id in s.objects && now < s.objects[id].expires)
            && (r.Ok? ==>
                && r.value == s.objects[id].(expires := KeptUntil(cfg, DoUpdate(id, days, now), id, s.objects[id]))
                && after == s.(objects := s.objects[id := r.value]))
            && (r.Err? ==> after == s)
            && (r == Err(Expired) ==> id in s.objects && now >= s.objects[id].expires)
  {
  }

  /**
   * A read of an artifact that has not expired gives its bytes from an offset on, as many as asked for while there are
   * some, with their own digest, where they end, and whether that is the end.
   */
  lemma ReadAnswers(cfg: Config, s: State, id: Id, offset: int, length: int, now: real)
    requires Sound(cfg, s)
    ensures var r := Read(cfg, s, id, offset, length, now);
            && (r.Ok? <==>
                id in s.objects && now < s.objects[id].expires && 0 <= offset <= |s.objects[id].content|
                && 1 <= length <= 524288)
            && (r.Ok? ==>
                var content, v := s.objects[id].content, r.value;
                && offset <= v.nextOffset <= |content| && v.payload == content[offset..v.nextOffset]
                && (v.nextOffset == offset + length || (v.nextOffset == |content| && |v.payload| < length))
                && v.artifactId == id && v.offset == offset && v.sha256 == cfg.sha256(v.payload)
                && (v.eof <==> v.nextOffset == |content|))
            && (r == Err(Expired) <==> id in s.objects && now >= s.objects[id].expires)
  {
  }

  // ---------------------------------------------------------------- publication

  /** The item whose copy did not go through, all the ones before it having done so. */
  ghost predicate FirstToFail(items: seq<Item>, n: int) {
    0 <= n < |items| && !Copied([items[n]]) && Copied(items[..n])
  }

  /**
   * A batch that validates is published under the next identifiers, or fails with its first item that cannot be copied:
   * as changed when its size differs by then, and otherwise as the system call failed. Every attempt draws an
   * identifier.
   */
  lemma PublishAnswers(cfg: Config, s: State, producer: string, items: seq<Item>, days: int, budget: nat)
    requires Publishable(cfg, items, days, budget)
    ensures var (after, r) := Publish(cfg, s, producer, items, days, budget);
            && (r.Ok? <==> Copied(items))
            && (r.Ok? ==> r.value == s.nextId && after.nextId == s.nextId + |items|)
            && (r.Err? ==>
                exists n :: FirstToFail(items, n) && after == s.(nextId := s.nextId + n + 1) &&
                  r.error == if |items[n].copied| != items[n].statSize && items[n].fault !in {OnStaging, OnCopy}
                             then OutputChanged else SystemFault)
  {
    BatchValidates(cfg, items, days, budget);
    if !Copied(items) {
      var n := Attempts(items) - 1;
      assert exists item <- items :: !Lands(item);
      forall item <- items[..n] ensures Lands(item) {
        var i :| 0 <= i < n && items[i] == item;
      }
      assert FirstToFail(items, n);
    }
  }

  /** A reservation is spent by its own producer, and before the batch is looked at. */
  lemma ReservedAnswers(cfg: Config, s: State, id: Id, producer: string, items: seq<Item>, days: int)
    requires ProducerOk(producer)
    ensures var (after, r) := PublishReserved(cfg, s, id, producer, items, days);
            && (id !in s.reservations ==> r == Err(NotFound) && after == s)
            && (id in s.reservations && s.reservations[id].producer != producer ==>
                r == Err(WrongProducer) && after == s)
            && (r.Ok? ==>
                && id in s.reservations && FitsReservation(cfg, s.reservations[id], producer, items, days)
                && after.reservations == s.reservations - {id} && r.value == s.nextId)
            && (r.Err? ==> after.reservations == s.reservations && after.objects == s.objects)
  {
    if id in s.reservations {
      BatchValidates(cfg, items, days, s.reservations[id].declared);
    }
  }
}
