/**
 * The shared artifact store as a value, and every locked step that either of its two programs takes on it.
 * Identifiers are numbered in the order they are drawn, which says that uuid4 never repeats itself; SHA-256 is
 * any function from bytes to digests; the clock and the free disk space are inputs of the step that reads them.
 */
module ArtifactSpec {
  import opened Wrappers

  const MAX_CHUNK_BYTES := 512 * 1024
  const MAX_READ_BYTES := 512 * 1024
  const UPLOAD_TTL_SECONDS := 3600.0
  const DAY_SECONDS := 86400.0

  type Id = nat
  type Digest = string

  datatype Policy = Policy(totalQuota: nat, producerQuota: nat, maxArtifact: nat, maxRetentionDays: nat,
                           freeReserve: int)

  /** What is fixed while the store runs. */
  datatype Config = Config(policy: Policy, sha256: seq<byte> -> Digest)

  /** A committed artifact: its metadata and the bytes of its content file. */
  datatype Object = Object(name: string, mimeType: string, producer: string, bytes: nat, sha256: Digest,
                           created: real, expires: real, content: seq<byte>)

  /** An upload directory: upload.json and the bytes of its content file. */
  datatype Upload = Upload(name: string, mimeType: string, producer: string, declared: nat, received: nat,
                           expected: Option<Digest>, retentionDays: nat, updated: real, content: seq<byte>)

  datatype Reservation = Reservation(producer: string, declared: nat, updated: real)

  datatype State = State(objects: map<Id, Object>, uploads: map<Id, Upload>, reservations: map<Id, Reservation>,
                         nextId: Id)

  datatype Refusal =
    | BadArgument | TotalQuota | ProducerQuota | FreeReserve | NotFound | Expired | BadOffset | BeyondDeclared
    | TooLarge | NotBase64 | DigestMismatch | Incomplete | NotConfirmed | WrongProducer | OverBudget | OutputChanged
    | SystemFault

  // ---------------------------------------------------------------- argument patterns

  predicate IsAlnum(c: char) { 'a' <= c <= 'z' || 'A' <= c <= 'Z' || '0' <= c <= '9' }

  predicate IsNamePart(c: char) { IsAlnum(c) || c == '.' || c == '_' || c == '-' }

  predicate ProducerOk(s: string) {
    1 <= |s| <= 64 && IsAlnum(s[0]) && forall i | 1 <= i < |s| :: IsNamePart(s[i])
  }

  predicate UploadNameOk(s: string) {
    1 <= |s| <= 128 && forall c <- s :: c != '/' && c != '\\' && c as int > 0x1F && c as int != 0x7F
  }

  predicate PublishNameOk(s: string) {
    1 <= |s| <= 128 && IsAlnum(s[0]) && IsAlnum(s[|s| - 1]) && forall c <- s :: IsNamePart(c)
  }

  /** str.isspace for one character. */
  predicate IsSpace(c: char) {
    var u := c as int;
    9 <= u <= 13 || 28 <= u <= 32 || u == 0x85 || u == 0xA0 || u == 0x1680 || 0x2000 <= u <= 0x200A
    || u == 0x2028 || u == 0x2029 || u == 0x202F || u == 0x205F || u == 0x3000
  }

  predicate MimeOk(s: string) { 1 <= |s| <= 200 && forall c <- s :: !IsSpace(c) }

  predicate DigestOk(s: Digest) { |s| == 64 && forall c <- s :: '0' <= c <= '9' || 'a' <= c <= 'f' }

  // ---------------------------------------------------------------- usage

  /** What one entry of the store counts against the quotas. */
  datatype Charge = Charge(producer: string, bytes: nat)

  function ObjectCharges(m: map<Id, Object>): map<Id, Charge> {
    map id | id in m :: Charge(m[id].producer, m[id].bytes)
  }

  function UploadCharges(m: map<Id, Upload>): map<Id, Charge> {
    map id | id in m :: Charge(m[id].producer, m[id].declared)
  }

  function ReservationCharges(m: map<Id, Reservation>): map<Id, Charge> {
    map id | id in m :: Charge(m[id].producer, m[id].declared)
  }

  /** The bytes of a charge that count for one producer, or for the whole store. */
  function Weight(c: Charge, who: Option<string>): nat {
    if who.None? || who.value == c.producer then c.bytes else 0
  }

  ghost function Sum(m: map<Id, Charge>, who: Option<string>): nat
    decreases |m|
  {
    if m == map[] then 0
    else
      var k :| k in m;
      Weight(m[k], who) + Sum(m - {k}, who)
  }

  /** Bytes used by one producer, or store-wide: objects, uploads and reservations. */
  ghost function Used(s: State, who: Option<string>): nat {
    Sum(ObjectCharges(s.objects), who) + Sum(UploadCharges(s.uploads), who)
      + Sum(ReservationCharges(s.reservations), who)
  }

  /** The quota decision every allocating step makes, in the order its checks are made. */
  ghost function Admission(cfg: Config, s: State, producer: string, size: nat, free: int): Option<Refusal> {
    if Used(s, None) + size > cfg.policy.totalQuota then Some(TotalQuota)
    else if Used(s, Some(producer)) + size > cfg.policy.producerQuota then Some(ProducerQuota)
    else if free - size < cfg.policy.freeReserve then Some(FreeReserve)
    else None
  }

  // ---------------------------------------------------------------- the steps of the storage service

  function Swept(s: State, now: real): State {
    s.(objects := map id | id in s.objects && s.objects[id].expires > now :: s.objects[id],
       uploads := map id | id in s.uploads && s.uploads[id].updated + UPLOAD_TTL_SECONDS > now :: s.uploads[id],
       reservations := map id | id in s.reservations && s.reservations[id].updated + UPLOAD_TTL_SECONDS > now ::
                         s.reservations[id])
  }

  datatype BeginArgs = BeginArgs(name: string, producer: string, size: int, mimeType: string, retentionDays: int,
                                 expected: Option<Digest>)

  predicate BeginArgsOk(cfg: Config, a: BeginArgs) {
    && UploadNameOk(a.name) && ProducerOk(a.producer) && 0 <= a.size <= cfg.policy.maxArtifact
    && MimeOk(a.mimeType) && 1 <= a.retentionDays <= cfg.policy.maxRetentionDays
    && (a.expected.Some? ==> DigestOk(a.expected.value))
  }

  ghost function Begin(cfg: Config, s: State, a: BeginArgs, now: real, free: int): (State, Result<Id, Refusal>) {
    if !BeginArgsOk(cfg, a) then (s, Err(BadArgument))
    else
      var swept := Swept(s, now);
      match Admission(cfg, swept, a.producer, a.size, free)
      case Some(refusal) => (swept, Err(refusal))
      case None =>
        var upload := Upload(a.name, a.mimeType, a.producer, a.size, 0, a.expected, a.retentionDays, now, []);
        (swept.(uploads := swept.uploads[s.nextId := upload], nextId := s.nextId + 1), Ok(s.nextId))
  }

  /** The text of a data argument: how long it is, and what it decodes to when it is strict base64. */
  datatype Encoded = Encoded(length: nat, payload: Option<seq<byte>>)

  /** Base64 writes four characters for every three bytes, the last group padded. */
  function Base64(payload: seq<byte>): Encoded { Encoded((|payload| + 2) / 3 * 4, Some(payload)) }

  /** Everything append checks before it writes. */
  function AppendCheck(cfg: Config, s: State, id: Id, offset: int, data: Encoded,
                       chunkDigest: Option<Digest>): Result<seq<byte>, Refusal> {
    if !(0 <= offset <= cfg.policy.maxArtifact) then Err(BadArgument)
    else if data.length > MAX_CHUNK_BYTES * 4 / 3 + 8 then Err(TooLarge)
    else if data.payload.None? then Err(NotBase64)
    else
      var payload := data.payload.value;
      if |payload| > MAX_CHUNK_BYTES then Err(TooLarge)
      else if chunkDigest.Some? && cfg.sha256(payload) != chunkDigest.value then Err(DigestMismatch)
      else if id !in s.uploads then Err(NotFound)
      else if s.uploads[id].received != offset then Err(BadOffset)
      else if offset + |payload| > s.uploads[id].declared then Err(BeyondDeclared)
      else Ok(payload)
  }

  function Append(cfg: Config, s: State, id: Id, offset: int, data: Encoded, chunkDigest: Option<Digest>, now: real):
    (State, Result<nat, Refusal>) {
    match AppendCheck(cfg, s, id, offset, data, chunkDigest)
    case Err(e) => (s, Err(e))
    case Ok(payload) =>
      var u := s.uploads[id];
      var next := offset + |payload|;
      (s.(uploads := s.uploads[id := u.(content := u.content + payload, received := next, updated := now)]), Ok(next))
  }

  /** An append that stops after some of its bytes reached the content file and before its metadata is replaced. */
  function AppendCrash(cfg: Config, s: State, id: Id, offset: int, data: Encoded, chunkDigest: Option<Digest>,
                       written: nat): State {
    match AppendCheck(cfg, s, id, offset, data, chunkDigest)
    case Err(_) => s
    case Ok(payload) =>
      var u := s.uploads[id];
      s.(uploads := s.uploads[id :=
                              u.(content := u.content + if written < |payload| then payload[..written] else payload)])
  }

  function CommitCheck(cfg: Config, s: State, id: Id): Result<Upload, Refusal> {
    if id !in s.uploads then Err(NotFound)
    else
      var u := s.uploads[id];
      if u.received != u.declared || |u.content| != u.declared then Err(Incomplete)
      else if u.expected.Some? && u.expected.value != cfg.sha256(u.content) then Err(DigestMismatch)
      else Ok(u)
  }

  function Committed(cfg: Config, u: Upload, now: real): Object {
    Object(u.name, u.mimeType, u.producer, u.declared, cfg.sha256(u.content), now,
           now + u.retentionDays as real * DAY_SECONDS, u.content)
  }

  function Commit(cfg: Config, s: State, id: Id, now: real): (State, Result<Id, Refusal>) {
    match CommitCheck(cfg, s, id)
    case Err(e) => (s, Err(e))
    case Ok(u) =>
      (s.(objects := s.objects[s.nextId := Committed(cfg, u, now)], uploads := s.uploads - {id},
          nextId := s.nextId + 1), Ok(s.nextId))
  }

  function Abort(s: State, id: Id): (State, bool) { (s.(uploads := s.uploads - {id}), id in s.uploads) }

  function Delete(s: State, id: Id, confirm: bool): (State, Result<bool, Refusal>) {
    if !confirm then (s, Err(NotConfirmed)) else (s.(objects := s.objects - {id}), Ok(id in s.objects))
  }

  function UpdatedExpiry(cfg: Config, o: Object, days: nat, now: real): real {
    var requested := now + days as real * DAY_SECONDS;
    var maximum := o.created + cfg.policy.maxRetentionDays as real * DAY_SECONDS;
    if requested <= maximum then requested else maximum
  }

  function Update(cfg: Config, s: State, id: Id, days: int, now: real): (State, Result<Object, Refusal>) {
    if !(1 <= days <= cfg.policy.maxRetentionDays) then (s, Err(BadArgument))
    else if id !in s.objects then (s, Err(NotFound))
    else if s.objects[id].expires <= now then (s, Err(Expired))
    else
      var o := s.objects[id].(expires := UpdatedExpiry(cfg, s.objects[id], days, now));
      (s.(objects := s.objects[id := o]), Ok(o))
  }

  /** One reply of the read operation. */
  datatype ReadReply = ReadReply(artifactId: Id, offset: nat, payload: seq<byte>, nextOffset: nat, eof: bool,
                                 sha256: Digest)

  /** Reading takes no lock and changes nothing. */
  function Read(cfg: Config, s: State, id: Id, offset: int, length: int, now: real): Result<ReadReply, Refusal> {
    if id !in s.objects then Err(NotFound)
    else if s.objects[id].expires <= now then Err(Expired)
    else if !(0 <= offset <= s.objects[id].bytes) || !(1 <= length <= MAX_READ_BYTES) then Err(BadArgument)
    else
      var o := s.objects[id];
      var rest := if offset <= |o.content| then o.content[offset..] else [];
      var wanted := if length <= o.bytes - offset then length else o.bytes - offset;
      var payload := if wanted <= |rest| then rest[..wanted] else rest;
      Ok(ReadReply(id, offset, payload, offset + |payload|, offset + |payload| >= o.bytes, cfg.sha256(payload)))
  }

  // ---------------------------------------------------------------- the steps of the module brokers

  ghost function Reserve(cfg: Config, s: State, producer: string, declared: int, now: real, free: int):
    (State, Result<Id, Refusal>) {
    if !ProducerOk(producer) || declared < 0 then (s, Err(BadArgument))
    else
      match Admission(cfg, s, producer, declared, free)
      case Some(refusal) => (s, Err(refusal))
      case None =>
        (s.(reservations := s.reservations[s.nextId := Reservation(producer, declared, now)], nextId := s.nextId + 1),
         Ok(s.nextId))
  }

  function Release(s: State, id: Id): State { s.(reservations := s.reservations - {id}) }

  /** The system calls of one publication that can fail. */
  datatype Fault = NoFault | OnStaging | OnCopy | OnMetadata | OnMove

  /**
   * One output to publish: whether its source is a regular file, its size when it was validated, and what the
   * later copy read, at what time, and which system call failed if one did.
   */
  datatype Item = Item(isFile: bool, name: string, mimeType: string, statSize: nat, copied: seq<byte>, at: real,
                       fault: Fault)

  function ItemCheck(cfg: Config, item: Item): Option<Refusal> {
    if !(item.isFile && PublishNameOk(item.name) && MimeOk(item.mimeType)) then Some(BadArgument)
    else if item.statSize > cfg.policy.maxArtifact then Some(OverBudget)
    else None
  }

  /** The first item that does not validate, if any. */
  function ItemsCheck(cfg: Config, items: seq<Item>): (r: Option<Refusal>)
    ensures r == None <==> forall item <- items :: ItemCheck(cfg, item) == None
  {
    if items == [] then None
    else if ItemsCheck(cfg, items[..|items| - 1]).Some? then ItemsCheck(cfg, items[..|items| - 1])
    else ItemCheck(cfg, items[|items| - 1])
  }

  function Sizes(items: seq<Item>): nat {
    if items == [] then 0 else Sizes(items[..|items| - 1]) + items[|items| - 1].statSize
  }

  /** Validation of a batch: every item, then the sizes against the budget. */
  function BatchCheck(cfg: Config, items: seq<Item>, retentionDays: int, budget: nat): Option<Refusal> {
    if !(1 <= retentionDays <= cfg.policy.maxRetentionDays) then Some(BadArgument)
    else if ItemsCheck(cfg, items).Some? then ItemsCheck(cfg, items)
    else if Sizes(items) > budget then Some(OverBudget)
    else None
  }

  /** Whether the copy of an item goes through. */
  predicate Lands(item: Item) { item.fault == NoFault && |item.copied| == item.statSize }

  /** What an item that does not land raises: the copy is compared with the validated size before anything later. */
  function FailureOf(item: Item): Refusal {
    if item.fault != OnStaging && item.fault != OnCopy && |item.copied| != item.statSize then OutputChanged
      else SystemFault
  }

  function Published(cfg: Config, item: Item, producer: string, retentionDays: nat): Object {
    Object(item.name, item.mimeType, producer, item.statSize, cfg.sha256(item.copied), item.at,
           item.at + retentionDays as real * DAY_SECONDS, item.copied)
  }

  /** The objects of a batch under the identifiers drawn from first on. */
  function Batch(cfg: Config, items: seq<Item>, producer: string, retentionDays: nat, first: Id): map<Id, Object> {
    if items == [] then map[]
    else
      var n := |items| - 1;
      Batch(cfg, items[..n], producer, retentionDays, first)
        [first + n := Published(cfg, items[n], producer, retentionDays)]
  }

  /** How many items are attempted: all of them, or up to and including the first that fails. */
  function Attempts(items: seq<Item>): (n: nat)
    ensures n <= |items|
    ensures (exists item <- items :: !Lands(item)) ==> 0 < n && !Lands(items[n - 1])
    ensures forall i | 0 <= i < n - 1 :: Lands(items[i])
  {
    if items == [] then 0 else if !Lands(items[0]) then 1 else 1 + Attempts(items[1..])
  }

  /** Publication: every item becomes an object, or none does; identifiers once drawn stay drawn. */
  function Publish(cfg: Config, s: State, producer: string, items: seq<Item>, retentionDays: int, budget: nat):
    (State, Result<Id, Refusal>) {
    match BatchCheck(cfg, items, retentionDays, budget)
    case Some(refusal) => (s, Err(refusal))
    case None =>
      if forall item <- items :: Lands(item) then
        (s.(objects := s.objects + Batch(cfg, items, producer, retentionDays, s.nextId), nextId := s.nextId + |items|),
         Ok(s.nextId))
      else
        (s.(nextId := s.nextId + Attempts(items)), Err(FailureOf(items[Attempts(items) - 1])))
  }

  function PublishReserved(cfg: Config, s: State, id: Id, producer: string, items: seq<Item>, retentionDays: int):
    (State, Result<Id, Refusal>) {
    if !ProducerOk(producer) then (s, Err(BadArgument))
    else if id !in s.reservations then (s, Err(NotFound))
    else if s.reservations[id].producer != producer then (s, Err(WrongProducer))
    else
      var (after, r) := Publish(cfg, s, producer, items, retentionDays, s.reservations[id].declared);
      if r.Err? then (after, r) else (Release(after, id), r)
  }

  ghost function PublishUnreserved(cfg: Config, s: State, producer: string, items: seq<Item>, budget: int,
                                   retentionDays: int, free: int)
    : (State, Result<Id, Refusal>)
  {
    if !ProducerOk(producer) || budget < 0 then (s, Err(BadArgument))
    else
      match Admission(cfg, s, producer, budget, free)
      case Some(refusal) => (s, Err(refusal))
      case None => Publish(cfg, s, producer, items, retentionDays, budget)
  }

  // ---------------------------------------------------------------- runs

  /** One locked step of either program, with what the environment decides about it. */
  datatype Op =
    | DoBegin(args: BeginArgs, now: real, free: int)
    | DoAppend(id: Id, offset: int, data: Encoded, digest: Option<Digest>, now: real)
    | DoAppendCrash(id: Id, offset: int, data: Encoded, digest: Option<Digest>, written: nat)
    | DoCommit(id: Id, now: real)
    | DoAbort(id: Id)
    | DoDelete(id: Id, confirm: bool)
    | DoUpdate(id: Id, days: int, now: real)
    | DoGc(now: real)
    | DoReserve(producer: string, declared: int, now: real, free: int)
    | DoRelease(id: Id)
    | DoPublishReserved(id: Id, producer: string, items: seq<Item>, days: int)
    | DoPublishUnreserved(producer: string, items: seq<Item>, budget: int, days: int, free: int)

  ghost function Apply(cfg: Config, s: State, op: Op): State {
    match op
    case DoBegin(args, now, free) => Begin(cfg, s, args, now, free).0
    case DoAppend(id, offset, data, digest, now) => Append(cfg, s, id, offset, data, digest, now).0
    case DoAppendCrash(id, offset, data, digest, written) => AppendCrash(cfg, s, id, offset, data, digest, written)
    case DoCommit(id, now) => Commit(cfg, s, id, now).0
    case DoAbort(id) => Abort(s, id).0
    case DoDelete(id, confirm) => Delete(s, id, confirm).0
    case DoUpdate(id, days, now) => Update(cfg, s, id, days, now).0
    case DoGc(now) => Swept(s, now)
    case DoReserve(producer, declared, now, free) => Reserve(cfg, s, producer, declared, now, free).0
    case DoRelease(id) => Release(s, id)
    case DoPublishReserved(id, producer, items, days) => PublishReserved(cfg, s, id, producer, items, days).0
    case DoPublishUnreserved(producer, items, budget, days, free) =>
      PublishUnreserved(cfg, s, producer, items, budget, days, free).0
  }

  /** Any interleaving of steps of both programs, oldest first. */
  ghost function Run(cfg: Config, s: State, ops: seq<Op>): State {
    if ops == [] then s else Apply(cfg, Run(cfg, s, ops[..|ops| - 1]), ops[|ops| - 1])
  }
}
