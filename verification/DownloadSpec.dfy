/**
 * The bounded download loop as a machine: redirects, host cooldowns, retries and ranged continuation around one staged
 * file. Servers, clock, backoff draws and cancellation are inputs. The clock is read at numbered ticks, and the machine
 * carries the number of the next reading, so that every decision is about one definite moment of the run.
 */
module DownloadSpec {
  import opened Wrappers

  type Url = string
  type Host = string

  const MAX_REDIRECTS := 5
  const MAX_COOLDOWN_SECONDS := 900.0
  const HEAD_BYTES := 16

  // ---------------------------------------------------------------- HTTP

  /** A GET, with the first byte and validator of a ranged continuation (sections 14.2 and 13.1.5 of RFC 9110). */
  datatype Request = Request(url: Url, range: Option<(nat, string)>)

  /** How a body ends after its last chunk: at its end, or with an error that may be worth a retry. */
  datatype Ending = EndOfBody | Broken(transient: bool)

  /**
   * A response: the headers the loop looks at, the chunks its body yields, and the representation the server
   * was sending from, which the loop never sees.
   */
  datatype Response = Response(status: nat, location: Option<string>, retryAfter: Option<nat>, acceptsByteRanges: bool,
                               etag: string, lastModified: string, contentRangeStart: Option<nat>,
                               contentLength: Option<nat>, chunks: seq<seq<byte>>, ending: Ending,
                               representation: seq<byte>)

  datatype Exchange = NoResponse(transient: bool) | Reply(response: Response)

  function Body(chunks: seq<seq<byte>>): seq<byte> { if chunks == [] then [] else chunks[0] + Body(chunks[1..]) }

  /** What reading takes of a body: its chunks up to the first empty one, which reads as the end. */
  function Taken(chunks: seq<seq<byte>>): seq<byte> {
    if chunks == [] || chunks[0] == [] then [] else chunks[0] + Taken(chunks[1..])
  }

  /** How reading a body to its end turns out: None when it is complete, else whether the break is worth a retry. */
  function Cut(r: Response): Option<bool> {
    if [] !in r.chunks && r.ending.Broken? then Some(r.ending.transient)
    else if r.contentLength.Some? && r.contentLength.value != |Taken(r.chunks)| then Some(true)
    else None
  }

  predicate IsRedirect(status: nat) { status in {301, 302, 303, 307, 308} }

  predicate IsRetry(status: nat) { status in {429, 502, 503, 504} }

  predicate SlowsDown(status: nat) { status in {429, 503} }

  /** What a later range is made conditional on: a strong ETag, else Last-Modified, if the server takes byte ranges. */
  function RangeValidator(r: Response): Option<string> {
    if !r.acceptsByteRanges then None
    else
      var validator := if r.etag != "" && !("W/" <= r.etag) then r.etag else r.lastModified;
      if 0 < |validator| <= 200 then Some(validator) else None
  }

  // ---------------------------------------------------------------- the outside

  /**
   * The k-th exchange answers the k-th request; clock, draw and cancelled are indexed by the tick they are asked at.
   */
  datatype World = World(exchange: (nat, Request) -> Exchange, clock: nat -> real, draw: nat -> real,
                         cancelled: nat -> bool, hostOf: Url -> Host, follow: (Url, string) -> Option<Url>)

  /** Both backoff caps are whole seconds. */
  datatype Options = Options(url: Url, limit: nat, timeout: real, maxAttempts: nat, maxWait: real, backoffCap: nat)

  datatype Failure =
    | Cooling | Unreachable | NoLocation | TooManyRedirects | BadRedirect | StillRefused | UnexpectedStatus
    | DeclaredTooLarge | BodyTooLarge | DeadlinePassed | BodyFailed | Cancelled | EmptyContent

  function Head(s: seq<byte>): seq<byte> { if |s| <= HEAD_BYTES then s else s[..HEAD_BYTES] }

  /** A finished download: the file and what was recorded of it. */
  datatype Fetched = Fetched(file: seq<byte>, size: nat, hashed: seq<byte>, head: seq<byte>, final: Url)

  function Recorded(file: seq<byte>, final: Url): Fetched { Fetched(file, |file|, file, Head(file), final) }

  // ---------------------------------------------------------------- host cooldowns

  datatype Cooldown = Cooldown(until: real, status: nat)

  type Cooldowns = map<Host, Cooldown>

  function Least(a: real, b: real): real { if a <= b then a else b }

  /** A host asked to slow down: its cooldown is extended, never shortened, and ends within the maximum from now. */
  function Chilled(cooldowns: Cooldowns, host: Host, seconds: real, status: nat, now: real): Cooldowns {
    var until := now + Least(seconds, MAX_COOLDOWN_SECONDS);
    if host !in cooldowns || cooldowns[host].until < until then cooldowns[host := Cooldown(until, status)]
      else cooldowns
  }

  // ---------------------------------------------------------------- backoff

  function Doubling(n: nat): nat { if n == 0 then 1 else 2 * Doubling(n - 1) }

  lemma {:induction false} DoublingPositive(n: nat)
    ensures Doubling(n) >= 1
  {
    if n > 0 {
      DoublingPositive(n - 1);
    }
  }

  /** Twice as long after every failure. */
  lemma {:induction false} DoublingAdds(a: nat, b: nat)
    ensures Doubling(a + b) == Doubling(a) * Doubling(b) && Doubling(1) == 2
  {
    if a > 0 {
      DoublingAdds(a - 1, b);
    }
  }

  function Ceiling(failures: nat, cap: nat): nat
    requires failures > 0
  {
    if cap <= Doubling(failures - 1) then cap else Doubling(failures - 1)
  }

  /** The nearest whole number, the even one of two. */
  function Nearest(x: real): (n: int)
    ensures -0.5 <= x - n as real <= 0.5
    ensures x - n as real == 0.5 || x - n as real == -0.5 ==> n % 2 == 0
  {
    var below := x.Floor;
    var rest := x - below as real;
    if rest < 0.5 || (rest == 0.5 && below % 2 == 0) then below else below + 1
  }

  lemma NearestBetween(x: real, low: int, high: int)
    requires low as real <= x <= high as real
    ensures low <= Nearest(x) <= high
  {
    if x == high as real {
      assert x.Floor == high;
    }
  }

  /** A draw from the upper half of the ceiling, rounded to a tenth of a second. */
  function Backoff(failures: nat, cap: nat, draw: real): (wait: real)
    requires failures > 0 && cap > 0
    ensures 0.5 <= wait <= cap as real
  {
    var ceiling := Ceiling(failures, cap);
    DoublingPositive(failures - 1);
    var low, high := ceiling as real / 2.0, ceiling as real;
    var drawn := if draw < low then low else if draw > high then high else draw;
    NearestBetween(10.0 * drawn, 5 * ceiling, 10 * ceiling);
    Nearest(10.0 * drawn) as real / 10.0
  }

  /**
   * A backoff lies in the upper half of the lesser of the cap and the doubled base, and within half a tenth of a second
   * of a draw from there.
   */
  lemma BackoffLies(failures: nat, cap: nat, draw: real)
    requires failures > 0 && cap > 0
    ensures var wait, base := Backoff(failures, cap, draw), Doubling(failures - 1);
            && wait <= cap as real && wait <= base as real && (2.0 * wait >= cap as real || 2.0 * wait >= base as real)
            && (draw <= cap as real && draw <= base as real
                && (2.0 * draw >= cap as real || 2.0 * draw >= base as real) ==>
                  -0.05 <= wait - draw <= 0.05)
  {
    var ceiling := Ceiling(failures, cap);
    var low, high := ceiling as real / 2.0, ceiling as real;
    var drawn := if draw < low then low else if draw > high then high else draw;
    DoublingPositive(failures - 1);
    NearestBetween(10.0 * drawn, 5 * ceiling, 10 * ceiling);
  }

  /** The least whole number of seconds that covers a remaining time. */
  function Ceil(x: real): (c: real)
    ensures x <= c < x + 1.0 && c == c.Floor as real
  {
    if x.Floor as real == x then x else (x.Floor + 1) as real
  }

  // ---------------------------------------------------------------- the machine

  /** What is staged: the file, and the validator that allows it to be continued. */
  datatype Staged = Staged(file: seq<byte>, validator: Option<string>)

  /** A request that was sent: the tick of the last reading before it, where it went, and what came of it. */
  datatype Ask = Ask(tick: nat, url: Url, answer: Exchange)

  /** What a wait was for: a host's cooldown before a request, or the failed attempt of a request. */
  datatype Cause = Cooled(before: nat) | Retried(after: nat)

  /** A wait: why, the tick of the reading it was checked against, what was checked, and how long it then lasted. */
  datatype Wait = Wait(cause: Cause, tick: nat, delay: real, seconds: real)

  /** Where the loop stands; tick numbers the next reading of the clock. */
  datatype Loop = Loop(url: Url, staged: Staged, redirects: nat, failures: nat, trace: seq<Ask>, waits: seq<Wait>,
                       tick: nat, cooldowns: Cooldowns)

  /** What a turn of the loop leads to: another turn, or the result and the number of requests counted. */
  datatype Turned = GoOn(s: Loop) | End(result: Result<Fetched, Failure>, requests: nat, s: Loop)

  function Start(o: Options, cooldowns: Cooldowns): Loop {
    Loop(o.url, Staged([], None), 0, 0, [], [], 1, cooldowns)
  }

  predicate Live(o: Options, s: Loop) {
    s.redirects <= MAX_REDIRECTS && s.failures < o.maxAttempts && o.backoffCap > 0
  }

  /** A turn that goes on has used up a redirect or an attempt. */
  predicate Progress(o: Options, s: Loop, t: Turned) {
    t.GoOn? ==> Live(o, t.s) && t.s.redirects + t.s.failures == s.redirects + s.failures + 1
  }

  function Fail(why: Failure, s: Loop): Turned { End(Err(why), |s.trace|, s) }

  /** A conditional range once part of a validated body is staged. */
  function RequestFor(url: Url, staged: Staged): Request {
    Request(url, if staged.validator.Some? && staged.file != [] then Some((|staged.file|, staged.validator.value))
            else None)
  }

  /** A partial response is taken only as the continuation of what is staged. */
  predicate Continues(s: Staged, r: Response) {
    r.status == 206 && s.validator.Some? && s.file != [] && r.contentRangeStart == Some(|s.file|)
  }

  predicate TakesBody(s: Staged, r: Response) { r.status == 200 || Continues(s, r) }

  predicate Fits(delay: real, o: Options, now: real, deadline: real) { delay <= o.maxWait && now + delay < deadline }

  // ---- reading a body

  datatype Streamed = Finished | Interrupted(transient: bool) | TimedOut | TooLarge

  datatype Read = Read(outcome: Streamed, file: seq<byte>, tick: nat)

  function Ended(declared: Option<nat>, received: nat): Streamed {
    if declared.Some? && received != declared.value then Interrupted(true) else Finished
  }

  /** Reads on from the i-th chunk, looking at the clock before every read. */
  function ReadFrom(r: Response, i: nat, file: seq<byte>, received: nat, limit: nat, deadline: real, clock: nat -> real,
                    tick: nat): Read
    requires i <= |r.chunks|
    decreases |r.chunks| - i
  {
    if clock(tick) >= deadline then Read(TimedOut, file, tick + 1)
    else if i == |r.chunks| then
      Read(if r.ending.Broken? then Interrupted(r.ending.transient)
           else Ended(r.contentLength, received), file, tick + 1)
    else if r.chunks[i] == [] then Read(Ended(r.contentLength, received), file, tick + 1)
    else if |file| + |r.chunks[i]| > limit then Read(TooLarge, file, tick + 1)
    else ReadFrom(r, i + 1, file + r.chunks[i], received + |r.chunks[i]|, limit, deadline, clock, tick + 1)
  }

  // ---- the parts of a turn

  datatype CoolOff = Clear(s: Loop) | Stop(why: Failure, s: Loop)

  /** Honours a cooldown of the host before asking it, when the wait fits. */
  function Honoured(w: World, o: Options, deadline: real, s: Loop): CoolOff {
    var host := w.hostOf(s.url);
    if host !in s.cooldowns then Clear(s)
    else
      var left := s.cooldowns[host].until - w.clock(s.tick);
      if left <= 0.0 then Clear(s.(tick := s.tick + 1, cooldowns := s.cooldowns - {host}))
      else if !Fits(Ceil(left), o, w.clock(s.tick + 1), deadline) then Stop(Cooling, s.(tick := s.tick + 2))
      else
        var waited := s.(tick := s.tick + 2,
                         waits := s.waits + [Wait(Cooled(|s.trace|), s.tick + 1, Ceil(left), left)]);
        if w.cancelled(waited.tick) then Stop(Cancelled, waited) else Clear(waited)
  }

  /** A failed attempt: given up when it was the last one or its wait does not fit, else waited out. */
  function Retry(w: World, o: Options, deadline: real, s: Loop, wait: real, why: Failure): (t: Turned)
    requires s.redirects <= MAX_REDIRECTS && o.backoffCap > 0 && |s.trace| > 0
    ensures t.GoOn? ==> Live(o, t.s) && t.s.redirects == s.redirects && t.s.failures == s.failures
  {
    if s.failures >= o.maxAttempts then Fail(why, s)
    else if !Fits(wait, o, w.clock(s.tick), deadline) then Fail(why, s.(tick := s.tick + 1))
    else
      var waited := s.(tick := s.tick + 1, waits := s.waits + [Wait(Retried(|s.trace| - 1), s.tick, wait, wait)]);
      if wait > 0.0 && w.cancelled(waited.tick) then Fail(Cancelled, waited) else GoOn(waited)
  }

  function OneMoreFailure(w: World, o: Options, deadline: real, s: Loop, why: Failure): (t: Turned)
    requires Live(o, s) && |s.trace| > 0
    ensures Progress(o, s, t)
  {
    var failed := s.(failures := s.failures + 1);
    Retry(w, o, deadline, failed, Backoff(failed.failures, o.backoffCap, w.draw(s.tick)), why)
  }

  /** The wait a refusal asks for: what Retry-After says, else a backoff by the failures so far. */
  function RefusalWait(w: World, o: Options, s: Loop, r: Response): real
    requires o.backoffCap > 0
  {
    if r.retryAfter.Some? then r.retryAfter.value as real else Backoff(s.failures + 1, o.backoffCap, w.draw(s.tick))
  }

  /** One more failure, and a cooldown of the host when the refusal asks to slow down. */
  function Slowed(w: World, s: Loop, r: Response, wait: real): (t: Loop)
    ensures t.trace == s.trace && t.waits == s.waits && t.staged == s.staged && t.url == s.url
    ensures t.redirects == s.redirects && t.failures == s.failures + 1
  {
    var failed := s.(failures := s.failures + 1);
    if !SlowsDown(r.status) then failed
    else failed.(tick := s.tick + 1,
                 cooldowns := Chilled(s.cooldowns, w.hostOf(s.url), wait, r.status, w.clock(s.tick)))
  }

  /** A refusal worth a retry. */
  function RefusedTurn(w: World, o: Options, deadline: real, s: Loop, r: Response): (t: Turned)
    requires Live(o, s) && |s.trace| > 0
    ensures Progress(o, s, t)
  {
    var wait := RefusalWait(w, o, s, r);
    Retry(w, o, deadline, Slowed(w, s, r, wait), wait, StillRefused)
  }

  /** What the end of reading a body leads to. */
  function BodyEnds(w: World, o: Options, deadline: real, s: Loop, outcome: Streamed): (t: Turned)
    requires Live(o, s) && |s.trace| > 0
    ensures Progress(o, s, t)
  {
    match outcome
    case TimedOut => Fail(DeadlinePassed, s)
    case TooLarge => Fail(BodyTooLarge, s)
    case Interrupted(transient) =>
      if transient then OneMoreFailure(w, o, deadline, s, BodyFailed) else Fail(BodyFailed, s)
    case Finished =>
      var result := if s.staged.file == [] then Err(EmptyContent) else Ok(Recorded(s.staged.file, s.url));
      End(result, |s.trace|, s.(cooldowns := s.cooldowns - {w.hostOf(s.url)}))
  }

  /** A body that is accepted: read onto what is staged, and finished, retried or given up by how that goes. */
  function BodyTurn(w: World, o: Options, deadline: real, s: Loop, r: Response): (t: Turned)
    requires Live(o, s) && |s.trace| > 0
    ensures Progress(o, s, t)
  {
    if r.contentLength.Some? && |s.staged.file| + r.contentLength.value > o.limit then Fail(DeclaredTooLarge, s)
    else
      var read := ReadFrom(r, 0, s.staged.file, 0, o.limit, deadline, w.clock, s.tick);
      BodyEnds(w, o, deadline, s.(staged := s.staged.(file := read.file), tick := read.tick), read.outcome)
  }

  function RedirectTurn(w: World, s: Loop, r: Response): Turned {
    if r.location.None? then Fail(NoLocation, s)
    else if s.redirects >= MAX_REDIRECTS then Fail(TooManyRedirects, s)
    else
      match w.follow(s.url, r.location.value)
      case None => Fail(BadRedirect, s)
      case Some(to) => GoOn(s.(url := to, redirects := s.redirects + 1))
  }

  /** What an answer leads to. */
  function Answered(w: World, o: Options, deadline: real, s: Loop, e: Exchange): (t: Turned)
    requires Live(o, s) && |s.trace| > 0
    ensures Progress(o, s, t)
  {
    match e
    case NoResponse(transient) =>
      if transient then OneMoreFailure(w, o, deadline, s, Unreachable) else Fail(Unreachable, s)
    case Reply(r) =>
      if IsRedirect(r.status) then RedirectTurn(w, s, r)
      else if IsRetry(r.status) then RefusedTurn(w, o, deadline, s, r)
      else if r.status == 200 then BodyTurn(w, o, deadline, s.(staged := Staged([], RangeValidator(r))), r)
      else if Continues(s.staged, r) then BodyTurn(w, o, deadline, s, r)
      else Fail(UnexpectedStatus, s)
  }

  /** The loop once request number |trace| has been sent and answered. */
  function Asked(w: World, s: Loop): Loop {
    var e := w.exchange(|s.trace|, RequestFor(s.url, s.staged));
    s.(tick := s.tick + 1, trace := s.trace + [Ask(s.tick, s.url, e)])
  }

  /** A request, sent unless the deadline has passed, and what its answer leads to. */
  function RequestTurn(w: World, o: Options, deadline: real, s: Loop): (t: Turned)
    requires Live(o, s)
    ensures Progress(o, s, t)
  {
    if w.clock(s.tick) >= deadline then End(Err(DeadlinePassed), |s.trace| + 1, s.(tick := s.tick + 1))
    else
      var asked := Asked(w, s);
      Answered(w, o, deadline, asked, asked.trace[|s.trace|].answer)
  }

  function Turn(w: World, o: Options, deadline: real, s: Loop): (t: Turned)
    requires Live(o, s)
    ensures Progress(o, s, t)
  {
    match Honoured(w, o, deadline, s)
    case Stop(why, stopped) => Fail(why, stopped)
    case Clear(clear) => RequestTurn(w, o, deadline, clear)
  }

  /** The whole download from where the loop stands. */
  function Play(w: World, o: Options, deadline: real, s: Loop): (t: Turned)
    requires Live(o, s)
    ensures t.End?
    decreases MAX_REDIRECTS + o.maxAttempts - s.redirects - s.failures
  {
    var t := Turn(w, o, deadline, s);
    if t.GoOn? then Play(w, o, deadline, t.s) else t
  }

  /** The machine, started here, ends so. */
  predicate EndsWith(w: World, o: Options, deadline: real, first: Loop, t: Turned) {
    Live(o, first) && Play(w, o, deadline, first) == t
  }
}
