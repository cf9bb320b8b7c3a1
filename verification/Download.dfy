/**
 * The download loop in the form it runs: a transfer and a throttle that are updated in place, and the loop's variables.
 * Every method is proved against the part of the machine that it carries out.
 */
module Download {
  import opened Wrappers
  import opened DownloadSpec

  // ---------------------------------------------------------------- the staged file

  lemma HeadGrows(file: seq<byte>, chunk: seq<byte>)
    ensures var head := Head(file);
            var room := HEAD_BYTES - |head|;
            Head(file + chunk) ==
            if |head| < HEAD_BYTES then head + (if |chunk| <= room then chunk else chunk[..room]) else head
  {
  }

  /** The file a download is staged in, with what is kept of it as it grows. */
  class Transfer {
    var file: seq<byte>
    var hashed: seq<byte>
    var size: nat
    var head: seq<byte>

    /** The incremental size, digest input and head describe exactly the staged file. */
    ghost predicate Valid()
      reads this
    {
      hashed == file && size == |file| && head == Head(file)
    }

    constructor ()
      ensures Valid() && file == []
    {
      file, hashed, size, head := [], [], 0, [];
    }

    method Restart()
      modifies this
      ensures Valid() && file == []
    {
      file, hashed, size, head := [], [], 0, [];
    }

    /** Appends a body chunk by chunk, looking at the clock before every read. */
    method Stream(r: Response, limit: nat, deadline: real, clock: nat -> real, tick0: nat)
      returns (outcome: Streamed, tick: nat)
      requires Valid()
      modifies this
      ensures Valid() && ReadFrom(r, 0, old(file), 0, limit, deadline, clock, tick0) == Read(outcome, file, tick)
    {
      tick := tick0;
      var received: nat := 0;
      for i := 0 to |r.chunks|
        invariant Valid()
        invariant ReadFrom(r, i, file, received, limit, deadline, clock, tick) ==
                  ReadFrom(r, 0, old(file), 0, limit, deadline, clock, tick0)
      {
        var now := clock(tick);
        tick := tick + 1;
        if deadline - now <= 0.0 {
          return TimedOut, tick;
        }
        var chunk := r.chunks[i];
        if chunk == [] {
          return Ended(r.contentLength, received), tick;
        }
        if size + |chunk| > limit {
          return TooLarge, tick;
        }
        HeadGrows(file, chunk);
        if |head| < HEAD_BYTES {
          var room := HEAD_BYTES - |head|;
          head := head + if |chunk| <= room then chunk else chunk[..room];
        }
        hashed := hashed + chunk;
        file := file + chunk;
        size := size + |chunk|;
        received := received + |chunk|;
      }
      var now := clock(tick);
      tick := tick + 1;
      if deadline - now <= 0.0 {
        return TimedOut, tick;
      }
      if r.ending.Broken? {
        return Interrupted(r.ending.transient), tick;
      }
      return Ended(r.contentLength, received), tick;
    }
  }

  // ---------------------------------------------------------------- host cooldowns

  /** The throttling state the broker keeps between calls. */
  class Throttle {
    var cooldowns: Cooldowns

    constructor ()
      ensures cooldowns == map[]
    {
      cooldowns := map[];
    }

    method Remaining(host: Host, now: real) returns (remaining: real)
      modifies this
      ensures remaining >= 0.0
      ensures remaining > 0.0 ==>
                host in cooldowns && cooldowns == old(cooldowns) && now + remaining == cooldowns[host].until
      ensures remaining == 0.0 ==>
                cooldowns == old(cooldowns) - {host} && (host in old(cooldowns) ==> old(cooldowns)[host].until <= now)
    {
      if host !in cooldowns {
        return 0.0;
      }
      var left := cooldowns[host].until - now;
      if left <= 0.0 {
        cooldowns := cooldowns - {host};
        return 0.0;
      }
      return left;
    }

    /** A host's cooldown is only ever extended, and never beyond the maximum from now. */
    method Start(host: Host, seconds: real, status: nat, now: real)
      modifies this
      ensures cooldowns == Chilled(old(cooldowns), host, seconds, status, now)
      ensures host in cooldowns && cooldowns - {host} == old(cooldowns) - {host}
      ensures cooldowns[host].until >= now + Least(seconds, MAX_COOLDOWN_SECONDS)
      ensures host in old(cooldowns) ==> cooldowns[host].until >= old(cooldowns)[host].until
    {
      var until := now + Least(seconds, MAX_COOLDOWN_SECONDS);
      if host !in cooldowns || cooldowns[host].until < until {
        cooldowns := cooldowns[host := Cooldown(until, status)];
      }
    }

    method Clear(host: Host)
      modifies this
      ensures cooldowns == old(cooldowns) - {host}
    {
      cooldowns := cooldowns - {host};
    }
  }

  // ---------------------------------------------------------------- the loop

  /** Whether the loop goes on. */
  datatype Next = More | Over(result: Result<Fetched, Failure>)

  function Put(next: Next, requests: nat, s: Loop): Turned {
    match next
    case More => GoOn(s)
    case Over(result) => End(result, requests, s)
  }

  /** The wait after a failed attempt, if there is another attempt and the wait fits. */
  method Attempt(w: World, o: Options, deadline: real, failures: nat, wait: real, why: Failure, k: nat,
                 waits0: seq<Wait>, tick0: nat, ghost s: Loop) returns (next: Next, waits: seq<Wait>, tick: nat)
    requires s.redirects <= MAX_REDIRECTS && o.backoffCap > 0 && |s.trace| == k + 1
    requires s.failures == failures && s.waits == waits0 && s.tick == tick0
    ensures Put(next, |s.trace|, s.(waits := waits, tick := tick)) == Retry(w, o, deadline, s, wait, why)
  {
    waits, tick := waits0, tick0;
    if failures >= o.maxAttempts {
      return Over(Err(why)), waits, tick;
    }
    var now := w.clock(tick);
    tick := tick + 1;
    if !Fits(wait, o, now, deadline) {
      return Over(Err(why)), waits, tick;
    }
    waits := waits + [Wait(Retried(k), tick0, wait, wait)];
    if wait > 0.0 && w.cancelled(tick) {
      return Over(Err(Cancelled)), waits, tick;
    }
    next := More;
  }

  /** A refusal worth a retry: its wait, and a cooldown of the host when it asks to slow down. */
  method Refused(w: World, o: Options, deadline: real, throttle: Throttle, host: Host, r: Response, failures0: nat,
                 k: nat, waits0: seq<Wait>, tick0: nat, ghost s: Loop)
    returns (next: Next, failures: nat, waits: seq<Wait>, tick: nat)
    requires Live(o, s) && |s.trace| == k + 1 && s.failures == failures0 && s.waits == waits0 && s.tick == tick0
    requires s.cooldowns == throttle.cooldowns && host == w.hostOf(s.url)
    modifies throttle
    ensures Put(next, |s.trace|,
                s.(failures := failures, waits := waits, tick := tick, cooldowns := throttle.cooldowns)) ==
            RefusedTurn(w, o, deadline, s, r)
  {
    tick, failures := tick0, failures0 + 1;
    var wait := if r.retryAfter.Some? then r.retryAfter.value as real
      else Backoff(failures, o.backoffCap, w.draw(tick));
    if SlowsDown(r.status) {
      throttle.Start(host, wait, r.status, w.clock(tick));
      tick := tick + 1;
    }
    ghost var cooled := s.(failures := failures, tick := tick, cooldowns := throttle.cooldowns);
    next, waits, tick := Attempt(w, o, deadline, failures, wait, StillRefused, k, waits0, tick, cooled);
  }

  /** Streams an accepted body; a transient break becomes another attempt. */
  method TakeBody(w: World, o: Options, deadline: real, throttle: Throttle, transfer: Transfer, url: Url, r: Response,
                  failures0: nat, k: nat, waits0: seq<Wait>, tick0: nat, ghost s: Loop)
    returns (next: Next, failures: nat, waits: seq<Wait>, tick: nat)
    requires Live(o, s) && |s.trace| == k + 1 && s.failures == failures0 && s.waits == waits0 && s.tick == tick0
    requires s.cooldowns == throttle.cooldowns && url == s.url && transfer.Valid() && s.staged.file == transfer.file
    modifies throttle, transfer
    ensures transfer.Valid()
    ensures Put(next, |s.trace|, s.(staged := s.staged.(file := transfer.file), failures := failures, waits := waits,
                                    tick := tick, cooldowns := throttle.cooldowns)) == BodyTurn(w, o, deadline, s, r)
  {
    failures, waits, tick := failures0, waits0, tick0;
    if r.contentLength.Some? && transfer.size + r.contentLength.value > o.limit {
      return Over(Err(DeclaredTooLarge)), failures, waits, tick;
    }
    var outcome;
    outcome, tick := transfer.Stream(r, o.limit, deadline, w.clock, tick);
    match outcome {
      case TimedOut => next := Over(Err(DeadlinePassed));
      case TooLarge => next := Over(Err(BodyTooLarge));
      case Interrupted(transient) =>
        if !transient {
          return Over(Err(BodyFailed)), failures, waits, tick;
        }
        failures := failures + 1;
        ghost var after := s.(staged := s.staged.(file := transfer.file), failures := failures, tick := tick);
        var wait := Backoff(failures, o.backoffCap, w.draw(tick));
        next, waits, tick := Attempt(w, o, deadline, failures, wait, BodyFailed, k, waits, tick, after);
      case Finished =>
        throttle.Clear(w.hostOf(url));
        var fetched := Fetched(transfer.file, transfer.size, transfer.hashed, transfer.head, url);
        next := Over(if transfer.size == 0 then Err(EmptyContent) else Ok(fetched));
    }
  }

  /** The loop's variables as the machine carries them. */
  function Vars(url: Url, transfer: seq<byte>, validator: Option<string>, redirects: nat, failures: nat,
                trace: seq<Ask>, waits: seq<Wait>, tick: nat, cooldowns: Cooldowns): Loop {
    Loop(url, Staged(transfer, validator), redirects, failures, trace, waits, tick, cooldowns)
  }

  /** A failed connection, or an answer: everything that follows a request, up to the end of the wait after it. */
  method Handle(w: World, o: Options, deadline: real, throttle: Throttle, transfer: Transfer, url0: Url,
                validator0: Option<string>, redirects0: nat, failures0: nat, e: Exchange, k: nat, waits0: seq<Wait>,
                tick0: nat, ghost s: Loop)
    returns (next: Next, url: Url, validator: Option<string>, redirects: nat, failures: nat, waits: seq<Wait>,
             tick: nat)
    requires Live(o, s) && |s.trace| == k + 1 && transfer.Valid()
    requires s == Vars(url0, transfer.file, validator0, redirects0, failures0, s.trace, waits0, tick0,
                       throttle.cooldowns)
    modifies throttle, transfer
    ensures transfer.Valid()
    ensures Put(next, |s.trace|,
                Vars(url, transfer.file, validator, redirects, failures, s.trace, waits, tick, throttle.cooldowns))
            == Answered(w, o, deadline, s, e)
  {
    url, validator, redirects, failures, waits, tick := url0, validator0, redirects0, failures0, waits0, tick0;
    if e.NoResponse? {
      if !e.transient {
        next := Over(Err(Unreachable));
        return;
      }
      failures := failures + 1;
      var wait := Backoff(failures, o.backoffCap, w.draw(tick));
      next, waits, tick := Attempt(w, o, deadline, failures, wait, Unreachable, k, waits, tick,
                                   s.(failures := failures));
      return;
    }
    var r := e.response;
    if IsRedirect(r.status) {
      if r.location.None? {
        next := Over(Err(NoLocation));
        return;
      }
      if redirects >= MAX_REDIRECTS {
        next := Over(Err(TooManyRedirects));
        return;
      }
      var to := w.follow(url, r.location.value);
      if to.None? {
        next := Over(Err(BadRedirect));
        return;
      }
      url, redirects, next := to.value, redirects + 1, More;
    } else if IsRetry(r.status) {
      next, failures, waits, tick := Refused(w, o, deadline, throttle, w.hostOf(url), r, failures, k, waits, tick, s);
    } else if r.status == 200 {
      transfer.Restart();
      validator := RangeValidator(r);
      ghost var renewed := s.(staged := Staged([], validator));
      next, failures, waits, tick :=
        TakeBody(w, o, deadline, throttle, transfer, url, r, failures, k, waits, tick, renewed);
    } else if r.status == 206 && validator.Some? && transfer.size > 0 && r.contentRangeStart == Some(transfer.size) {
      next, failures, waits, tick := TakeBody(w, o, deadline, throttle, transfer, url, r, failures, k, waits, tick, s);
    } else {
      next := Over(Err(UnexpectedStatus));
    }
  }

  /** Honours a cooldown of the host before asking it: refused when the wait does not fit. */
  method Honour(w: World, o: Options, deadline: real, throttle: Throttle, host: Host, k: nat, waits0: seq<Wait>,
                tick0: nat, ghost s: Loop) returns (refused: Option<Failure>, waits: seq<Wait>, tick: nat)
    requires host == w.hostOf(s.url) && |s.trace| == k && s.waits == waits0 && s.tick == tick0
    requires s.cooldowns == throttle.cooldowns
    modifies throttle
    ensures Honoured(w, o, deadline, s) ==
            var after := s.(waits := waits, tick := tick, cooldowns := throttle.cooldowns);
            if refused.None? then Clear(after) else Stop(refused.value, after)
  {
    waits, tick, refused := waits0, tick0, None;
    if host !in throttle.cooldowns {
      return;
    }
    var cooling := throttle.Remaining(host, w.clock(tick));
    tick := tick + 1;
    if cooling > 0.0 {
      var delay := Ceil(cooling);
      var now := w.clock(tick);
      tick := tick + 1;
      if !Fits(delay, o, now, deadline) {
        return Some(Cooling), waits, tick;
      }
      waits := waits + [Wait(Cooled(k), tick - 1, delay, cooling)];
      if w.cancelled(tick) {
        return Some(Cancelled), waits, tick;
      }
    }
  }

  /** A request, sent unless the deadline has passed, and what its answer leads to. */
  method Round(w: World, o: Options, deadline: real, throttle: Throttle, transfer: Transfer, url0: Url,
               validator0: Option<string>, redirects0: nat, failures0: nat, requests0: nat, waits0: seq<Wait>,
               tick0: nat, ghost s: Loop)
    returns (next: Next, url: Url, validator: Option<string>, redirects: nat, failures: nat, requests: nat,
             waits: seq<Wait>, tick: nat, ghost after: Loop)
    requires Live(o, s) && |s.trace| == requests0 && transfer.Valid()
    requires s == Vars(url0, transfer.file, validator0, redirects0, failures0, s.trace, waits0, tick0,
                       throttle.cooldowns)
    modifies throttle, transfer
    ensures transfer.Valid() && (next.More? ==> requests == |after.trace|)
    ensures after == Vars(url, transfer.file, validator, redirects, failures, after.trace, waits, tick,
                          throttle.cooldowns)
    ensures Put(next, requests, after) == RequestTurn(w, o, deadline, s)
  {
    url, validator, redirects, failures, waits, tick := url0, validator0, redirects0, failures0, waits0, tick0;
    requests := requests0 + 1;
    if deadline - w.clock(tick) <= 0.0 {
      next, tick, after := Over(Err(DeadlinePassed)), tick + 1, s.(tick := tick + 1);
      return;
    }
    var e := w.exchange(requests0, RequestFor(url, Staged(transfer.file, validator)));
    tick := tick + 1;
    ghost var asked := Asked(w, s);
    next, url, validator, redirects, failures, waits, tick :=
      Handle(w, o, deadline, throttle, transfer, url, validator, redirects, failures, e, requests0, waits, tick, asked);
    after := Vars(url, transfer.file, validator, redirects, failures, asked.trace, waits, tick, throttle.cooldowns);
    assert |asked.trace| == requests;
  }

  /** One turn of the loop: a cooldown honoured, a request, and what its answer leads to. */
  method TurnOnce(w: World, o: Options, deadline: real, throttle: Throttle, transfer: Transfer, url0: Url,
                  validator0: Option<string>, redirects0: nat, failures0: nat, requests0: nat, waits0: seq<Wait>,
                  tick0: nat, ghost s: Loop)
    returns (next: Next, url: Url, validator: Option<string>, redirects: nat, failures: nat, requests: nat,
             waits: seq<Wait>, tick: nat, ghost after: Loop)
    requires Live(o, s) && |s.trace| == requests0 && transfer.Valid()
    requires s == Vars(url0, transfer.file, validator0, redirects0, failures0, s.trace, waits0, tick0,
                       throttle.cooldowns)
    modifies throttle, transfer
    ensures transfer.Valid() && (next.More? ==> requests == |after.trace|)
    ensures after == Vars(url, transfer.file, validator, redirects, failures, after.trace, waits, tick,
                          throttle.cooldowns)
    ensures Put(next, requests, after) == Turn(w, o, deadline, s)
  {
    url, validator, redirects, failures, requests := url0, validator0, redirects0, failures0, requests0;
    var refused;
    refused, waits, tick := Honour(w, o, deadline, throttle, w.hostOf(url), requests, waits0, tick0, s);
    after := s.(waits := waits, tick := tick, cooldowns := throttle.cooldowns);
    if refused.Some? {
      next := Over(Err(refused.value));
      return;
    }
    next, url, validator, redirects, failures, requests, waits, tick, after :=
      Round(w, o, deadline, throttle, transfer, url, validator, redirects, failures, requests, waits, tick, after);
  }

  /** The machine ends alike from both. */
  ghost predicate SameEnd(w: World, o: Options, deadline: real, s: Loop, first: Loop) {
    Live(o, s) && Live(o, first) && Play(w, o, deadline, s) == Play(w, o, deadline, first)
  }

  lemma TurnKeepsEnd(w: World, o: Options, deadline: real, s: Loop, first: Loop, t: Turned)
    requires SameEnd(w, o, deadline, s, first) && Turn(w, o, deadline, s) == t
    ensures t.GoOn? ==>
            SameEnd(w, o, deadline, t.s, first) && t.s.redirects + t.s.failures == s.redirects + s.failures + 1
    ensures t.End? ==> EndsWith(w, o, deadline, first, t)
  {
  }

  /** The loop itself, from wherever the machine stands. */
  method Loops(w: World, o: Options, deadline: real, throttle: Throttle, transfer: Transfer, ghost first: Loop)
    returns (r: Result<Fetched, Failure>, requests: nat, waits: seq<Wait>, ghost final: Loop)
    requires Live(o, first) && transfer.Valid() && transfer.file == []
    requires first == Vars(o.url, [], None, 0, 0, [], [], 1, throttle.cooldowns)
    modifies throttle, transfer
    ensures EndsWith(w, o, deadline, first, End(r, requests, final))
    ensures throttle.cooldowns == final.cooldowns && waits == final.waits
  {
    var current, validator, redirects: nat, failures: nat, tick: nat := o.url, None, 0, 0, 1;
    requests, waits := 0, [];
    final := first;
    while true
      invariant transfer.Valid() && requests == |final.trace|
      invariant final == Vars(current, transfer.file, validator, redirects, failures, final.trace, waits, tick,
                              throttle.cooldowns)
      invariant SameEnd(w, o, deadline, final, first)
      decreases MAX_REDIRECTS + o.maxAttempts - final.redirects - final.failures
    {
      ghost var s := final;
      var next;
      next, current, validator, redirects, failures, requests, waits, tick, final :=
        TurnOnce(w, o, deadline, throttle, transfer, current, validator, redirects, failures, requests, waits, tick, s);
      TurnKeepsEnd(w, o, deadline, s, first, Put(next, requests, final));
      if next.Over? {
        return next.result, requests, waits, final;
      }
    }
  }

  /**
   * The download, from a throttle in any state: it is the machine, step by step, and leaves the machine's cooldowns.
   */
  method Run(w: World, o: Options, throttle: Throttle)
    returns (r: Result<Fetched, Failure>, requests: nat, waits: seq<Wait>, ghost final: Loop)
    requires o.maxAttempts > 0 && o.backoffCap > 0
    modifies throttle
    ensures EndsWith(w, o, w.clock(0) + o.timeout, Start(o, old(throttle.cooldowns)), End(r, requests, final))
    ensures throttle.cooldowns == final.cooldowns && waits == final.waits
  {
    var deadline := w.clock(0) + o.timeout;
    var transfer := new Transfer();
    r, requests, waits, final := Loops(w, o, deadline, throttle, transfer, Start(o, throttle.cooldowns));
  }
}
