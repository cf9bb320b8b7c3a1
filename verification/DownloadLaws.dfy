/** What every run of the download machine keeps: its accounts, its clock, and the reason of each ending. */
module DownloadLaws {
  import opened Wrappers
  import opened DownloadSpec

  // ---------------------------------------------------------------- reading a body

  lemma {:induction false} TakenOfBody(chunks: seq<seq<byte>>)
    ensures Taken(chunks) <= Body(chunks)
  {
    if chunks != [] && chunks[0] != [] {
      TakenOfBody(chunks[1..]);
    }
  }

  /**
   * Reading that comes to an end has appended exactly what the body yields, and is finished exactly when nothing broke
   * and the declared length arrived. Whatever ends it, the file has grown by a prefix of that, within the limit.
   */
  lemma {:induction false} ReadTakes(r: Response, i: nat, file: seq<byte>, received: nat, limit: nat, deadline: real,
                                     clock: nat -> real, tick: nat)
    requires i <= |r.chunks| && |file| <= limit
    requires |Taken(r.chunks)| == received + |Taken(r.chunks[i..])| && ([] in r.chunks <==> [] in r.chunks[i..])
    ensures var read := ReadFrom(r, i, file, received, limit, deadline, clock, tick);
            && |read.file| <= limit && file <= read.file <= file + Taken(r.chunks[i..])
            && (read.outcome.Finished? || read.outcome.Interrupted? ==> read.file == file + Taken(r.chunks[i..]))
            && (read.outcome.Finished? ==> Cut(r) == None)
            && (read.outcome.Interrupted? ==> Cut(r) == Some(read.outcome.transient))
            && (read.outcome.TooLarge? ==> |file + Taken(r.chunks[i..])| > limit)
    decreases |r.chunks| - i
  {
    if i < |r.chunks| {
      assert r.chunks[i..][1..] == r.chunks[i + 1..] && r.chunks[i..][0] == r.chunks[i];
      if r.chunks[i] != [] && |file| + |r.chunks[i]| <= limit {
        var grown := file + r.chunks[i];
        assert file + Taken(r.chunks[i..]) == grown + Taken(r.chunks[i + 1..]);
        assert [] in r.chunks[i..] <==> [] in r.chunks[i + 1..] by {
          assert r.chunks[i..] == [r.chunks[i]] + r.chunks[i + 1..];
        }
        ReadTakes(r, i + 1, grown, received + |r.chunks[i]|, limit, deadline, clock, tick + 1);
      }
    }
  }

  lemma ReadsWhole(r: Response, file: seq<byte>, limit: nat, deadline: real, clock: nat -> real, tick: nat)
    requires |file| <= limit
    ensures var read := ReadFrom(r, 0, file, 0, limit, deadline, clock, tick);
            && |read.file| <= limit && file <= read.file <= file + Taken(r.chunks)
            && (read.outcome.Finished? || read.outcome.Interrupted? ==> read.file == file + Taken(r.chunks))
            && (read.outcome.Finished? ==> Cut(r) == None)
            && (read.outcome.Interrupted? ==> Cut(r) == Some(read.outcome.transient))
            && (read.outcome.TooLarge? ==> |file + Taken(r.chunks)| > limit)
  {
    assert r.chunks[0..] == r.chunks;
    ReadTakes(r, 0, file, 0, limit, deadline, clock, tick);
  }

  /**
   * The clock is read before every chunk, each reading but the last is followed by one chunk, and only the last reading
   * can be past the deadline, which then ends the reading: no chunk is taken after such a reading.
   */
  lemma {:induction false} ReadingStops(r: Response, i: nat, file: seq<byte>, received: nat, limit: nat, deadline: real,
                                        clock: nat -> real, tick: nat)
    requires i <= |r.chunks|
    ensures var read := ReadFrom(r, i, file, received, limit, deadline, clock, tick);
            var taken := read.tick - 1 - tick;
            && 0 <= taken <= |r.chunks| - i && read.file == file + Body(r.chunks[i..i + taken])
            && (forall t :: tick <= t < read.tick - 1 ==> clock(t) < deadline)
            && (read.outcome.TimedOut? <==> clock(read.tick - 1) >= deadline)
    decreases |r.chunks| - i
  {
    if clock(tick) < deadline && i < |r.chunks| && r.chunks[i] != [] && |file| + |r.chunks[i]| <= limit {
      ReadingStops(r, i + 1, file + r.chunks[i], received + |r.chunks[i]|, limit, deadline, clock, tick + 1);
      var read := ReadFrom(r, i + 1, file + r.chunks[i], received + |r.chunks[i]|, limit, deadline, clock, tick + 1);
      var taken := read.tick - 1 - tick;
      assert r.chunks[i..i + taken][1..] == r.chunks[i + 1..i + taken];
    }
  }

  // ---------------------------------------------------------------- what the exchanges come to

  /**
   * A redirect that is followed, and a refusal that is worth a retry (sections 15.4 to 15.6 of RFC 9110 and RFC 6585).
   */
  predicate Moves(status: nat) { 301 <= status <= 303 || 307 <= status <= 308 }

  predicate AsksAgain(status: nat) { status == 429 || 502 <= status <= 504 }

  /** The range that is asked for next: what follows a staged part that has a validator. */
  function Missing(s: Staged): Option<(nat, string)> {
    if s.file == [] || s.validator.None? then None else Some((|s.file|, s.validator.value))
  }

  /**
   * Only a server that takes byte ranges is asked for one, on a condition of at most 200 characters: its strong entity
   * tag, or when it names none, its Last-Modified.
   */
  lemma ValidatorIsStrong(r: Response, validator: string)
    ensures RangeValidator(r) == Some(validator) <==>
            && r.acceptsByteRanges && 1 <= |validator| <= 200
            && if |r.etag| > 0 && !(|r.etag| > 1 && r.etag[0] == 'W' && r.etag[1] == '/') then validator == r.etag
               else validator == r.lastModified
  {
  }

  /** What an answer makes of what is staged: a full body replaces it, a continuation extends it. */
  function StagedAfter(s: Staged, e: Exchange): Staged {
    if e.Reply? && e.response.status == 200 then Staged(Taken(e.response.chunks), RangeValidator(e.response))
    else if e.Reply? && Continues(s, e.response) then s.(file := s.file + Taken(e.response.chunks))
    else s
  }

  function Assembled(trace: seq<Ask>): Staged {
    if trace == [] then Staged([], None)
    else StagedAfter(Assembled(trace[..|trace| - 1]), trace[|trace| - 1].answer)
  }

  function Hop(w: World, a: Ask): Option<Url> {
    if a.answer.Reply? && Moves(a.answer.response.status) && a.answer.response.location.Some?
    then w.follow(a.url, a.answer.response.location.value)
    else None
  }

  /** Where the next request goes. */
  function UrlAfter(w: World, o: Options, trace: seq<Ask>): Url {
    if trace == [] then o.url
    else
      var last := trace[|trace| - 1];
      if Hop(w, last).Some? then Hop(w, last).value else last.url
  }

  /** A failed attempt that is worth another one, given what was staged before it. */
  predicate FailedTry(s: Staged, e: Exchange) {
    match e
    case NoResponse(transient) => transient
    case Reply(r) => AsksAgain(r.status) || (TakesBody(s, r) && Cut(r) == Some(true))
  }

  predicate Done(s: Staged, e: Exchange) { e.Reply? && TakesBody(s, e.response) && Cut(e.response) == None }

  /** The failed attempts among some requests, in order. */
  function FailedTries(trace: seq<Ask>): seq<nat> {
    if trace == [] then []
    else
      var n := |trace| - 1;
      FailedTries(trace[..n]) + if FailedTry(Assembled(trace[..n]), trace[n].answer) then [n] else []
  }

  function Hops(w: World, trace: seq<Ask>): nat {
    if trace == [] then 0
    else Hops(w, trace[..|trace| - 1]) + if Hop(w, trace[|trace| - 1]).Some? then 1 else 0
  }

  /** The requests whose failed attempt was waited out, in order. */
  function WaitedFor(waits: seq<Wait>): seq<nat> {
    if waits == [] then []
    else
      var last := waits[|waits| - 1];
      WaitedFor(waits[..|waits| - 1]) + match last.cause case Cooled(_) => [] case Retried(k) => [k]
  }

  /** Every request is the one that the answers before it call for, and every answer is the world's to it. */
  predicate Genuine(w: World, o: Options, trace: seq<Ask>) {
    trace != [] ==>
      var n := |trace| - 1;
      && Genuine(w, o, trace[..n])
      && trace[n].url == UrlAfter(w, o, trace[..n])
      && trace[n].answer == w.exchange(n, Request(trace[n].url, Missing(Assembled(trace[..n]))))
  }

  /** What the loop has done: every request so far was a followed redirect, or a failed attempt that was waited out. */
  predicate Accounted(w: World, o: Options, s: Loop) {
    && Genuine(w, o, s.trace) && s.staged == Assembled(s.trace) && s.url == UrlAfter(w, o, s.trace)
       && |s.staged.file| <= o.limit
    && s.redirects == Hops(w, s.trace) && s.failures == |FailedTries(s.trace)| && |s.trace| == s.redirects + s.failures
    && WaitedFor(s.waits) == FailedTries(s.trace)
  }

  /** The file, its length, the bytes its digest is taken of, its first sixteen bytes, and where it came from. */
  predicate Records(f: Fetched, file: seq<byte>, url: Url) {
    && f.file == file == f.hashed && f.size == |file| && f.final == url
    && f.head <= file && |f.head| == if |file| < 16 then |file| else 16
  }

  /** What an ending tells of the run: it ends between two requests, or with the answer to the last. */
  predicate EndAccounted(w: World, o: Options, t: Turned)
    requires t.End?
  {
    var n := |t.s.trace|;
    && Genuine(w, o, t.s.trace) && t.requests <= 5 + o.maxAttempts
    && (Between(t) ==> Accounted(w, o, t.s))
    && (!Between(t) ==>
          && n > 0 && t.requests == n
          && Hops(w, t.s.trace[..n - 1]) <= 5 && |FailedTries(t.s.trace[..n - 1])| < o.maxAttempts
          && n - 1 == Hops(w, t.s.trace[..n - 1]) + |FailedTries(t.s.trace[..n - 1])|
          && WaitedFor(t.s.waits) == FailedTries(t.s.trace[..n - 1]))
    && (t.result.Ok? ==>
          && !Between(t) && Done(Assembled(t.s.trace[..n - 1]), t.s.trace[n - 1].answer)
          && t.s.staged == Assembled(t.s.trace) && Records(t.result.value, t.s.staged.file, UrlAfter(w, o, t.s.trace))
          && 0 < |t.s.staged.file| <= o.limit)
  }

  /** The endings that do not come from an answer. */
  predicate Between(t: Turned)
    requires t.End?
  {
    t.result == Err(Cooling) || t.result == Err(Cancelled) || t.requests == |t.s.trace| + 1
  }

  lemma WaitedSnoc(waits: seq<Wait>, x: Wait)
    ensures WaitedFor(waits + [x]) == WaitedFor(waits) + match x.cause case Cooled(_) => [] case Retried(k) => [k]
  {
    assert (waits + [x])[..|waits|] == waits;
  }

  lemma HonouredAccounted(w: World, o: Options, deadline: real, s: Loop)
    requires Live(o, s) && Accounted(w, o, s)
    ensures var c := Honoured(w, o, deadline, s);
            Accounted(w, o, c.s) && Live(o, c.s) && c.s.redirects == s.redirects && c.s.failures == s.failures
    ensures Honoured(w, o, deadline, s).Stop? ==> Honoured(w, o, deadline, s).why in {Cooling, Cancelled}
  {
    var c := Honoured(w, o, deadline, s);
    if c.s.waits != s.waits {
      WaitedSnoc(s.waits, c.s.waits[|s.waits|]);
    }
  }

  /** The requests so far and one more. */
  predicate Grown(w: World, o: Options, before: Loop, trace: seq<Ask>) {
    && Live(o, before) && Accounted(w, o, before)
    && |trace| == |before.trace| + 1 && trace[..|before.trace|] == before.trace && Genuine(w, o, trace)
  }

  /** The run ends with the answer to the last request, in an error. */
  lemma EndsByAnswer(w: World, o: Options, before: Loop, s: Loop, why: Failure)
    requires Grown(w, o, before, s.trace) && s.waits == before.waits && why !in {Cooling, Cancelled}
    ensures EndAccounted(w, o, Fail(why, s))
  {
  }

  /** A failed attempt that was waited out. */
  lemma WaitedOut(w: World, o: Options, before: Loop, s: Loop, wait: real, tick: nat)
    requires Grown(w, o, before, s.trace) && s.waits == before.waits
    requires FailedTry(before.staged, s.trace[|before.trace|].answer) && Hop(w, s.trace[|before.trace|]).None?
    requires s.staged == Assembled(s.trace) && |s.staged.file| <= o.limit && s.url == s.trace[|before.trace|].url
    requires s.redirects == before.redirects && s.failures == before.failures + 1
    ensures Accounted(w, o, s.(tick := tick, waits := s.waits + [Wait(Retried(|s.trace| - 1), s.tick, wait, wait)]))
  {
    WaitedSnoc(s.waits, Wait(Retried(|s.trace| - 1), s.tick, wait, wait));
  }

  /** The run is cancelled in a wait. */
  lemma CancelledWaiting(w: World, o: Options, s: Loop)
    requires Live(o, s) && Accounted(w, o, s)
    ensures EndAccounted(w, o, Fail(Cancelled, s))
  {
  }

  lemma RetryWaits(w: World, o: Options, deadline: real, before: Loop, s: Loop, wait: real, why: Failure)
    requires Grown(w, o, before, s.trace) && s.waits == before.waits
    requires FailedTry(before.staged, s.trace[|before.trace|].answer) && Hop(w, s.trace[|before.trace|]).None?
    requires s.staged == Assembled(s.trace) && |s.staged.file| <= o.limit && s.url == s.trace[|before.trace|].url
    requires s.redirects == before.redirects && s.failures == before.failures + 1
    requires s.failures < o.maxAttempts && Fits(wait, o, w.clock(s.tick), deadline)
    ensures TurnAccounted(w, o, Retry(w, o, deadline, s, wait, why))
  {
    var t := Retry(w, o, deadline, s, wait, why);
    var waited := s.(tick := s.tick + 1, waits := s.waits + [Wait(Retried(|s.trace| - 1), s.tick, wait, wait)]);
    WaitedOut(w, o, before, s, wait, s.tick + 1);
    CancelledWaiting(w, o, waited);
    assert t == if wait > 0.0 && w.cancelled(waited.tick) then Fail(Cancelled, waited) else GoOn(waited);
  }

  /** A failed attempt, with what its answer staged: waited out, or the end. */
  lemma RetryAccounted(w: World, o: Options, deadline: real, before: Loop, s: Loop, wait: real, why: Failure)
    requires Grown(w, o, before, s.trace) && s.waits == before.waits && why !in {Cooling, Cancelled}
    requires FailedTry(before.staged, s.trace[|before.trace|].answer) && Hop(w, s.trace[|before.trace|]).None?
    requires s.staged == Assembled(s.trace) && |s.staged.file| <= o.limit && s.url == s.trace[|before.trace|].url
    requires s.redirects == before.redirects && s.failures == before.failures + 1
    ensures TurnAccounted(w, o, Retry(w, o, deadline, s, wait, why))
  {
    var t := Retry(w, o, deadline, s, wait, why);
    if s.failures >= o.maxAttempts {
      EndsByAnswer(w, o, before, s, why);
      assert t == Fail(why, s);
    } else if !Fits(wait, o, w.clock(s.tick), deadline) {
      EndsByAnswer(w, o, before, s.(tick := s.tick + 1), why);
      assert t == Fail(why, s.(tick := s.tick + 1));
    } else {
      RetryWaits(w, o, deadline, before, s, wait, why);
    }
  }

  predicate TurnAccounted(w: World, o: Options, t: Turned) {
    if t.GoOn? then Accounted(w, o, t.s) else EndAccounted(w, o, t)
  }

  /** What is known of the loop when its request has been answered. */
  predicate Open(w: World, o: Options, before: Loop, s: Loop) {
    && Grown(w, o, before, s.trace) && s.waits == before.waits && s.redirects == before.redirects
    && s.failures == before.failures && s.url == s.trace[|before.trace|].url
  }

  lemma OneMoreAccounted(w: World, o: Options, deadline: real, before: Loop, s: Loop, why: Failure)
    requires Open(w, o, before, s) && Live(o, s) && why !in {Cooling, Cancelled}
    requires FailedTry(before.staged, s.trace[|before.trace|].answer) && Hop(w, s.trace[|before.trace|]).None?
    requires s.staged == Assembled(s.trace) && |s.staged.file| <= o.limit
    ensures TurnAccounted(w, o, OneMoreFailure(w, o, deadline, s, why))
  {
    var failed := s.(failures := s.failures + 1);
    RetryAccounted(w, o, deadline, before, failed, Backoff(failed.failures, o.backoffCap, w.draw(s.tick)), why);
  }

  lemma RefusalIsFailedTry(w: World, o: Options, before: Loop, trace: seq<Ask>, r: Response)
    requires Grown(w, o, before, trace) && trace[|before.trace|].answer == Reply(r) && IsRetry(r.status)
    ensures FailedTry(before.staged, trace[|before.trace|].answer) && Hop(w, trace[|before.trace|]).None?
    ensures Assembled(trace) == before.staged
  {
  }

  lemma RefusedAccounted(w: World, o: Options, deadline: real, before: Loop, s: Loop, r: Response)
    requires Open(w, o, before, s) && Live(o, s) && s.trace[|before.trace|].answer == Reply(r) && IsRetry(r.status)
    requires s.staged == before.staged
    ensures TurnAccounted(w, o, RefusedTurn(w, o, deadline, s, r))
  {
    var wait := RefusalWait(w, o, s, r);
    RefusalIsFailedTry(w, o, before, s.trace, r);
    RetryAccounted(w, o, deadline, before, Slowed(w, s, r, wait), wait, StillRefused);
  }

  /** A complete body. */
  lemma FinishedAccounted(w: World, o: Options, before: Loop, s: Loop)
    requires Open(w, o, before, s) && Done(before.staged, s.trace[|before.trace|].answer)
    requires Hop(w, s.trace[|before.trace|]).None? && s.staged == Assembled(s.trace) && |s.staged.file| <= o.limit
    ensures var file := s.staged.file;
            EndAccounted(w, o, End(if file == [] then Err(EmptyContent) else Ok(Recorded(file, s.url)), |s.trace|, s))
  {
  }

  lemma BodyAccounted(w: World, o: Options, deadline: real, before: Loop, s: Loop, r: Response)
    requires Open(w, o, before, s) && Live(o, s) && s.trace[|before.trace|].answer == Reply(r)
             && TakesBody(before.staged, r)
    requires s.staged == if r.status == 200 then Staged([], RangeValidator(r)) else before.staged
    ensures TurnAccounted(w, o, BodyTurn(w, o, deadline, s, r))
  {
    if r.contentLength.Some? && |s.staged.file| + r.contentLength.value > o.limit {
      EndsByAnswer(w, o, before, s, DeclaredTooLarge);
    } else {
      ReadsWhole(r, s.staged.file, o.limit, deadline, w.clock, s.tick);
      var read := ReadFrom(r, 0, s.staged.file, 0, o.limit, deadline, w.clock, s.tick);
      var after := s.(staged := s.staged.(file := read.file), tick := read.tick);
      assert [] + Taken(r.chunks) == Taken(r.chunks);
      match read.outcome
      case TimedOut => EndsByAnswer(w, o, before, after, DeadlinePassed);
      case TooLarge => EndsByAnswer(w, o, before, after, BodyTooLarge);
      case Interrupted(transient) =>
        assert after.staged == Assembled(s.trace);
        if transient {
          OneMoreAccounted(w, o, deadline, before, after, BodyFailed);
        } else {
          EndsByAnswer(w, o, before, after, BodyFailed);
        }
      case Finished =>
        assert after.staged == Assembled(s.trace);
        FinishedAccounted(w, o, before, after.(cooldowns := after.cooldowns - {w.hostOf(after.url)}));
    }
  }

  lemma HopAccounted(w: World, o: Options, before: Loop, s: Loop, to: Url)
    requires Open(w, o, before, s) && Hop(w, s.trace[|before.trace|]) == Some(to) && s.staged == before.staged
    ensures Accounted(w, o, s.(url := to, redirects := s.redirects + 1))
  {
    assert !FailedTry(before.staged, s.trace[|before.trace|].answer);
    assert Assembled(s.trace) == before.staged;
  }

  lemma RedirectAccounted(w: World, o: Options, before: Loop, s: Loop, r: Response)
    requires Open(w, o, before, s) && s.trace[|before.trace|].answer == Reply(r) && IsRedirect(r.status)
    requires s.staged == before.staged
    ensures TurnAccounted(w, o, RedirectTurn(w, s, r))
  {
    var t := RedirectTurn(w, s, r);
    if t.End? {
      EndsByAnswer(w, o, before, s, t.result.error);
    } else {
      HopAccounted(w, o, before, s, t.s.url);
    }
  }

  lemma AnsweredAccounted(w: World, o: Options, deadline: real, before: Loop, s: Loop, e: Exchange)
    requires Open(w, o, before, s) && Live(o, s) && s.trace[|before.trace|].answer == e && s.staged == before.staged
    ensures TurnAccounted(w, o, Answered(w, o, deadline, s, e))
  {
    match e
    case NoResponse(transient) =>
      if transient {
        OneMoreAccounted(w, o, deadline, before, s, Unreachable);
      } else {
        EndsByAnswer(w, o, before, s, Unreachable);
      }
    case Reply(r) =>
      if IsRedirect(r.status) {
        RedirectAccounted(w, o, before, s, r);
      } else if IsRetry(r.status) {
        RefusedAccounted(w, o, deadline, before, s, r);
      } else if r.status == 200 {
        BodyAccounted(w, o, deadline, before, s.(staged := Staged([], RangeValidator(r))), r);
      } else if Continues(s.staged, r) {
        BodyAccounted(w, o, deadline, before, s, r);
      } else {
        EndsByAnswer(w, o, before, s, UnexpectedStatus);
      }
  }

  lemma AskedOpen(w: World, o: Options, s: Loop)
    requires Live(o, s) && Accounted(w, o, s)
    ensures Open(w, o, s, Asked(w, s)) && Live(o, Asked(w, s))
  {
    assert Asked(w, s).trace[..|s.trace|] == s.trace;
  }

  lemma RequestAccounted(w: World, o: Options, deadline: real, s: Loop)
    requires Live(o, s) && Accounted(w, o, s)
    ensures TurnAccounted(w, o, RequestTurn(w, o, deadline, s))
  {
    if w.clock(s.tick) < deadline {
      var asked := Asked(w, s);
      AskedOpen(w, o, s);
      AnsweredAccounted(w, o, deadline, s, asked, asked.trace[|s.trace|].answer);
    }
  }

  lemma TurnKeepsAccounts(w: World, o: Options, deadline: real, s: Loop)
    requires Live(o, s) && Accounted(w, o, s)
    ensures TurnAccounted(w, o, Turn(w, o, deadline, s))
  {
    HonouredAccounted(w, o, deadline, s);
    var c := Honoured(w, o, deadline, s);
    if c.Clear? {
      RequestAccounted(w, o, deadline, c.s);
    }
  }

  /**
   * Every download: at most five redirects and maxAttempts more requests, each the one its predecessors' answers call
   * for, each but the last a followed redirect or a failed attempt that was waited out; success is what the answers
   * come to.
   */
  lemma {:induction false} PlayKeepsAccounts(w: World, o: Options, deadline: real, s: Loop)
    requires Live(o, s) && Accounted(w, o, s)
    ensures EndAccounted(w, o, Play(w, o, deadline, s))
    decreases MAX_REDIRECTS + o.maxAttempts - s.redirects - s.failures
  {
    var t := Turn(w, o, deadline, s);
    TurnKeepsAccounts(w, o, deadline, s);
    if t.GoOn? {
      PlayKeepsAccounts(w, o, deadline, t.s);
    }
  }

  lemma StartAccounted(w: World, o: Options, cooldowns: Cooldowns)
    ensures Accounted(w, o, Start(o, cooldowns))
  {
  }
}
