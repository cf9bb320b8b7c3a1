/**
 * The clock of every run of the download machine: when it asks, what it waits for, why it ends, and when it succeeds.
 */
module DownloadTimes {
  import opened Wrappers
  import opened DownloadSpec
  import opened DownloadLaws

  // ---------------------------------------------------------------- asks and waits on the time line

  /** The wait that the failed attempt of request k asks for, when it is checked at a tick. */
  function AskedDelay(w: World, o: Options, trace: seq<Ask>, k: nat, tick: nat): real
    requires k < |trace| && o.backoffCap > 0
  {
    var e := trace[k].answer;
    var failures := |FailedTries(trace[..k])| + 1;
    if e.Reply? && AsksAgain(e.response.status) then
      if e.response.retryAfter.Some? then e.response.retryAfter.value as real
      else Backoff(failures, o.backoffCap, w.draw(trace[k].tick + 1))
    else Backoff(failures, o.backoffCap, w.draw(tick))
  }

  /**
   * A wait lies where it belongs: after the request it follows, before the next one, and checked against the clock
   * there.
   */
  predicate WaitTimed(w: World, o: Options, deadline: real, trace: seq<Ask>, x: Wait)
    requires o.backoffCap > 0
  {
    && x.delay <= o.maxWait && w.clock(x.tick) + x.delay < deadline && 0.0 <= x.seconds <= x.delay < x.seconds + 1.0
    && match x.cause
       case Cooled(k) =>
         k <= |trace| && (k > 0 ==> trace[k - 1].tick < x.tick) && (k < |trace| ==> x.tick < trace[k].tick)
       case Retried(k) =>
         && k < |trace| && trace[k].tick < x.tick && (k + 1 < |trace| ==> x.tick < trace[k + 1].tick)
         && x.seconds == x.delay == AskedDelay(w, o, trace, k, x.tick)
  }

  /** No request was sent after a reading past the deadline, and every reading lies behind the next one. */
  predicate AsksTimed(w: World, deadline: real, trace: seq<Ask>, tick: nat) {
    && (forall i :: 0 <= i < |trace| ==> trace[i].tick < tick && w.clock(trace[i].tick) < deadline)
    && (forall i, j :: 0 <= i < j < |trace| ==> trace[i].tick < trace[j].tick)
  }

  predicate WaitsTimed(w: World, o: Options, deadline: real, s: Loop)
    requires o.backoffCap > 0
  {
    forall i :: 0 <= i < |s.waits| ==> WaitTimed(w, o, deadline, s.trace, s.waits[i]) && s.waits[i].tick < s.tick
  }

  predicate Timed(w: World, o: Options, deadline: real, s: Loop)
    requires o.backoffCap > 0
  {
    AsksTimed(w, deadline, s.trace, s.tick) && WaitsTimed(w, o, deadline, s)
  }

  /** The clock moves on and nothing else happens that is accounted for here. */
  lemma TimedLater(w: World, o: Options, deadline: real, s: Loop, t: Loop)
    requires o.backoffCap > 0 && Timed(w, o, deadline, s) && t.trace == s.trace && t.waits == s.waits
             && s.tick <= t.tick
    ensures Timed(w, o, deadline, t)
  {
  }

  lemma WaitAdded(w: World, o: Options, deadline: real, s: Loop, x: Wait, t: Loop)
    requires o.backoffCap > 0 && Timed(w, o, deadline, s) && WaitTimed(w, o, deadline, s.trace, x)
    requires t.trace == s.trace && t.waits == s.waits + [x] && s.tick <= t.tick && x.tick < t.tick
    ensures Timed(w, o, deadline, t)
  {
  }

  lemma HonouredTimed(w: World, o: Options, deadline: real, s: Loop)
    requires o.backoffCap > 0 && Timed(w, o, deadline, s)
    ensures Timed(w, o, deadline, Honoured(w, o, deadline, s).s) && Honoured(w, o, deadline, s).s.trace == s.trace
    ensures s.tick <= Honoured(w, o, deadline, s).s.tick
  {
    var c := Honoured(w, o, deadline, s);
    if c.s.waits == s.waits {
      TimedLater(w, o, deadline, s, c.s);
    } else {
      WaitAdded(w, o, deadline, s, c.s.waits[|s.waits|], c.s);
    }
  }

  /** A wait keeps its place when another request follows. */
  lemma WaitKept(w: World, o: Options, deadline: real, trace: seq<Ask>, a: Ask, x: Wait)
    requires o.backoffCap > 0 && WaitTimed(w, o, deadline, trace, x) && x.tick < a.tick
    ensures WaitTimed(w, o, deadline, trace + [a], x)
  {
    if x.cause.Retried? {
      assert (trace + [a])[..x.cause.after] == trace[..x.cause.after];
    }
  }

  lemma AskedTimed(w: World, o: Options, deadline: real, s: Loop)
    requires o.backoffCap > 0 && Timed(w, o, deadline, s) && w.clock(s.tick) < deadline
    ensures Timed(w, o, deadline, Asked(w, s))
  {
    var asked := Asked(w, s);
    forall i | 0 <= i < |s.waits|
      ensures WaitTimed(w, o, deadline, asked.trace, s.waits[i])
    {
      WaitKept(w, o, deadline, s.trace, asked.trace[|s.trace|], s.waits[i]);
    }
  }

  // ---------------------------------------------------------------- why a run ends

  /** Where the body of an accepted response starts in the file. */
  function StartOf(s: Staged, r: Response): nat { if r.status == 200 then 0 else |s.file| }

  /** The last failed attempt was the last one allowed, or its wait did not fit when the clock was read for it. */
  predicate GivenUp(w: World, o: Options, deadline: real, s: Loop)
    requires |s.trace| > 0 && o.backoffCap > 0
  {
    || |FailedTries(s.trace)| >= o.maxAttempts
    || (s.tick > 0 &&
        var delay := AskedDelay(w, o, s.trace, |s.trace| - 1, s.tick - 1);
        delay > o.maxWait || w.clock(s.tick - 1) + delay >= deadline)
  }

  /** What an error tells of the last answer, or of the readings before it. */
  predicate Explained(w: World, o: Options, deadline: real, why: Failure, s: Loop)
    requires o.backoffCap > 0
  {
    match why
    case Cooling =>
      var host := w.hostOf(s.url);
      && host in s.cooldowns && s.tick >= 2
      && var left := s.cooldowns[host].until - w.clock(s.tick - 2);
         left > 0.0 && (Ceil(left) > o.maxWait || w.clock(s.tick - 1) + Ceil(left) >= deadline)
    case Cancelled => w.cancelled(s.tick) && s.waits != [] && s.waits[|s.waits| - 1].tick + 1 == s.tick
    case DeadlinePassed => s.tick > 0 && w.clock(s.tick - 1) >= deadline
    case _ => s.trace != [] && ExplainedByAnswer(w, o, deadline, why, s)
  }

  predicate ExplainedByAnswer(w: World, o: Options, deadline: real, why: Failure, s: Loop)
    requires o.backoffCap > 0 && s.trace != []
  {
    var before, a := s.trace[..|s.trace| - 1], s.trace[|s.trace| - 1];
    var staged := Assembled(before);
    match a.answer
    case NoResponse(transient) => why == Unreachable && (transient ==> GivenUp(w, o, deadline, s))
    case Reply(r) =>
      match why
      case NoLocation => Moves(r.status) && r.location.None?
      case TooManyRedirects => Moves(r.status) && Hops(w, before) == 5
      case BadRedirect => Moves(r.status) && r.location.Some? && w.follow(a.url, r.location.value).None?
      case StillRefused => AsksAgain(r.status) && GivenUp(w, o, deadline, s)
      case UnexpectedStatus =>
        && !Moves(r.status) && !AsksAgain(r.status) && r.status != 200
        && (r.status == 206 ==> Missing(staged).None? || r.contentRangeStart != Some(|staged.file|))
      case DeclaredTooLarge =>
        TakesBody(staged, r) && r.contentLength.Some? && StartOf(staged, r) + r.contentLength.value > o.limit
      case BodyTooLarge => TakesBody(staged, r) && |StagedAfter(staged, a.answer).file| > o.limit
      case BodyFailed =>
        TakesBody(staged, r) && Cut(r).Some? && (Cut(r).value ==> GivenUp(w, o, deadline, s))
      case EmptyContent => Done(staged, a.answer) && StagedAfter(staged, a.answer).file == []
      case _ => false
  }

  predicate TurnTimed(w: World, o: Options, deadline: real, t: Turned)
    requires o.backoffCap > 0
  {
    Timed(w, o, deadline, t.s) && (t.End? && t.result.Err? ==> Explained(w, o, deadline, t.result.error, t.s))
  }

  /** The error that giving up on this answer raises. */
  predicate GivesUpAs(staged: Staged, e: Exchange, why: Failure) {
    match e
    case NoResponse(transient) => transient && why == Unreachable
    case Reply(r) =>
      (AsksAgain(r.status) && why == StillRefused)
        || (TakesBody(staged, r) && Cut(r) == Some(true) && why == BodyFailed)
  }

  lemma GivenUpExplains(w: World, o: Options, deadline: real, before: Loop, s: Loop, why: Failure)
    requires Grown(w, o, before, s.trace) && GivesUpAs(before.staged, s.trace[|before.trace|].answer, why)
    requires GivenUp(w, o, deadline, s)
    ensures Explained(w, o, deadline, why, s)
  {
  }

  lemma GivesUp(w: World, o: Options, deadline: real, before: Loop, s: Loop, f: Loop, why: Failure)
    requires Grown(w, o, before, s.trace) && Timed(w, o, deadline, s)
    requires GivesUpAs(before.staged, s.trace[|before.trace|].answer, why)
    requires f.trace == s.trace && f.waits == s.waits && s.tick <= f.tick && GivenUp(w, o, deadline, f)
    ensures TurnTimed(w, o, deadline, Fail(why, f))
  {
    TimedLater(w, o, deadline, s, f);
    GivenUpExplains(w, o, deadline, before, f, why);
  }

  lemma RetryWaitsTimed(w: World, o: Options, deadline: real, before: Loop, s: Loop, wait: real, why: Failure)
    requires Grown(w, o, before, s.trace) && Timed(w, o, deadline, s) && s.redirects <= MAX_REDIRECTS
    requires wait == AskedDelay(w, o, s.trace, |before.trace|, s.tick) && Fits(wait, o, w.clock(s.tick), deadline)
    requires s.failures < o.maxAttempts
    ensures TurnTimed(w, o, deadline, Retry(w, o, deadline, s, wait, why))
  {
    var x := Wait(Retried(|s.trace| - 1), s.tick, wait, wait);
    var waited := s.(tick := s.tick + 1, waits := s.waits + [x]);
    WaitAdded(w, o, deadline, s, x, waited);
    var t := Retry(w, o, deadline, s, wait, why);
    assert t == if wait > 0.0 && w.cancelled(waited.tick) then Fail(Cancelled, waited) else GoOn(waited);
  }

  lemma LastAttemptTimed(w: World, o: Options, deadline: real, before: Loop, s: Loop, wait: real, why: Failure)
    requires Grown(w, o, before, s.trace) && Timed(w, o, deadline, s) && s.redirects <= MAX_REDIRECTS
    requires s.failures == |FailedTries(s.trace)| && s.failures >= o.maxAttempts
    requires GivesUpAs(before.staged, s.trace[|before.trace|].answer, why)
    ensures TurnTimed(w, o, deadline, Retry(w, o, deadline, s, wait, why))
  {
    assert GivenUp(w, o, deadline, s);
    GivesUp(w, o, deadline, before, s, s, why);
    assert Retry(w, o, deadline, s, wait, why) == Fail(why, s);
  }

  lemma WaitTooLong(w: World, o: Options, deadline: real, before: Loop, s: Loop, wait: real)
    requires Grown(w, o, before, s.trace) && !Fits(wait, o, w.clock(s.tick), deadline)
    requires wait == AskedDelay(w, o, s.trace, |before.trace|, s.tick)
    ensures GivenUp(w, o, deadline, s.(tick := s.tick + 1))
  {
  }

  lemma WaitTooLongTimed(w: World, o: Options, deadline: real, before: Loop, s: Loop, wait: real, why: Failure)
    requires Grown(w, o, before, s.trace) && Timed(w, o, deadline, s) && s.redirects <= MAX_REDIRECTS
    requires s.failures < o.maxAttempts && !Fits(wait, o, w.clock(s.tick), deadline)
    requires GivesUpAs(before.staged, s.trace[|before.trace|].answer, why)
    requires wait == AskedDelay(w, o, s.trace, |before.trace|, s.tick)
    ensures TurnTimed(w, o, deadline, Retry(w, o, deadline, s, wait, why))
  {
    var late := s.(tick := s.tick + 1);
    WaitTooLong(w, o, deadline, before, s, wait);
    GivesUp(w, o, deadline, before, s, late, why);
    assert Retry(w, o, deadline, s, wait, why) == Fail(why, late);
  }

  /** The failed attempt of an open request, whose wait is the one it asks for. */
  lemma RetryTimed(w: World, o: Options, deadline: real, before: Loop, s: Loop, wait: real, why: Failure)
    requires Grown(w, o, before, s.trace) && Timed(w, o, deadline, s) && s.redirects <= MAX_REDIRECTS
    requires s.failures == |FailedTries(s.trace)|
    requires GivesUpAs(before.staged, s.trace[|before.trace|].answer, why)
    requires wait == AskedDelay(w, o, s.trace, |before.trace|, s.tick)
    ensures TurnTimed(w, o, deadline, Retry(w, o, deadline, s, wait, why))
  {
    if s.failures >= o.maxAttempts {
      LastAttemptTimed(w, o, deadline, before, s, wait, why);
    } else if !Fits(wait, o, w.clock(s.tick), deadline) {
      WaitTooLongTimed(w, o, deadline, before, s, wait, why);
    } else {
      RetryWaitsTimed(w, o, deadline, before, s, wait, why);
    }
  }

  lemma OneMoreTimed(w: World, o: Options, deadline: real, before: Loop, s: Loop, why: Failure)
    requires Grown(w, o, before, s.trace) && Timed(w, o, deadline, s) && Live(o, s)
    requires s.failures == before.failures && GivesUpAs(before.staged, s.trace[|before.trace|].answer, why)
    requires why == Unreachable || why == BodyFailed
    ensures TurnTimed(w, o, deadline, OneMoreFailure(w, o, deadline, s, why))
  {
    var failed := s.(failures := s.failures + 1);
    assert FailedTry(before.staged, s.trace[|before.trace|].answer);
    assert |FailedTries(s.trace)| == failed.failures;
    TimedLater(w, o, deadline, s, failed);
    RetryTimed(w, o, deadline, before, failed, Backoff(failed.failures, o.backoffCap, w.draw(s.tick)), why);
  }

  /** The wait a refusal asks for, in terms of the requests so far. */
  lemma RefusalAsks(w: World, o: Options, before: Loop, s: Loop, r: Response)
    requires Open(w, o, before, s) && Live(o, s) && s.trace[|before.trace|].answer == Reply(r) && IsRetry(r.status)
    requires s.tick == s.trace[|before.trace|].tick + 1
    ensures RefusalWait(w, o, s, r) == AskedDelay(w, o, s.trace, |before.trace|, s.tick)
  {
  }

  lemma RefusedTimed(w: World, o: Options, deadline: real, before: Loop, s: Loop, r: Response)
    requires Open(w, o, before, s) && Live(o, s) && Timed(w, o, deadline, s)
    requires s.trace[|before.trace|].answer == Reply(r) && IsRetry(r.status)
             && s.tick == s.trace[|before.trace|].tick + 1
    ensures TurnTimed(w, o, deadline, RefusedTurn(w, o, deadline, s, r))
  {
    var wait := RefusalWait(w, o, s, r);
    var slowed := Slowed(w, s, r, wait);
    RefusalIsFailedTry(w, o, before, s.trace, r);
    RefusalAsks(w, o, before, s, r);
    assert |FailedTries(s.trace)| == slowed.failures;
    TimedLater(w, o, deadline, s, slowed);
    RetryTimed(w, o, deadline, before, slowed, wait, StillRefused);
  }

  /** The errors that an accepted body itself leads to. */
  predicate ByBody(o: Options, staged: Staged, r: Response, why: Failure) {
    match why
    case DeclaredTooLarge => r.contentLength.Some? && StartOf(staged, r) + r.contentLength.value > o.limit
    case BodyTooLarge => |StagedAfter(staged, Reply(r)).file| > o.limit
    case BodyFailed => Cut(r) == Some(false)
    case EmptyContent => Cut(r) == None && StagedAfter(staged, Reply(r)).file == []
    case _ => false
  }

  lemma BodyExplained(w: World, o: Options, deadline: real, before: Loop, s: Loop, r: Response, why: Failure)
    requires Grown(w, o, before, s.trace) && s.trace[|before.trace|].answer == Reply(r)
    requires TakesBody(before.staged, r) && ByBody(o, before.staged, r, why) && o.backoffCap > 0
    ensures Explained(w, o, deadline, why, s)
  {
  }

  lemma FailTimed(w: World, o: Options, deadline: real, s: Loop, f: Loop, why: Failure)
    requires o.backoffCap > 0 && Timed(w, o, deadline, s) && Explained(w, o, deadline, why, f)
    requires f.trace == s.trace && f.waits == s.waits && s.tick <= f.tick
    ensures TurnTimed(w, o, deadline, Fail(why, f))
  {
    TimedLater(w, o, deadline, s, f);
  }

  lemma BodyFails(w: World, o: Options, deadline: real, before: Loop, s: Loop, f: Loop, r: Response, why: Failure)
    requires Grown(w, o, before, s.trace) && Live(o, s) && Timed(w, o, deadline, s)
    requires s.trace[|before.trace|].answer == Reply(r) && TakesBody(before.staged, r)
             && ByBody(o, before.staged, r, why)
    requires f.trace == s.trace && f.waits == s.waits && s.tick <= f.tick
    ensures TurnTimed(w, o, deadline, Fail(why, f))
  {
    BodyExplained(w, o, deadline, before, f, r, why);
    FailTimed(w, o, deadline, s, f, why);
  }

  /** How reading the body onto the file went, in terms of the response. */
  lemma ReadExplains(o: Options, deadline: real, clock: nat -> real, staged: Staged, file: seq<byte>, r: Response,
                     tick: nat)
    requires file == (if r.status == 200 then [] else staged.file) && |file| <= o.limit && TakesBody(staged, r)
    ensures var read := ReadFrom(r, 0, file, 0, o.limit, deadline, clock, tick);
            && tick < read.tick
            && (read.outcome.TimedOut? ==> clock(read.tick - 1) >= deadline)
            && (read.outcome.TooLarge? ==> ByBody(o, staged, r, BodyTooLarge))
            && (read.outcome == Interrupted(false) ==> ByBody(o, staged, r, BodyFailed))
            && (read.outcome == Interrupted(true) ==> Cut(r) == Some(true))
            && (read.outcome.Finished? && read.file == [] ==> ByBody(o, staged, r, EmptyContent))
  {
    ReadsWhole(r, file, o.limit, deadline, clock, tick);
    assert r.chunks[0..] == r.chunks;
    ReadingStops(r, 0, file, 0, o.limit, deadline, clock, tick);
    assert [] + Taken(r.chunks) == Taken(r.chunks);
  }

  lemma BodyEndsTimed(w: World, o: Options, deadline: real, before: Loop, s: Loop, r: Response, outcome: Streamed)
    requires Open(w, o, before, s) && Live(o, s) && Timed(w, o, deadline, s)
    requires s.trace[|before.trace|].answer == Reply(r) && TakesBody(before.staged, r)
    requires outcome.TimedOut? ==> s.tick > 0 && w.clock(s.tick - 1) >= deadline
    requires outcome.TooLarge? ==> ByBody(o, before.staged, r, BodyTooLarge)
    requires outcome == Interrupted(false) ==> ByBody(o, before.staged, r, BodyFailed)
    requires outcome == Interrupted(true) ==> Cut(r) == Some(true)
    requires outcome.Finished? && s.staged.file == [] ==> ByBody(o, before.staged, r, EmptyContent)
    ensures TurnTimed(w, o, deadline, BodyEnds(w, o, deadline, s, outcome))
  {
    match outcome
    case TimedOut => FailTimed(w, o, deadline, s, s, DeadlinePassed);
    case TooLarge => BodyFails(w, o, deadline, before, s, s, r, BodyTooLarge);
    case Interrupted(transient) =>
      if transient {
        OneMoreTimed(w, o, deadline, before, s, BodyFailed);
      } else {
        BodyFails(w, o, deadline, before, s, s, r, BodyFailed);
      }
    case Finished =>
      var done := s.(cooldowns := s.cooldowns - {w.hostOf(s.url)});
      if s.staged.file == [] {
        BodyFails(w, o, deadline, before, s, done, r, EmptyContent);
      } else {
        TimedLater(w, o, deadline, s, done);
      }
  }

  lemma BodyReadTimed(w: World, o: Options, deadline: real, before: Loop, s: Loop, r: Response)
    requires Open(w, o, before, s) && Live(o, s) && Timed(w, o, deadline, s)
    requires s.trace[|before.trace|].answer == Reply(r) && TakesBody(before.staged, r)
    requires s.staged.file == (if r.status == 200 then [] else before.staged.file) && |s.staged.file| <= o.limit
    ensures var read := ReadFrom(r, 0, s.staged.file, 0, o.limit, deadline, w.clock, s.tick);
            var after := s.(staged := s.staged.(file := read.file), tick := read.tick);
            TurnTimed(w, o, deadline, BodyEnds(w, o, deadline, after, read.outcome))
  {
    var read := ReadFrom(r, 0, s.staged.file, 0, o.limit, deadline, w.clock, s.tick);
    var after := s.(staged := s.staged.(file := read.file), tick := read.tick);
    ReadExplains(o, deadline, w.clock, before.staged, s.staged.file, r, s.tick);
    TimedLater(w, o, deadline, s, after);
    BodyEndsTimed(w, o, deadline, before, after, r, read.outcome);
  }

  lemma BodyTimed(w: World, o: Options, deadline: real, before: Loop, s: Loop, r: Response)
    requires Open(w, o, before, s) && Live(o, s) && Timed(w, o, deadline, s)
    requires s.trace[|before.trace|].answer == Reply(r) && TakesBody(before.staged, r)
    requires s.staged.file == (if r.status == 200 then [] else before.staged.file) && |s.staged.file| <= o.limit
    ensures TurnTimed(w, o, deadline, BodyTurn(w, o, deadline, s, r))
  {
    if r.contentLength.Some? && |s.staged.file| + r.contentLength.value > o.limit {
      BodyFails(w, o, deadline, before, s, s, r, DeclaredTooLarge);
    } else {
      BodyReadTimed(w, o, deadline, before, s, r);
    }
  }

  lemma RedirectExplained(w: World, o: Options, deadline: real, before: Loop, s: Loop, r: Response)
    requires Open(w, o, before, s) && Live(o, s) && s.trace[|before.trace|].answer == Reply(r) && IsRedirect(r.status)
    requires RedirectTurn(w, s, r).End?
    ensures Explained(w, o, deadline, RedirectTurn(w, s, r).result.error, s)
  {
  }

  lemma RedirectTimed(w: World, o: Options, deadline: real, before: Loop, s: Loop, r: Response)
    requires Open(w, o, before, s) && Live(o, s) && Timed(w, o, deadline, s)
    requires s.trace[|before.trace|].answer == Reply(r) && IsRedirect(r.status)
    ensures TurnTimed(w, o, deadline, RedirectTurn(w, s, r))
  {
    var t := RedirectTurn(w, s, r);
    if t.End? {
      RedirectExplained(w, o, deadline, before, s, r);
      FailTimed(w, o, deadline, s, s, t.result.error);
    } else {
      TimedLater(w, o, deadline, s, t.s);
    }
  }

  lemma AnsweredTimed(w: World, o: Options, deadline: real, before: Loop, s: Loop, e: Exchange)
    requires Open(w, o, before, s) && Live(o, s) && Timed(w, o, deadline, s) && s.staged == before.staged
    requires s.trace[|before.trace|].answer == e && s.tick == s.trace[|before.trace|].tick + 1
    ensures TurnTimed(w, o, deadline, Answered(w, o, deadline, s, e))
  {
    match e
    case NoResponse(transient) =>
      if transient {
        OneMoreTimed(w, o, deadline, before, s, Unreachable);
      }
    case Reply(r) =>
      if IsRedirect(r.status) {
        RedirectTimed(w, o, deadline, before, s, r);
      } else if IsRetry(r.status) {
        RefusedTimed(w, o, deadline, before, s, r);
      } else if r.status == 200 {
        var renewed := s.(staged := Staged([], RangeValidator(r)));
        TimedLater(w, o, deadline, s, renewed);
        BodyTimed(w, o, deadline, before, renewed, r);
      } else if Continues(s.staged, r) {
        BodyTimed(w, o, deadline, before, s, r);
      }
  }

  /** The deadline has passed before a request: the run ends with the reading that says so. */
  lemma LateTimed(w: World, o: Options, deadline: real, s: Loop)
    requires Live(o, s) && Timed(w, o, deadline, s) && w.clock(s.tick) >= deadline
    ensures TurnTimed(w, o, deadline, RequestTurn(w, o, deadline, s))
  {
    TimedLater(w, o, deadline, s, s.(tick := s.tick + 1));
  }

  lemma RequestTimed(w: World, o: Options, deadline: real, s: Loop)
    requires Live(o, s) && Accounted(w, o, s) && Timed(w, o, deadline, s)
    ensures TurnTimed(w, o, deadline, RequestTurn(w, o, deadline, s))
  {
    if w.clock(s.tick) < deadline {
      var asked := Asked(w, s);
      AskedOpen(w, o, s);
      AskedTimed(w, o, deadline, s);
      AnsweredTimed(w, o, deadline, s, asked, asked.trace[|s.trace|].answer);
    } else {
      LateTimed(w, o, deadline, s);
    }
  }

  lemma TurnIsTimed(w: World, o: Options, deadline: real, s: Loop)
    requires Live(o, s) && Accounted(w, o, s) && Timed(w, o, deadline, s)
    ensures TurnTimed(w, o, deadline, Turn(w, o, deadline, s))
  {
    HonouredTimed(w, o, deadline, s);
    HonouredAccounted(w, o, deadline, s);
    var c := Honoured(w, o, deadline, s);
    if c.Clear? {
      RequestTimed(w, o, deadline, c.s);
    } else {
      StopExplained(w, o, deadline, s);
    }
  }

  lemma StopExplained(w: World, o: Options, deadline: real, s: Loop)
    requires o.backoffCap > 0 && Honoured(w, o, deadline, s).Stop?
    ensures Explained(w, o, deadline, Honoured(w, o, deadline, s).why, Honoured(w, o, deadline, s).s)
  {
  }

  /**
   * The clock of every download. Every request was sent after a reading before the deadline; every wait lies between
   * the requests it belongs to, lasted what was asked for, and was checked against the clock there to be within the
   * maximum and to end before the deadline; every error has its reason in the last answer or in the readings just
   * before it.
   */
  lemma {:induction false} PlayIsTimed(w: World, o: Options, deadline: real, s: Loop)
    requires Live(o, s) && Accounted(w, o, s) && Timed(w, o, deadline, s)
    ensures TurnTimed(w, o, deadline, Play(w, o, deadline, s))
    decreases MAX_REDIRECTS + o.maxAttempts - s.redirects - s.failures
  {
    var t := Turn(w, o, deadline, s);
    TurnIsTimed(w, o, deadline, s);
    TurnKeepsAccounts(w, o, deadline, s);
    if t.GoOn? {
      PlayIsTimed(w, o, deadline, t.s);
    }
  }

  lemma StartTimed(w: World, o: Options, deadline: real, cooldowns: Cooldowns)
    requires o.backoffCap > 0
    ensures Timed(w, o, deadline, Start(o, cooldowns))
  {
  }

  /** A clock that never goes back: once a reading is past the deadline, nothing is asked or waited for any more. */
  lemma NothingAfterTheDeadline(w: World, o: Options, deadline: real, s: Loop, t: nat)
    requires o.backoffCap > 0 && Timed(w, o, deadline, s)
    requires (forall a: nat, b: nat :: a <= b ==> w.clock(a) <= w.clock(b)) && w.clock(t) >= deadline
    ensures forall i :: 0 <= i < |s.trace| ==> s.trace[i].tick < t
    ensures forall i :: 0 <= i < |s.waits| ==> s.waits[i].tick < t
  {
    forall i | 0 <= i < |s.trace| ensures s.trace[i].tick < t {
      assert w.clock(s.trace[i].tick) < deadline;
    }
    forall i | 0 <= i < |s.waits| ensures s.waits[i].tick < t {
      assert WaitTimed(w, o, deadline, s.trace, s.waits[i]);
    }
  }
}
