/** The sliding-window limiter of the broker services, sound and exact over every sequence of calls. */
module RateLimiter {

  const MAX_CALLS_PER_MINUTE := 20
  const WINDOW := 60.0

  /** The deque after the calls that have left the window are popped from its front. */
  function Expired(recent: seq<real>, now: real): seq<real> {
    if recent != [] && now - recent[0] >= WINDOW then Expired(recent[1..], now) else recent
  }

  predicate Accepts(recent: seq<real>, now: real) { |Expired(recent, now)| < MAX_CALLS_PER_MINUTE }

  function After(recent: seq<real>, now: real): seq<real> {
    Expired(recent, now) + if Accepts(recent, now) then [now] else []
  }

  class Limiter {
    var recent: seq<real>

    constructor ()
      ensures recent == []
    {
      recent := [];
    }

    method Check(now: real) returns (accepted: bool)
      modifies this
      ensures accepted == Accepts(old(recent), now) && recent == After(old(recent), now)
    {
      while recent != [] && now - recent[0] >= WINDOW
        invariant Expired(recent, now) == Expired(old(recent), now)
        decreases |recent|
      {
        recent := recent[1..];
      }
      if |recent| >= MAX_CALLS_PER_MINUTE {
        return false;
      }
      recent := recent + [now];
      return true;
    }
  }

  // ---------------------------------------------------------------- sequences of calls

  /** The deque after a sequence of calls, oldest first. */
  function Recent(times: seq<real>): seq<real> {
    if times == [] then [] else After(Recent(times[..|times| - 1]), times[|times| - 1])
  }

  /** The calls of the sequence that were accepted. */
  function Accepted(times: seq<real>): seq<real> {
    if times == [] then []
    else
      var earlier, now := times[..|times| - 1], times[|times| - 1];
      Accepted(earlier) + if Accepts(Recent(earlier), now) then [now] else []
  }

  ghost predicate Monotone(s: seq<real>) { forall i, j | 0 <= i < j < |s| :: s[i] <= s[j] }

  /** How many of some calls lie less than a minute before now. */
  function Within(calls: seq<real>, now: real): nat {
    if calls == [] then 0 else Within(calls[..|calls| - 1], now) + if now - calls[|calls| - 1] < 60.0 then 1 else 0
  }

  lemma {:induction false} ExpiredSplits(recent: seq<real>, now: real)
    requires Monotone(recent)
    ensures var kept := Expired(recent, now);
            && |kept| <= |recent| && kept == recent[|recent| - |kept|..]
            && (forall i | 0 <= i < |recent| - |kept| :: now - recent[i] >= WINDOW)
            && (forall i | 0 <= i < |kept| :: now - kept[i] < WINDOW)
  {
    if recent != [] && now - recent[0] >= WINDOW {
      ExpiredSplits(recent[1..], now);
    }
  }

  /** The deque is the tail of the accepted calls, and what it has dropped had left the window by some time. */
  ghost predicate Tracks(accepted: seq<real>, recent: seq<real>, latest: real) {
    && |recent| <= |accepted| && recent == accepted[|accepted| - |recent|..] && |recent| <= MAX_CALLS_PER_MINUTE
    && Monotone(accepted)
    && (forall i | 0 <= i < |accepted| :: accepted[i] <= latest)
    && (forall i | 0 <= i < |accepted| - |recent| :: latest - accepted[i] >= WINDOW)
  }

  lemma TracksExpired(accepted: seq<real>, recent: seq<real>, latest: real, now: real)
    requires Tracks(accepted, recent, latest) && latest <= now
    ensures Tracks(accepted, Expired(recent, now), now)
  {
    assert Monotone(recent);
    ExpiredSplits(recent, now);
    var kept := Expired(recent, now);
    var older := |accepted| - |recent|;
    assert kept == accepted[|accepted| - |kept|..];
    forall i | 0 <= i < |accepted| - |kept| ensures now - accepted[i] >= WINDOW {
      if i >= older {
        assert accepted[i] == recent[i - older];
      }
    }
  }

  /** One more call, no earlier than the ones before it. */
  lemma TracksStep(accepted: seq<real>, recent: seq<real>, latest: real, now: real)
    requires Tracks(accepted, recent, latest) && latest <= now
    ensures Tracks(accepted + (if Accepts(recent, now) then [now] else []), After(recent, now), now)
  {
    TracksExpired(accepted, recent, latest, now);
    var kept := Expired(recent, now);
    if |kept| < MAX_CALLS_PER_MINUTE {
      assert (accepted + [now])[|accepted| - |kept|..] == kept + [now];
    } else {
      assert accepted + [] == accepted && kept + [] == kept;
    }
  }

  lemma {:induction false} TracksAlways(times: seq<real>, latest: real)
    requires Monotone(times) && (times != [] ==> times[|times| - 1] <= latest)
    ensures Accepted(times) == [] || times != []
    ensures Tracks(Accepted(times), Recent(times), if times == [] then latest else times[|times| - 1])
  {
    if times != [] {
      var earlier, now := times[..|times| - 1], times[|times| - 1];
      TracksAlways(earlier, now);
      TracksStep(Accepted(earlier), Recent(earlier), if earlier == [] then now else earlier[|earlier| - 1], now);
    }
  }

  lemma {:induction false} WithinTail(calls: seq<real>, k: nat, now: real)
    requires k <= |calls|
    requires forall i | 0 <= i < |calls| - k :: now - calls[i] >= WINDOW
    requires forall i | |calls| - k <= i < |calls| :: now - calls[i] < WINDOW
    ensures Within(calls, now) == k
  {
    if calls != [] {
      WithinTail(calls[..|calls| - 1], if k > 0 then k - 1 else 0, now);
    }
  }

  /** Exactness: a call is accepted exactly when fewer than the maximum were accepted in the window before it. */
  lemma AcceptedExactly(times: seq<real>, now: real)
    requires Monotone(times + [now])
    ensures Accepts(Recent(times), now) <==> Within(Accepted(times), now) < 20
  {
    assert Monotone(times) by {
      forall i, j | 0 <= i < j < |times| ensures times[i] <= times[j] {
        assert (times + [now])[i] <= (times + [now])[j];
      }
    }
    assert times != [] ==> (times + [now])[|times| - 1] <= (times + [now])[|times|];
    TracksAlways(times, now);
    ExpiredSplits(Recent(times), now);
    WithinTail(Accepted(times), |Expired(Recent(times), now)|, now);
  }

  /** Soundness: an accepted call and the one accepted a full quota later are at least a minute apart. */
  lemma {:induction false} AcceptedSpacing(times: seq<real>, i: nat)
    requires Monotone(times) && i + 20 < |Accepted(times)|
    ensures Accepted(times)[i + 20] - Accepted(times)[i] >= 60.0
  {
    var earlier, now := times[..|times| - 1], times[|times| - 1];
    if i + 20 < |Accepted(earlier)| {
      AcceptedSpacing(earlier, i);
    } else {
      TracksAlways(earlier, now);
      ExpiredSplits(Recent(earlier), now);
    }
  }
}
