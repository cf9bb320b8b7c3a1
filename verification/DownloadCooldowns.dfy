/** How every download treats hosts that asked to slow down, and callers that cancel. */
module DownloadCooldowns {
  import opened Wrappers
  import opened DownloadSpec
  import opened DownloadLaws
  import opened DownloadTimes
  import opened DownloadOutcomes

  // ---------------------------------------------------------------- demands

  /** An answer that asks its host's clients to slow down. */
  predicate AsksToSlow(a: Ask) {
    a.answer.Reply? && (a.answer.response.status == 429 || a.answer.response.status == 503)
  }

  /**
   * Until when the answer to a request asks to wait: as long as it says, from the reading after it, at most a quarter
   * hour.
   */
  function AskedUntil(w: World, o: Options, trace: seq<Ask>, i: nat): real
    requires i < |trace| && o.backoffCap > 0
  {
    var delay := AskedDelay(w, o, trace, i, trace[i].tick + 1);
    w.clock(trace[i].tick + 1) + if delay <= 900.0 then delay else 900.0
  }

  /**
   * A host is not to be asked before a time: because of a cooldown that was found, or because of the answer to a
   * request.
   */
  predicate Demands(w: World, o: Options, found: Cooldowns, trace: seq<Ask>, i: int, host: Host, until: real)
    requires o.backoffCap > 0
  {
    || (i == -1 && host in found && until == found[host].until)
    || (0 <= i < |trace| && AsksToSlow(trace[i]) && host == w.hostOf(trace[i].url)
        && until == AskedUntil(w, o, trace, i))
  }

  function Since(trace: seq<Ask>, i: int): nat
    requires i < |trace|
  {
    if i < 0 then 0 else trace[i].tick + 1
  }

  lemma DemandsKept(w: World, o: Options, found: Cooldowns, trace: seq<Ask>, more: seq<Ask>, i: int, host: Host,
                    until: real)
    requires o.backoffCap > 0 && trace <= more && i < |trace|
    ensures Demands(w, o, found, trace, i, host, until) <==> Demands(w, o, found, more, i, host, until)
  {
    if i >= 0 {
      assert more[..i] == trace[..i] && more[i] == trace[i];
    }
  }

  /** Every cooldown was demanded. */
  ghost predicate Earned(w: World, o: Options, found: Cooldowns, s: Loop)
    requires o.backoffCap > 0
  {
    forall host :: host in s.cooldowns ==> exists i :: Demands(w, o, found, s.trace, i, host, s.cooldowns[host].until)
  }

  /** A reading of the clock, at some tick or later and before another, that is past a time. */
  ghost predicate Passed(w: World, from: nat, before: nat, until: real) {
    exists t: nat :: from <= t < before && w.clock(t) >= until
  }

  /** A demand that still stands in the cooldowns, or that the clock has passed. */
  ghost predicate Standing(w: World, s: Loop, from: nat, host: Host, until: real) {
    (host in s.cooldowns && until <= s.cooldowns[host].until) || Passed(w, from, s.tick, until)
  }

  /** No demand is dropped or shortened before the clock has passed it, unless its host delivered a body to the end. */
  ghost predicate Kept(w: World, o: Options, found: Cooldowns, s: Loop, n: int, delivered: set<Host>)
    requires o.backoffCap > 0
  {
    forall i, host, until ::
      Demands(w, o, found, s.trace, i, host, until) && i < n && i < |s.trace| && host !in delivered ==>
        Standing(w, s, Since(s.trace, i), host, until)
  }

  /** A wait before request k that lasted to a time. */
  ghost predicate WaitedOutTo(w: World, waits: seq<Wait>, k: nat, from: nat, before: nat, until: real) {
    exists x :: x in waits && x.cause == Cooled(k) && from < x.tick < before && w.clock(x.tick - 1) + x.seconds >= until
  }

  ghost predicate Obeyed(w: World, s: Loop, k: nat, from: nat, before: nat, until: real) {
    Passed(w, from, before, until) || WaitedOutTo(w, s.waits, k, from, before, until)
  }

  /** Every request was made when all that was demanded of it before had passed, or was waited out. */
  ghost predicate AllObeyed(w: World, o: Options, found: Cooldowns, s: Loop)
    requires o.backoffCap > 0
  {
    forall k: nat, i, until ::
      k < |s.trace| && i < k && Demands(w, o, found, s.trace, i, w.hostOf(s.trace[k].url), until) ==>
        Obeyed(w, s, k, Since(s.trace, i), s.trace[k].tick + 1, until)
  }

  ghost predicate SomeDemand(w: World, o: Options, found: Cooldowns, trace: seq<Ask>, until: real)
    requires o.backoffCap > 0
  {
    exists i, host :: Demands(w, o, found, trace, i, host, until)
  }

  /** A wait before a request lasts what is left of a demand. */
  ghost predicate Owed(w: World, o: Options, found: Cooldowns, s: Loop)
    requires o.backoffCap > 0
  {
    forall x :: x in s.waits && x.cause.Cooled? ==>
      x.tick > 0 && SomeDemand(w, o, found, s.trace, w.clock(x.tick - 1) + x.seconds)
  }

  /** No wait of some length was started by a caller that had cancelled. */
  predicate Awake(w: World, waits: seq<Wait>) { forall x :: x in waits && x.seconds > 0.0 ==> !w.cancelled(x.tick + 1) }

  predicate TicksPast(s: Loop) { forall i :: 0 <= i < |s.trace| ==> s.trace[i].tick < s.tick }

  ghost predicate Rules(w: World, o: Options, found: Cooldowns, s: Loop, n: int, delivered: set<Host>)
    requires o.backoffCap > 0
  {
    && TicksPast(s) && Earned(w, o, found, s) && Kept(w, o, found, s, n, delivered) && AllObeyed(w, o, found, s)
    && Owed(w, o, found, s)
  }

  /** The host whose body was delivered to its end, if any: its cooldown is lifted. */
  function Delivered(w: World, t: Turned): set<Host> {
    if t.End? && (t.result.Ok? || t.result == Err(EmptyContent)) then {w.hostOf(t.s.url)} else {}
  }

  ghost predicate Ruled(w: World, o: Options, found: Cooldowns, s: Loop)
    requires o.backoffCap > 0
  {
    Rules(w, o, found, s, |s.trace|, {})
  }

  ghost predicate TurnRuled(w: World, o: Options, found: Cooldowns, t: Turned)
    requires o.backoffCap > 0
  {
    && Rules(w, o, found, t.s, |t.s.trace|, Delivered(w, t))
    && forall host :: host in Delivered(w, t) ==> host !in t.s.cooldowns
  }

  // ---------------------------------------------------------------- time goes by

  lemma PassedLater(w: World, from: nat, before: nat, later: nat, until: real)
    requires Passed(w, from, before, until) && before <= later
    ensures Passed(w, from, later, until)
  {
    var t: nat :| from <= t < before && w.clock(t) >= until;
    assert from <= t < later;
  }

  /** Nothing changes that the rules speak of but the time and, perhaps, one more wait after a failed attempt. */
  predicate Resting(s: Loop, t: Loop) {
    && t.trace == s.trace && t.cooldowns == s.cooldowns && s.tick <= t.tick
    && (t.waits == s.waits || (|t.waits| == |s.waits| + 1 && t.waits[..|s.waits|] == s.waits
                               && t.waits[|s.waits|].cause.Retried?))
  }

  lemma RestingWaits(s: Loop, t: Loop, x: Wait)
    requires Resting(s, t)
    ensures x in s.waits ==> x in t.waits
    ensures x in t.waits && x.cause.Cooled? ==> x in s.waits
  {
    if t.waits != s.waits {
      assert t.waits == s.waits + [t.waits[|s.waits|]];
    }
  }

  lemma RestingObeyed(w: World, s: Loop, t: Loop, k: nat, from: nat, before: nat, until: real)
    requires Resting(s, t) && Obeyed(w, s, k, from, before, until)
    ensures Obeyed(w, t, k, from, before, until)
  {
    if WaitedOutTo(w, s.waits, k, from, before, until) {
      var x :| x in s.waits && x.cause == Cooled(k) && from < x.tick < before
        && w.clock(x.tick - 1) + x.seconds >= until;
      RestingWaits(s, t, x);
    }
  }

  lemma RestingRules(w: World, o: Options, found: Cooldowns, s: Loop, t: Loop, n: int, delivered: set<Host>)
    requires o.backoffCap > 0 && Rules(w, o, found, s, n, delivered) && Resting(s, t)
    ensures Rules(w, o, found, t, n, delivered)
  {
    forall i, host, until |
      Demands(w, o, found, t.trace, i, host, until) && i < n && i < |t.trace| && host !in delivered
      ensures Standing(w, t, Since(t.trace, i), host, until)
    {
      assert Standing(w, s, Since(s.trace, i), host, until);
      if Passed(w, Since(s.trace, i), s.tick, until) {
        PassedLater(w, Since(s.trace, i), s.tick, t.tick, until);
      }
    }
    forall k: nat, i, until |
      k < |t.trace| && i < k && Demands(w, o, found, t.trace, i, w.hostOf(t.trace[k].url), until)
      ensures Obeyed(w, t, k, Since(t.trace, i), t.trace[k].tick + 1, until)
    {
      RestingObeyed(w, s, t, k, Since(s.trace, i), s.trace[k].tick + 1, until);
    }
    forall x | x in t.waits && x.cause.Cooled?
      ensures x.tick > 0 && SomeDemand(w, o, found, t.trace, w.clock(x.tick - 1) + x.seconds)
    {
      RestingWaits(s, t, x);
    }
  }

  // ---------------------------------------------------------------- a cooldown is honoured

  /** Whatever is demanded of a host has passed, or was waited out before the next request. */
  ghost predicate Cleared(w: World, o: Options, found: Cooldowns, s: Loop, host: Host)
    requires o.backoffCap > 0
  {
    forall i, until ::
      Demands(w, o, found, s.trace, i, host, until) && i < |s.trace| ==>
        Obeyed(w, s, |s.trace|, Since(s.trace, i), s.tick, until)
  }

  /** Once a cooldown is over, everything that was demanded of its host has passed. */
  lemma OverPassed(w: World, o: Options, found: Cooldowns, s: Loop, host: Host, i: int, until: real)
    requires o.backoffCap > 0 && Ruled(w, o, found, s) && host in s.cooldowns
             && s.cooldowns[host].until <= w.clock(s.tick)
    requires Demands(w, o, found, s.trace, i, host, until) && i < |s.trace|
    ensures Passed(w, Since(s.trace, i), s.tick + 1, until)
  {
    assert Standing(w, s, Since(s.trace, i), host, until);
    if Passed(w, Since(s.trace, i), s.tick, until) {
      PassedLater(w, Since(s.trace, i), s.tick, s.tick + 1, until);
    } else {
      assert Since(s.trace, i) <= s.tick < s.tick + 1;
    }
  }

  lemma DroppedKept(w: World, o: Options, found: Cooldowns, s: Loop, t: Loop, host: Host)
    requires o.backoffCap > 0 && Ruled(w, o, found, s) && host in s.cooldowns
             && s.cooldowns[host].until <= w.clock(s.tick)
    requires t == s.(tick := s.tick + 1, cooldowns := s.cooldowns - {host})
    ensures Kept(w, o, found, t, |t.trace|, {})
  {
    forall i, h, until | Demands(w, o, found, t.trace, i, h, until) && i < |t.trace|
      ensures Standing(w, t, Since(t.trace, i), h, until)
    {
      if h == host {
        OverPassed(w, o, found, s, host, i, until);
      } else {
        assert Standing(w, s, Since(s.trace, i), h, until);
        if Passed(w, Since(s.trace, i), s.tick, until) {
          PassedLater(w, Since(s.trace, i), s.tick, t.tick, until);
        }
      }
    }
  }

  /** A cooldown that is over is dropped, and the rules stay. */
  lemma DroppedRules(w: World, o: Options, found: Cooldowns, s: Loop, t: Loop, host: Host)
    requires o.backoffCap > 0 && Ruled(w, o, found, s) && host in s.cooldowns
             && s.cooldowns[host].until <= w.clock(s.tick)
    requires t == s.(tick := s.tick + 1, cooldowns := s.cooldowns - {host})
    ensures Ruled(w, o, found, t) && Cleared(w, o, found, t, host)
  {
    var later := s.(tick := s.tick + 1);
    RestingRules(w, o, found, s, later, |s.trace|, {});
    DroppedKept(w, o, found, s, t, host);
    SameWaits(w, o, found, later, t);
    forall i, until | Demands(w, o, found, t.trace, i, host, until) && i < |t.trace|
      ensures Obeyed(w, t, |t.trace|, Since(t.trace, i), t.tick, until)
    {
      OverPassed(w, o, found, s, host, i, until);
    }
  }

  /** What was obeyed and owed does not depend on the cooldowns. */
  lemma SameWaits(w: World, o: Options, found: Cooldowns, s: Loop, t: Loop)
    requires o.backoffCap > 0 && AllObeyed(w, o, found, s) && Owed(w, o, found, s)
    requires t.trace == s.trace && t.waits == s.waits
    ensures AllObeyed(w, o, found, t) && Owed(w, o, found, t)
  {
    forall k: nat, i, until |
      k < |t.trace| && i < k && Demands(w, o, found, t.trace, i, w.hostOf(t.trace[k].url), until)
      ensures Obeyed(w, t, k, Since(t.trace, i), t.trace[k].tick + 1, until)
    {
      assert Obeyed(w, s, k, Since(s.trace, i), s.trace[k].tick + 1, until);
    }
  }

  /** A host without a cooldown may be asked: what it demanded has passed. */
  lemma NothingStands(w: World, o: Options, found: Cooldowns, s: Loop, host: Host)
    requires o.backoffCap > 0 && Ruled(w, o, found, s) && host !in s.cooldowns
    ensures Cleared(w, o, found, s, host)
  {
    forall i, until | Demands(w, o, found, s.trace, i, host, until) && i < |s.trace|
      ensures Obeyed(w, s, |s.trace|, Since(s.trace, i), s.tick, until)
    {
      assert Standing(w, s, Since(s.trace, i), host, until);
    }
  }

  lemma MoreWaitsObeyed(w: World, s: Loop, x: Wait, k: nat, from: nat, before: nat, until: real)
    requires Obeyed(w, s, k, from, before, until)
    ensures Obeyed(w, s.(waits := s.waits + [x]), k, from, before, until)
  {
    if WaitedOutTo(w, s.waits, k, from, before, until) {
      var y :| y in s.waits && y.cause == Cooled(k) && from < y.tick < before
        && w.clock(y.tick - 1) + y.seconds >= until;
      assert y in s.waits + [x];
    }
  }

  lemma WaitedObeyed(w: World, o: Options, found: Cooldowns, s: Loop, x: Wait)
    requires o.backoffCap > 0 && AllObeyed(w, o, found, s)
    ensures AllObeyed(w, o, found, s.(waits := s.waits + [x]))
  {
    var t := s.(waits := s.waits + [x]);
    forall k: nat, i, until |
      k < |t.trace| && i < k && Demands(w, o, found, t.trace, i, w.hostOf(t.trace[k].url), until)
      ensures Obeyed(w, t, k, Since(t.trace, i), t.trace[k].tick + 1, until)
    {
      MoreWaitsObeyed(w, s, x, k, Since(t.trace, i), t.trace[k].tick + 1, until);
    }
  }

  lemma WaitedOwed(w: World, o: Options, found: Cooldowns, s: Loop, host: Host, x: Wait)
    requires o.backoffCap > 0 && Earned(w, o, found, s) && Owed(w, o, found, s) && host in s.cooldowns && x.tick > 0
    requires w.clock(x.tick - 1) + x.seconds == s.cooldowns[host].until
    ensures Owed(w, o, found, s.(waits := s.waits + [x]))
  {
    EarnedSome(w, o, found, s, host);
    forall y | y in s.waits + [x] && y.cause.Cooled?
      ensures y.tick > 0 && SomeDemand(w, o, found, s.trace, w.clock(y.tick - 1) + y.seconds)
    {
      assert y in s.waits || y == x;
    }
  }

  lemma EarnedSome(w: World, o: Options, found: Cooldowns, s: Loop, host: Host)
    requires o.backoffCap > 0 && Earned(w, o, found, s) && host in s.cooldowns
    ensures SomeDemand(w, o, found, s.trace, s.cooldowns[host].until)
  {
    var i :| Demands(w, o, found, s.trace, i, host, s.cooldowns[host].until);
  }

  lemma WaitedCleared(w: World, o: Options, found: Cooldowns, s: Loop, t: Loop, host: Host, x: Wait)
    requires o.backoffCap > 0 && Ruled(w, o, found, s) && host in s.cooldowns
    requires x.cause == Cooled(|s.trace|) && x.tick == s.tick + 1
             && x.seconds == s.cooldowns[host].until - w.clock(s.tick)
    requires t.trace == s.trace && t.tick == s.tick + 2 && x in t.waits
    ensures Cleared(w, o, found, t, host)
  {
    forall i, until | Demands(w, o, found, t.trace, i, host, until) && i < |t.trace|
      ensures Obeyed(w, t, |t.trace|, Since(t.trace, i), t.tick, until)
    {
      assert Standing(w, s, Since(s.trace, i), host, until);
      if Passed(w, Since(s.trace, i), s.tick, until) {
        PassedLater(w, Since(s.trace, i), s.tick, t.tick, until);
      } else {
        assert Since(t.trace, i) < x.tick < t.tick && w.clock(x.tick - 1) + x.seconds >= until;
      }
    }
  }

  lemma WaitedKept(w: World, o: Options, found: Cooldowns, s: Loop, t: Loop)
    requires o.backoffCap > 0 && Kept(w, o, found, s, |s.trace|, {})
    requires t.trace == s.trace && t.cooldowns == s.cooldowns && s.tick <= t.tick
    ensures Kept(w, o, found, t, |t.trace|, {})
  {
    forall i, h, until | Demands(w, o, found, t.trace, i, h, until) && i < |t.trace|
      ensures Standing(w, t, Since(t.trace, i), h, until)
    {
      assert Standing(w, s, Since(s.trace, i), h, until);
      if Passed(w, Since(s.trace, i), s.tick, until) {
        PassedLater(w, Since(s.trace, i), s.tick, t.tick, until);
      }
    }
  }

  /** A cooldown that is waited out. */
  lemma WaitedRules(w: World, o: Options, found: Cooldowns, s: Loop, t: Loop, host: Host, x: Wait)
    requires o.backoffCap > 0 && Ruled(w, o, found, s) && host in s.cooldowns
    requires x.cause == Cooled(|s.trace|) && x.tick == s.tick + 1
             && x.seconds == s.cooldowns[host].until - w.clock(s.tick)
    requires t == s.(tick := s.tick + 2, waits := s.waits + [x])
    ensures Ruled(w, o, found, t) && Cleared(w, o, found, t, host)
  {
    var waited := s.(waits := s.waits + [x]);
    WaitedObeyed(w, o, found, s, x);
    WaitedOwed(w, o, found, s, host, x);
    SameWaits(w, o, found, waited, t);
    WaitedKept(w, o, found, s, t);
    WaitedCleared(w, o, found, s, t, host, x);
  }

  lemma HonouredRules(w: World, o: Options, deadline: real, found: Cooldowns, s: Loop)
    requires o.backoffCap > 0 && Ruled(w, o, found, s)
    ensures var c := Honoured(w, o, deadline, s);
            Ruled(w, o, found, c.s) && (c.Clear? ==> Cleared(w, o, found, c.s, w.hostOf(c.s.url)))
  {
    var host, c := w.hostOf(s.url), Honoured(w, o, deadline, s);
    if host !in s.cooldowns {
      NothingStands(w, o, found, s, host);
    } else if s.cooldowns[host].until <= w.clock(s.tick) {
      DroppedRules(w, o, found, s, c.s, host);
    } else if c.s.waits == s.waits {
      RestingRules(w, o, found, s, c.s, |s.trace|, {});
    } else {
      WaitedRules(w, o, found, s, c.s, host, c.s.waits[|s.waits|]);
    }
  }

  // ---------------------------------------------------------------- a request, and its answer

  lemma AskedEarned(w: World, o: Options, found: Cooldowns, s: Loop)
    requires o.backoffCap > 0 && Earned(w, o, found, s)
    ensures Earned(w, o, found, Asked(w, s))
  {
    var asked := Asked(w, s);
    forall host | host in s.cooldowns
      ensures exists i :: Demands(w, o, found, asked.trace, i, host, s.cooldowns[host].until)
    {
      var i :| Demands(w, o, found, s.trace, i, host, s.cooldowns[host].until);
      DemandsKept(w, o, found, s.trace, asked.trace, i, host, s.cooldowns[host].until);
    }
  }

  lemma AskedOwed(w: World, o: Options, found: Cooldowns, s: Loop)
    requires o.backoffCap > 0 && Owed(w, o, found, s)
    ensures Owed(w, o, found, Asked(w, s))
  {
    var asked := Asked(w, s);
    forall x | x in s.waits && x.cause.Cooled?
      ensures SomeDemand(w, o, found, asked.trace, w.clock(x.tick - 1) + x.seconds)
    {
      var until := w.clock(x.tick - 1) + x.seconds;
      var i, host :| Demands(w, o, found, s.trace, i, host, until);
      DemandsKept(w, o, found, s.trace, asked.trace, i, host, until);
    }
  }

  lemma AskedKept(w: World, o: Options, found: Cooldowns, s: Loop)
    requires o.backoffCap > 0 && TicksPast(s) && Kept(w, o, found, s, |s.trace|, {})
    ensures Kept(w, o, found, Asked(w, s), |s.trace|, {})
  {
    var asked := Asked(w, s);
    forall i, host, until | Demands(w, o, found, asked.trace, i, host, until) && i < |s.trace|
      ensures Standing(w, asked, Since(asked.trace, i), host, until)
    {
      DemandsKept(w, o, found, s.trace, asked.trace, i, host, until);
      assert Standing(w, s, Since(s.trace, i), host, until);
      if Passed(w, Since(s.trace, i), s.tick, until) {
        PassedLater(w, Since(s.trace, i), s.tick, asked.tick, until);
      }
    }
  }

  lemma AskedObeyed(w: World, o: Options, found: Cooldowns, s: Loop)
    requires o.backoffCap > 0 && AllObeyed(w, o, found, s) && Cleared(w, o, found, s, w.hostOf(s.url))
    ensures AllObeyed(w, o, found, Asked(w, s))
  {
    var asked := Asked(w, s);
    forall k: nat, i, until |
      k < |asked.trace| && i < k && Demands(w, o, found, asked.trace, i, w.hostOf(asked.trace[k].url), until)
      ensures Obeyed(w, asked, k, Since(asked.trace, i), asked.trace[k].tick + 1, until)
    {
      var host := w.hostOf(asked.trace[k].url);
      DemandsKept(w, o, found, s.trace, asked.trace, i, host, until);
      if k < |s.trace| {
        assert Obeyed(w, s, k, Since(s.trace, i), s.trace[k].tick + 1, until);
      } else {
        assert Obeyed(w, s, |s.trace|, Since(s.trace, i), s.tick, until);
        ObeyedLater(w, s, k, Since(s.trace, i), s.tick, s.tick + 1, until);
      }
    }
  }

  lemma ObeyedLater(w: World, s: Loop, k: nat, from: nat, before: nat, later: nat, until: real)
    requires Obeyed(w, s, k, from, before, until) && before <= later
    ensures Obeyed(w, s, k, from, later, until)
  {
    if Passed(w, from, before, until) {
      PassedLater(w, from, before, later, until);
    } else {
      var x :| x in s.waits && x.cause == Cooled(k) && from < x.tick < before
        && w.clock(x.tick - 1) + x.seconds >= until;
      assert from < x.tick < later;
    }
  }

  /** The answer's own demand is not yet in the cooldowns. */
  ghost predicate AlmostRuled(w: World, o: Options, found: Cooldowns, s: Loop)
    requires o.backoffCap > 0
  {
    Rules(w, o, found, s, |s.trace| - 1, {})
  }

  lemma AskedRules(w: World, o: Options, found: Cooldowns, s: Loop)
    requires o.backoffCap > 0 && Ruled(w, o, found, s) && Cleared(w, o, found, s, w.hostOf(s.url))
    ensures AlmostRuled(w, o, found, Asked(w, s))
  {
    AskedEarned(w, o, found, s);
    AskedOwed(w, o, found, s);
    AskedKept(w, o, found, s);
    AskedObeyed(w, o, found, s);
  }

  /** An answer that does not ask to slow down demands nothing. */
  lemma NoDemand(w: World, o: Options, found: Cooldowns, s: Loop)
    requires o.backoffCap > 0 && AlmostRuled(w, o, found, s) && s.trace != [] && !AsksToSlow(s.trace[|s.trace| - 1])
    ensures Ruled(w, o, found, s)
  {
  }

  /** A cooldown that is extended, or begun. */
  lemma ChilledStands(w: World, s: Loop, t: Loop, asked: Host, until: real, from: nat, host: Host, other: real)
    requires t.trace == s.trace && t.waits == s.waits && s.tick <= t.tick && Standing(w, s, from, host, other)
    requires asked in t.cooldowns && until <= t.cooldowns[asked].until
    requires forall h :: h in s.cooldowns ==> h in t.cooldowns && s.cooldowns[h].until <= t.cooldowns[h].until
    ensures Standing(w, t, from, host, other)
  {
    if Passed(w, from, s.tick, other) {
      PassedLater(w, from, s.tick, t.tick, other);
    }
  }

  lemma ChilledKept(w: World, o: Options, found: Cooldowns, s: Loop, t: Loop, host: Host, until: real)
    requires o.backoffCap > 0 && Kept(w, o, found, s, |s.trace| - 1, {}) && s.trace != []
    requires t.trace == s.trace && t.waits == s.waits && s.tick <= t.tick
    requires Demands(w, o, found, s.trace, |s.trace| - 1, host, until)
    requires host in t.cooldowns && until <= t.cooldowns[host].until
    requires forall h :: h in s.cooldowns ==> h in t.cooldowns && s.cooldowns[h].until <= t.cooldowns[h].until
    ensures Kept(w, o, found, t, |t.trace|, {})
  {
    forall i, h, other | Demands(w, o, found, t.trace, i, h, other) && i < |t.trace|
      ensures Standing(w, t, Since(t.trace, i), h, other)
    {
      if i < |s.trace| - 1 {
        ChilledStands(w, s, t, host, until, Since(s.trace, i), h, other);
      }
    }
  }

  lemma ChilledEarned(w: World, o: Options, found: Cooldowns, s: Loop, t: Loop, host: Host, until: real)
    requires o.backoffCap > 0 && Earned(w, o, found, s) && t.trace == s.trace
    requires Demands(w, o, found, s.trace, |s.trace| - 1, host, until)
    requires forall h :: h in t.cooldowns ==>
               (h in s.cooldowns && t.cooldowns[h] == s.cooldowns[h]) || (h == host && t.cooldowns[h].until == until)
    ensures Earned(w, o, found, t)
  {
    forall h | h in t.cooldowns ensures exists i :: Demands(w, o, found, t.trace, i, h, t.cooldowns[h].until) {
      if h in s.cooldowns && t.cooldowns[h] == s.cooldowns[h] {
        var i :| Demands(w, o, found, s.trace, i, h, s.cooldowns[h].until);
      }
    }
  }

  lemma ChilledRules(w: World, o: Options, found: Cooldowns, s: Loop, t: Loop, host: Host, until: real)
    requires o.backoffCap > 0 && AlmostRuled(w, o, found, s) && s.trace != []
    requires t.trace == s.trace && t.waits == s.waits && s.tick <= t.tick
    requires Demands(w, o, found, s.trace, |s.trace| - 1, host, until)
    requires host in t.cooldowns && until <= t.cooldowns[host].until
    requires forall h :: h in s.cooldowns ==> h in t.cooldowns && s.cooldowns[h].until <= t.cooldowns[h].until
    requires forall h :: h in t.cooldowns ==>
               (h in s.cooldowns && t.cooldowns[h] == s.cooldowns[h]) || (h == host && t.cooldowns[h].until == until)
    ensures Ruled(w, o, found, t)
  {
    ChilledKept(w, o, found, s, t, host, until);
    ChilledEarned(w, o, found, s, t, host, until);
    SameWaits(w, o, found, s, t);
  }

  lemma SlowedRules(w: World, o: Options, found: Cooldowns, s: Loop, r: Response, wait: real)
    requires o.backoffCap > 0 && AlmostRuled(w, o, found, s) && s.trace != []
    requires var a := s.trace[|s.trace| - 1];
             a.answer == Reply(r) && a.url == s.url && s.tick == a.tick + 1
    requires wait == AskedDelay(w, o, s.trace, |s.trace| - 1, s.tick)
    ensures Ruled(w, o, found, Slowed(w, s, r, wait))
  {
    var slowed, n := Slowed(w, s, r, wait), |s.trace| - 1;
    if SlowsDown(r.status) {
      ChilledRules(w, o, found, s, slowed, w.hostOf(s.url), AskedUntil(w, o, s.trace, n));
    } else {
      NoDemand(w, o, found, s);
      RestingRules(w, o, found, s, slowed, |s.trace|, {});
    }
  }

  lemma RestsAfter(w: World, o: Options, found: Cooldowns, s: Loop, t: Turned)
    requires o.backoffCap > 0 && Ruled(w, o, found, s) && Resting(s, t.s) && Delivered(w, t) == {}
    ensures TurnRuled(w, o, found, t)
  {
    RestingRules(w, o, found, s, t.s, |s.trace|, {});
  }

  lemma DeliveredKept(w: World, o: Options, found: Cooldowns, s: Loop, host: Host)
    requires o.backoffCap > 0 && Kept(w, o, found, s, |s.trace|, {})
    ensures Kept(w, o, found, s.(cooldowns := s.cooldowns - {host}), |s.trace|, {host})
  {
    var t := s.(cooldowns := s.cooldowns - {host});
    forall i, h, until | Demands(w, o, found, t.trace, i, h, until) && i < |t.trace| && h !in {host}
      ensures Standing(w, t, Since(t.trace, i), h, until)
    {
      assert Standing(w, s, Since(s.trace, i), h, until);
    }
  }

  lemma DeliveredRules(w: World, o: Options, found: Cooldowns, s: Loop, host: Host)
    requires o.backoffCap > 0 && Ruled(w, o, found, s)
    ensures Rules(w, o, found, s.(cooldowns := s.cooldowns - {host}), |s.trace|, {host})
  {
    DeliveredKept(w, o, found, s, host);
    SameWaits(w, o, found, s, s.(cooldowns := s.cooldowns - {host}));
  }

  lemma BodyEndsRuled(w: World, o: Options, deadline: real, found: Cooldowns, s: Loop, outcome: Streamed)
    requires Live(o, s) && |s.trace| > 0 && Ruled(w, o, found, s)
    ensures TurnRuled(w, o, found, BodyEnds(w, o, deadline, s, outcome))
  {
    var t := BodyEnds(w, o, deadline, s, outcome);
    if outcome.Finished? {
      DeliveredRules(w, o, found, s, w.hostOf(s.url));
    } else {
      RestsAfter(w, o, found, s, t);
    }
  }

  lemma BodyRuled(w: World, o: Options, deadline: real, found: Cooldowns, s: Loop, r: Response)
    requires Live(o, s) && |s.trace| > 0 && Ruled(w, o, found, s)
    ensures TurnRuled(w, o, found, BodyTurn(w, o, deadline, s, r))
  {
    if r.contentLength.Some? && |s.staged.file| + r.contentLength.value > o.limit {
      RestsAfter(w, o, found, s, Fail(DeclaredTooLarge, s));
    } else {
      ReadingStops(r, 0, s.staged.file, 0, o.limit, deadline, w.clock, s.tick);
      var read := ReadFrom(r, 0, s.staged.file, 0, o.limit, deadline, w.clock, s.tick);
      var after := s.(staged := s.staged.(file := read.file), tick := read.tick);
      RestingRules(w, o, found, s, after, |s.trace|, {});
      BodyEndsRuled(w, o, deadline, found, after, read.outcome);
    }
  }

  lemma RefusedRuled(w: World, o: Options, deadline: real, found: Cooldowns, before: Loop, s: Loop, r: Response)
    requires Open(w, o, before, s) && Live(o, s) && AlmostRuled(w, o, found, s)
    requires s.trace[|before.trace|].answer == Reply(r) && IsRetry(r.status)
             && s.tick == s.trace[|before.trace|].tick + 1
    ensures TurnRuled(w, o, found, RefusedTurn(w, o, deadline, s, r))
  {
    var wait := RefusalWait(w, o, s, r);
    RefusalAsks(w, o, before, s, r);
    SlowedRules(w, o, found, s, r, wait);
    RestsAfter(w, o, found, Slowed(w, s, r, wait), RefusedTurn(w, o, deadline, s, r));
  }

  lemma AnsweredRuled(w: World, o: Options, deadline: real, found: Cooldowns, before: Loop, s: Loop, e: Exchange)
    requires Open(w, o, before, s) && Live(o, s) && AlmostRuled(w, o, found, s)
    requires s.trace[|before.trace|].answer == e && s.tick == s.trace[|before.trace|].tick + 1
    ensures TurnRuled(w, o, found, Answered(w, o, deadline, s, e))
  {
    if e.Reply? && !IsRedirect(e.response.status) && IsRetry(e.response.status) {
      RefusedRuled(w, o, deadline, found, before, s, e.response);
    } else {
      NoDemand(w, o, found, s);
      PlainlyRuled(w, o, deadline, found, s, e);
    }
  }

  /** An answer that is no refusal. */
  lemma PlainlyRuled(w: World, o: Options, deadline: real, found: Cooldowns, s: Loop, e: Exchange)
    requires Live(o, s) && |s.trace| > 0 && Ruled(w, o, found, s)
    requires e.Reply? ==> IsRedirect(e.response.status) || !IsRetry(e.response.status)
    ensures TurnRuled(w, o, found, Answered(w, o, deadline, s, e))
  {
    match e
    case NoResponse(_) => RestsAfter(w, o, found, s, Answered(w, o, deadline, s, e));
    case Reply(r) =>
      if IsRedirect(r.status) {
        RestsAfter(w, o, found, s, RedirectTurn(w, s, r));
      } else if r.status == 200 {
        var renewed := s.(staged := Staged([], RangeValidator(r)));
        RestingRules(w, o, found, s, renewed, |s.trace|, {});
        BodyRuled(w, o, deadline, found, renewed, r);
      } else if Continues(s.staged, r) {
        BodyRuled(w, o, deadline, found, s, r);
      } else {
        RestsAfter(w, o, found, s, Fail(UnexpectedStatus, s));
      }
  }

  lemma TurnKeepsRules(w: World, o: Options, deadline: real, found: Cooldowns, s: Loop)
    requires Live(o, s) && Accounted(w, o, s) && Ruled(w, o, found, s)
    ensures TurnRuled(w, o, found, Turn(w, o, deadline, s))
  {
    HonouredRules(w, o, deadline, found, s);
    HonouredAccounted(w, o, deadline, s);
    var c := Honoured(w, o, deadline, s);
    if c.Clear? && w.clock(c.s.tick) < deadline {
      var asked := Asked(w, c.s);
      AskedOpen(w, o, c.s);
      AskedRules(w, o, found, c.s);
      AnsweredRuled(w, o, deadline, found, c.s, asked, asked.trace[|c.s.trace|].answer);
    } else {
      RestsAfter(w, o, found, c.s, Turn(w, o, deadline, s));
    }
  }

  /**
   * How every download treats the hosts that asked to slow down, before it or by an answer to it: each cooldown it
   * leaves was demanded; no demand is dropped or shortened before the clock has passed it, unless its host delivered a
   * body to the end; and no request is made to a host before all it had demanded has passed or was waited out.
   */
  lemma {:induction false} PlayKeepsRules(w: World, o: Options, deadline: real, found: Cooldowns, s: Loop)
    requires Live(o, s) && Accounted(w, o, s) && Ruled(w, o, found, s)
    ensures TurnRuled(w, o, found, Play(w, o, deadline, s))
    decreases MAX_REDIRECTS + o.maxAttempts - s.redirects - s.failures
  {
    var t := Turn(w, o, deadline, s);
    TurnKeepsRules(w, o, deadline, found, s);
    if t.GoOn? {
      TurnKeepsAccounts(w, o, deadline, s);
      PlayKeepsRules(w, o, deadline, found, t.s);
    }
  }

  lemma StartRuled(w: World, o: Options, found: Cooldowns)
    requires o.backoffCap > 0
    ensures Ruled(w, o, found, Start(o, found))
  {
    var s := Start(o, found);
    forall host | host in s.cooldowns ensures exists i ::
      Demands(w, o, found, s.trace, i, host, s.cooldowns[host].until) {
      assert Demands(w, o, found, s.trace, -1, host, found[host].until);
    }
  }

  // ---------------------------------------------------------------- cancellation

  /**
   * A run that goes on has not been cancelled in any wait; one that is cancelled ends in the wait it is cancelled in.
   */
  predicate TurnAwake(w: World, t: Turned) {
    if t.End? && t.result == Err(Cancelled) then
      && t.s.waits != []
      && var last := |t.s.waits| - 1;
         Awake(w, t.s.waits[..last]) && t.s.waits[last].seconds > 0.0 && w.cancelled(t.s.waits[last].tick + 1)
    else Awake(w, t.s.waits)
  }

  lemma TurnHeedsCancel(w: World, o: Options, deadline: real, s: Loop)
    requires Live(o, s) && Awake(w, s.waits)
    ensures TurnAwake(w, Turn(w, o, deadline, s))
  {
    var c := Honoured(w, o, deadline, s);
    if c.s.waits != s.waits {
      assert c.s.waits[..|s.waits|] == s.waits;
    }
    if c.Clear? && w.clock(c.s.tick) < deadline {
      var asked := Asked(w, c.s);
      AnsweredAwake(w, o, deadline, asked, asked.trace[|c.s.trace|].answer);
    }
  }

  lemma AwakeOneMore(w: World, waits: seq<Wait>, x: Wait)
    requires Awake(w, waits)
    ensures (x.seconds > 0.0 ==> !w.cancelled(x.tick + 1)) ==> Awake(w, waits + [x])
    ensures (waits + [x])[..|waits|] == waits
  {
  }

  lemma EndsAwake(w: World, s: Loop, why: Failure)
    requires Awake(w, s.waits) && !why.Cancelled?
    ensures TurnAwake(w, Fail(why, s))
  {
  }

  lemma WaitAwake(w: World, s: Loop, x: Wait, tick: nat)
    requires Awake(w, s.waits) && tick == x.tick + 1
    ensures var waited := s.(tick := tick, waits := s.waits + [x]);
            TurnAwake(w, if x.seconds > 0.0 && w.cancelled(tick) then Fail(Cancelled, waited) else GoOn(waited))
  {
    AwakeOneMore(w, s.waits, x);
  }

  lemma RetryAwake(w: World, o: Options, deadline: real, s: Loop, wait: real, why: Failure)
    requires s.redirects <= MAX_REDIRECTS && o.backoffCap > 0 && |s.trace| > 0 && Awake(w, s.waits) && !why.Cancelled?
    ensures TurnAwake(w, Retry(w, o, deadline, s, wait, why))
  {
    if s.failures >= o.maxAttempts {
      EndsAwake(w, s, why);
    } else if !Fits(wait, o, w.clock(s.tick), deadline) {
      EndsAwake(w, s.(tick := s.tick + 1), why);
    } else {
      WaitAwake(w, s, Wait(Retried(|s.trace| - 1), s.tick, wait, wait), s.tick + 1);
    }
  }

  lemma OneMoreAwake(w: World, o: Options, deadline: real, s: Loop, why: Failure)
    requires Live(o, s) && |s.trace| > 0 && Awake(w, s.waits) && !why.Cancelled?
    ensures TurnAwake(w, OneMoreFailure(w, o, deadline, s, why))
  {
    var failed := s.(failures := s.failures + 1);
    RetryAwake(w, o, deadline, failed, Backoff(failed.failures, o.backoffCap, w.draw(s.tick)), why);
  }

  lemma BodyAwake(w: World, o: Options, deadline: real, s: Loop, r: Response)
    requires Live(o, s) && |s.trace| > 0 && Awake(w, s.waits)
    ensures TurnAwake(w, BodyTurn(w, o, deadline, s, r))
  {
    var read := ReadFrom(r, 0, s.staged.file, 0, o.limit, deadline, w.clock, s.tick);
    OneMoreAwake(w, o, deadline, s.(staged := s.staged.(file := read.file), tick := read.tick), BodyFailed);
  }

  lemma AnsweredAwake(w: World, o: Options, deadline: real, s: Loop, e: Exchange)
    requires Live(o, s) && |s.trace| > 0 && Awake(w, s.waits)
    ensures TurnAwake(w, Answered(w, o, deadline, s, e))
  {
    match e
    case NoResponse(transient) => OneMoreAwake(w, o, deadline, s, Unreachable);
    case Reply(r) =>
      if IsRedirect(r.status) {
      } else if IsRetry(r.status) {
        var wait := RefusalWait(w, o, s, r);
        RetryAwake(w, o, deadline, Slowed(w, s, r, wait), wait, StillRefused);
      } else if r.status == 200 {
        BodyAwake(w, o, deadline, s.(staged := Staged([], RangeValidator(r))), r);
      } else if Continues(s.staged, r) {
        BodyAwake(w, o, deadline, s, r);
      }
  }

  /** Every download: a caller that has cancelled when a wait starts is not kept waiting. */
  lemma {:induction false} PlayHeedsCancel(w: World, o: Options, deadline: real, s: Loop)
    requires Live(o, s) && Awake(w, s.waits)
    ensures TurnAwake(w, Play(w, o, deadline, s))
    decreases MAX_REDIRECTS + o.maxAttempts - s.redirects - s.failures
  {
    var t := Turn(w, o, deadline, s);
    TurnHeedsCancel(w, o, deadline, s);
    if t.GoOn? {
      PlayHeedsCancel(w, o, deadline, t.s);
    }
  }

  // ---------------------------------------------------------------- every run

  /** The laws of every download, from whatever cooldowns it finds. */
  lemma EveryRun(w: World, o: Options, deadline: real, found: Cooldowns, t: Turned)
    requires EndsWith(w, o, deadline, Start(o, found), t)
    ensures t.End? && EndAccounted(w, o, t) && TurnTimed(w, o, deadline, t) && TurnRuled(w, o, found, t)
            && TurnAwake(w, t)
    ensures forall f :: Succeeds(t, f) <==> Reached(w, o, deadline, Start(o, found), f)
  {
    var s := Start(o, found);
    StartAccounted(w, o, found);
    StartTimed(w, o, deadline, found);
    StartRuled(w, o, found);
    PlayKeepsAccounts(w, o, deadline, s);
    PlayIsTimed(w, o, deadline, s);
    PlayKeepsRules(w, o, deadline, found, s);
    PlayHeedsCancel(w, o, deadline, s);
    forall f ensures Succeeds(t, f) <==> Reached(w, o, deadline, s, f) {
      SucceedsExactly(w, o, deadline, s, f);
    }
  }
}
