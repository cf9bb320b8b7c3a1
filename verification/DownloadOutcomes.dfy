/** When exactly a download succeeds. */
module DownloadOutcomes {
  import opened Wrappers
  import opened DownloadSpec
  import opened DownloadLaws
  import opened DownloadTimes

  // ---------------------------------------------------------------- success

  /** The chunks that reading takes: those before the first empty one. */
  function Yields(chunks: seq<seq<byte>>): nat {
    if chunks == [] || chunks[0] == [] then 0 else 1 + Yields(chunks[1..])
  }

  /** No reading from one tick up to another is past the deadline. */
  predicate InTime(clock: nat -> real, deadline: real, from: nat, to: nat) {
    forall t :: from <= t <= to ==> clock(t) < deadline
  }

  /** How a body ends that was read on from some chunk, when nothing interrupts the reading. */
  function EndingFrom(r: Response, received: nat, rest: seq<seq<byte>>): Option<bool> {
    if [] !in rest && r.ending.Broken? then Some(r.ending.transient)
    else if r.contentLength.Some? && r.contentLength.value != received + |Taken(rest)| then Some(true)
    else None
  }

  /**
   * Reading finishes exactly when nothing breaks, every reading of the clock is in time, and the file stays within the
   * limit.
   */
  lemma {:induction false} FinishesFrom(r: Response, i: nat, file: seq<byte>, received: nat, limit: nat, deadline: real,
                                        clock: nat -> real, tick: nat)
    requires i <= |r.chunks| && |file| <= limit
    ensures ReadFrom(r, i, file, received, limit, deadline, clock, tick).outcome.Finished? <==>
            && EndingFrom(r, received, r.chunks[i..]) == None && |file + Taken(r.chunks[i..])| <= limit
            && InTime(clock, deadline, tick, tick + Yields(r.chunks[i..]))
    decreases |r.chunks| - i
  {
    var rest := r.chunks[i..];
    if clock(tick) < deadline && i < |r.chunks| && r.chunks[i] != [] {
      assert rest[0] == r.chunks[i] && rest[1..] == r.chunks[i + 1..];
      assert [] in rest <==> [] in rest[1..] by {
        assert rest == [rest[0]] + rest[1..];
      }
      assert file + Taken(rest) == file + r.chunks[i] + Taken(rest[1..]);
      assert InTime(clock, deadline, tick, tick + Yields(rest)) <==>
             InTime(clock, deadline, tick + 1, tick + 1 + Yields(rest[1..]));
      if |file| + |r.chunks[i]| <= limit {
        FinishesFrom(r, i + 1, file + r.chunks[i], received + |r.chunks[i]|, limit, deadline, clock, tick + 1);
      }
    }
  }

  /** A response whose body completes the download: accepted, whole, within the limit, not empty, and read in time. */
  predicate Delivers(o: Options, deadline: real, clock: nat -> real, tick: nat, s: Staged, r: Response,
                     file: seq<byte>) {
    var start := if r.status == 200 then [] else s.file;
    && TakesBody(s, r) && Cut(r) == None && file == start + Taken(r.chunks) && 0 < |file| <= o.limit
    && (r.contentLength.Some? ==> |start| + r.contentLength.value <= o.limit)
    && InTime(clock, deadline, tick, tick + Yields(r.chunks))
  }

  /** A turn in which the download succeeds: the host may be asked, in time, and the answer delivers the rest. */
  predicate Completes(w: World, o: Options, deadline: real, s: Loop, f: Fetched) {
    var c := Honoured(w, o, deadline, s);
    && c.Clear? && w.clock(c.s.tick) < deadline
    && var e := w.exchange(|c.s.trace|, RequestFor(c.s.url, c.s.staged));
       && e.Reply? && f == Recorded(f.file, c.s.url)
       && Delivers(o, deadline, w.clock, c.s.tick + 1, c.s.staged, e.response, f.file)
  }

  predicate Succeeds(t: Turned, f: Fetched) { t.End? && t.result == Ok(f) }

  lemma BodyCompletes(w: World, o: Options, deadline: real, s: Loop, r: Response, f: Fetched)
    requires Live(o, s) && |s.trace| > 0 && |s.staged.file| <= o.limit
    ensures var file := s.staged.file + Taken(r.chunks);
            Succeeds(BodyTurn(w, o, deadline, s, r), f) <==>
            && Cut(r) == None && 0 < |file| <= o.limit && f == Recorded(file, s.url)
            && (r.contentLength.Some? ==> |s.staged.file| + r.contentLength.value <= o.limit)
            && InTime(w.clock, deadline, s.tick, s.tick + Yields(r.chunks))
  {
    assert r.chunks[0..] == r.chunks;
    FinishesFrom(r, 0, s.staged.file, 0, o.limit, deadline, w.clock, s.tick);
    ReadsWhole(r, s.staged.file, o.limit, deadline, w.clock, s.tick);
  }

  lemma AnswerCompletes(w: World, o: Options, deadline: real, s: Loop, e: Exchange, f: Fetched)
    requires Live(o, s) && |s.trace| > 0 && |s.staged.file| <= o.limit
    ensures Succeeds(Answered(w, o, deadline, s, e), f) <==>
            && e.Reply? && f == Recorded(f.file, s.url)
            && Delivers(o, deadline, w.clock, s.tick, s.staged, e.response, f.file)
  {
    if e.Reply? && TakesBody(s.staged, e.response) {
      var r := e.response;
      var from := if r.status == 200 then s.(staged := Staged([], RangeValidator(r))) else s;
      BodyCompletes(w, o, deadline, from, r, f);
      assert Answered(w, o, deadline, s, e) == BodyTurn(w, o, deadline, from, r);
    }
  }

  lemma TurnCompletes(w: World, o: Options, deadline: real, s: Loop, f: Fetched)
    requires Live(o, s) && |s.staged.file| <= o.limit
    ensures Succeeds(Turn(w, o, deadline, s), f) <==> Completes(w, o, deadline, s, f)
  {
    var c := Honoured(w, o, deadline, s);
    if c.Clear? && w.clock(c.s.tick) < deadline {
      var asked := Asked(w, c.s);
      AnswerCompletes(w, o, deadline, asked, asked.trace[|c.s.trace|].answer, f);
    }
  }

  /** Some turns that go on lead from one state of the loop to another. */
  predicate LeadsTo(w: World, o: Options, deadline: real, s: Loop, turns: nat, after: Loop)
    decreases turns
  {
    if turns == 0 then after == s
    else
      && Live(o, s) && Turn(w, o, deadline, s).GoOn?
      && LeadsTo(w, o, deadline, Turn(w, o, deadline, s).s, turns - 1, after)
  }

  /** Some turns go on, and the next one completes the download. */
  predicate CompletesAfter(w: World, o: Options, deadline: real, s: Loop, turns: nat, after: Loop, f: Fetched) {
    LeadsTo(w, o, deadline, s, turns, after) && Completes(w, o, deadline, after, f)
  }

  /** Some number of turns go on, and the next one completes the download with this file. */
  ghost predicate Reached(w: World, o: Options, deadline: real, s: Loop, f: Fetched) {
    exists turns: nat, after: Loop :: CompletesAfter(w, o, deadline, s, turns, after, f)
  }

  lemma ReachedNow(w: World, o: Options, deadline: real, s: Loop, f: Fetched)
    requires Completes(w, o, deadline, s, f)
    ensures Reached(w, o, deadline, s, f)
  {
    assert CompletesAfter(w, o, deadline, s, 0, s, f);
  }

  lemma ReachedLater(w: World, o: Options, deadline: real, s: Loop, f: Fetched)
    requires Live(o, s) && Turn(w, o, deadline, s).GoOn? && Reached(w, o, deadline, Turn(w, o, deadline, s).s, f)
    ensures Reached(w, o, deadline, s, f)
  {
    var turns: nat, after: Loop :| CompletesAfter(w, o, deadline, Turn(w, o, deadline, s).s, turns, after, f);
    assert CompletesAfter(w, o, deadline, s, turns + 1, after, f);
  }

  lemma ReachedHow(w: World, o: Options, deadline: real, s: Loop, f: Fetched)
    requires Live(o, s) && Reached(w, o, deadline, s, f)
    ensures Completes(w, o, deadline, s, f) ||
            (Turn(w, o, deadline, s).GoOn? && Reached(w, o, deadline, Turn(w, o, deadline, s).s, f))
  {
    var turns: nat, after: Loop :| CompletesAfter(w, o, deadline, s, turns, after, f);
    if turns > 0 {
      assert CompletesAfter(w, o, deadline, Turn(w, o, deadline, s).s, turns - 1, after, f);
    }
  }

  /**
   * A download succeeds with a file exactly when, after some turns that go on, a turn delivers the rest of that file.
   */
  lemma {:induction false} SucceedsExactly(w: World, o: Options, deadline: real, s: Loop, f: Fetched)
    requires Live(o, s) && Accounted(w, o, s)
    ensures Succeeds(Play(w, o, deadline, s), f) <==> Reached(w, o, deadline, s, f)
    decreases MAX_REDIRECTS + o.maxAttempts - s.redirects - s.failures
  {
    var t := Turn(w, o, deadline, s);
    TurnCompletes(w, o, deadline, s, f);
    if Reached(w, o, deadline, s, f) {
      ReachedHow(w, o, deadline, s, f);
    }
    if t.GoOn? {
      TurnKeepsAccounts(w, o, deadline, s);
      SucceedsExactly(w, o, deadline, t.s, f);
      if Reached(w, o, deadline, t.s, f) {
        ReachedLater(w, o, deadline, s, f);
      }
    } else if Completes(w, o, deadline, s, f) {
      ReachedNow(w, o, deadline, s, f);
    }
  }

  /** A first answer that delivers the whole file in time, from a host that may be asked, is enough. */
  lemma FirstAnswerSuffices(w: World, o: Options, deadline: real, cooldowns: Cooldowns, r: Response)
    requires o.maxAttempts > 0 && o.backoffCap > 0 && w.hostOf(o.url) !in cooldowns
    requires w.exchange(0, Request(o.url, None)) == Reply(r) && r.status == 200 && Cut(r) == None
    requires 0 < |Taken(r.chunks)| <= o.limit && (r.contentLength.Some? ==> r.contentLength.value <= o.limit)
    requires InTime(w.clock, deadline, 1, 2 + Yields(r.chunks))
    ensures Succeeds(Play(w, o, deadline, Start(o, cooldowns)), Recorded(Taken(r.chunks), o.url))
  {
    var s := Start(o, cooldowns);
    assert [] + Taken(r.chunks) == Taken(r.chunks);
    assert Completes(w, o, deadline, s, Recorded(Taken(r.chunks), o.url));
    TurnCompletes(w, o, deadline, s, Recorded(Taken(r.chunks), o.url));
  }
}
