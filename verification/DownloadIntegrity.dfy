/**
 * Whose bytes a downloaded file holds: what servers have to keep to, and when the assembled file is one representation.
 */
module DownloadIntegrity {
  import opened Wrappers
  import opened DownloadSpec
  import opened DownloadLaws
  import opened DownloadOutcomes

  // ---------------------------------------------------------------- servers

  /** The representation that a validator names at a URL. A validator means nothing at another URL. */
  type Naming = (Url, string) -> seq<byte>

  /** A strong entity tag (section 8.8.1 of RFC 9110); a weak one names no bytes. */
  predicate Strong(etag: string) { etag != "" && !("W/" <= etag) }

  /**
   * What integrity needs of servers: a full response sends a prefix of a representation, the one its validator names at
   * the URL asked; a partial response continues the representation that the condition names at the URL asked (sections
   * 13.1.5 and 15.3.7 of RFC 9110), from where its Content-Range says.
   */
  ghost predicate Honest(named: Naming, q: Request, r: Response) {
    && (r.status == 200 ==>
          && Body(r.chunks) <= r.representation
          && (Strong(r.etag) ==> r.representation == named(q.url, r.etag))
          && (r.lastModified != "" ==> r.representation == named(q.url, r.lastModified)))
    && (r.status == 206 && q.range.Some? && r.contentRangeStart == Some(q.range.value.0) ==>
          && r.representation == named(q.url, q.range.value.1)
          && q.range.value.0 <= |r.representation|
          && Body(r.chunks) <= r.representation[q.range.value.0..])
  }

  ghost predicate HonestWorld(w: World, named: Naming) {
    forall k: nat, q: Request :: w.exchange(k, q).Reply? ==> Honest(named, q, w.exchange(k, q).response)
  }

  /** Servers declare how much they send, and send to the end: every full response, and every range that continues. */
  ghost predicate ToTheEnd(w: World) {
    forall k: nat, q: Request :: w.exchange(k, q).Reply? ==>
      var r := w.exchange(k, q).response;
      && (r.status == 200 ==> r.contentLength == Some(|r.representation|))
      && (r.status == 206 && q.range.Some? && r.contentRangeStart == Some(q.range.value.0) ==>
            r.contentLength.Some? && q.range.value.0 + r.contentLength.value == |r.representation|)
  }

  // ---------------------------------------------------------------- where the staged bytes come from

  predicate IsFull(a: Ask) { a.answer.Reply? && a.answer.response.status == 200 }

  /** The URL whose full response began the staged file. */
  function Origin(trace: seq<Ask>): Url {
    if trace == [] then ""
    else if IsFull(trace[|trace| - 1]) then trace[|trace| - 1].url
    else Origin(trace[..|trace| - 1])
  }

  /** The representation that full response was sent from. */
  function Representation(trace: seq<Ask>): seq<byte> {
    if trace == [] then []
    else if IsFull(trace[|trace| - 1]) then trace[|trace| - 1].answer.response.representation
    else Representation(trace[..|trace| - 1])
  }

  predicate IsContinuation(trace: seq<Ask>, i: nat)
    requires i < |trace|
  {
    trace[i].answer.Reply? && Continues(Assembled(trace[..i]), trace[i].answer.response)
  }

  /** Every continuation was asked at the URL that began the file. */
  predicate SameSource(trace: seq<Ask>) {
    forall i :: 0 <= i < |trace| && IsContinuation(trace, i) ==> trace[i].url == Origin(trace[..i])
  }

  lemma SameSourceBefore(trace: seq<Ask>)
    requires trace != [] && SameSource(trace)
    ensures SameSource(trace[..|trace| - 1])
  {
    var before := trace[..|trace| - 1];
    forall i | 0 <= i < |before| && IsContinuation(before, i) ensures before[i].url == Origin(before[..i]) {
      assert before[..i] == trace[..i];
      assert IsContinuation(trace, i);
    }
  }

  // ---------------------------------------------------------------- one representation

  /** A prefix continued by a prefix of what follows it is a longer prefix. */
  lemma Continued(before: seq<byte>, rep: seq<byte>, taken: seq<byte>, body: seq<byte>)
    requires before <= rep && taken <= body <= rep[|before|..]
    ensures before + taken <= rep
  {
    assert rep == before + rep[|before|..];
  }

  /**
   * The staged file is a prefix of the representation that began it, which its validators name at the URL it came from.
   */
  ghost predicate OneRepresentation(named: Naming, trace: seq<Ask>) {
    var staged := Assembled(trace);
    && staged.file <= Representation(trace)
    && (staged.validator.Some? ==> Representation(trace) == named(Origin(trace), staged.validator.value))
  }

  /** One more answer, from the URL that began the file if it continues it. */
  lemma AnswerKeepsOne(named: Naming, before: seq<Ask>, a: Ask)
    requires OneRepresentation(named, before)
    requires a.answer.Reply? ==> Honest(named, RequestFor(a.url, Assembled(before)), a.answer.response)
    requires a.answer.Reply? && Continues(Assembled(before), a.answer.response) ==> a.url == Origin(before)
    ensures OneRepresentation(named, before + [a])
  {
    assert (before + [a])[..|before|] == before;
    if a.answer.Reply? {
      var s, r := Assembled(before), a.answer.response;
      TakenOfBody(r.chunks);
      if Continues(s, r) {
        Continued(s.file, Representation(before), Taken(r.chunks), Body(r.chunks));
      }
    }
  }

  /**
   * Whatever was asked and answered: with honest servers and one source, the file is a prefix of one representation.
   */
  lemma {:induction false} StagedIsPrefix(w: World, o: Options, named: Naming, trace: seq<Ask>)
    requires HonestWorld(w, named) && Genuine(w, o, trace) && SameSource(trace)
    ensures OneRepresentation(named, trace)
  {
    if trace != [] {
      var n := |trace| - 1;
      var before := trace[..n];
      SameSourceBefore(trace);
      StagedIsPrefix(w, o, named, before);
      assert trace[n].answer == w.exchange(n, RequestFor(trace[n].url, Assembled(before)));
      assert IsContinuation(trace, n) ==> trace[n].url == Origin(before);
      AnswerKeepsOne(named, before, trace[n]);
      assert trace == before + [trace[n]];
    }
  }

  /** Where an accepted answer ends, by its own headers: the start of its range and its declared length. */
  function Reach(r: Response): int {
    (if r.status == 206 && r.contentRangeStart.Some? then r.contentRangeStart.value else 0)
    + (if r.contentLength.Some? then r.contentLength.value else |Taken(r.chunks)|)
  }

  /** The file that a complete answer leaves is the whole representation exactly when that answer reaches its end. */
  lemma WholeWhenReached(w: World, o: Options, named: Naming, trace: seq<Ask>)
    requires HonestWorld(w, named) && Genuine(w, o, trace) && SameSource(trace) && trace != []
    requires Done(Assembled(trace[..|trace| - 1]), trace[|trace| - 1].answer)
    ensures var r := trace[|trace| - 1].answer.response;
            && Assembled(trace).file <= Representation(trace)
            && (Assembled(trace).file == Representation(trace) <==> Reach(r) == |Representation(trace)|)
            && (ToTheEnd(w) ==> Assembled(trace).file == Representation(trace))
    ensures trace[|trace| - 1].url == Origin(trace)
  {
    var n := |trace| - 1;
    var r := trace[n].answer.response;
    StagedIsPrefix(w, o, named, trace);
    assert IsContinuation(trace, n) ==> trace[n].url == Origin(trace[..n]);
    var q := RequestFor(trace[n].url, Assembled(trace[..n]));
    assert w.exchange(n, q) == Reply(r);
    assert Honest(named, q, r);
    SameSourceBefore(trace);
    StagedIsPrefix(w, o, named, trace[..n]);
  }

  /**
   * A download that succeeds holds bytes of one representation at the URL it reports, and all of them when servers send
   * all.
   */
  lemma FetchedFromOne(w: World, o: Options, named: Naming, t: Turned)
    requires t.End? && EndAccounted(w, o, t) && t.result.Ok? && HonestWorld(w, named) && SameSource(t.s.trace)
    ensures var f, trace := t.result.value, t.s.trace;
            && f.final == Origin(trace) && f.file <= Representation(trace)
            && (ToTheEnd(w) ==> f.file == Representation(trace))
  {
    WholeWhenReached(w, o, named, t.s.trace);
  }

  // ---------------------------------------------------------------- when there is one source

  /** No redirect is followed while a part is staged that could be continued. */
  predicate StaysPut(w: World, trace: seq<Ask>) {
    forall i :: 0 <= i < |trace| && Hop(w, trace[i]).Some? ==> RequestFor("", Assembled(trace[..i])).range.None?
  }

  /** Then every continuation is asked where the file began. */
  lemma {:induction false} StaysPutIsSameSource(w: World, o: Options, trace: seq<Ask>)
    requires Genuine(w, o, trace) && StaysPut(w, trace)
    ensures SameSource(trace)
    ensures RequestFor("", Assembled(trace)).range.Some? ==> UrlAfter(w, o, trace) == Origin(trace)
  {
    if trace != [] {
      var n := |trace| - 1;
      var before := trace[..n];
      forall i | 0 <= i < n && Hop(w, before[i]).Some? ensures RequestFor("", Assembled(before[..i])).range.None? {
        assert before[..i] == trace[..i];
      }
      StaysPutIsSameSource(w, o, before);
      forall i | 0 <= i < |trace| && IsContinuation(trace, i) ensures trace[i].url == Origin(trace[..i]) {
        if i < n {
          assert before[..i] == trace[..i];
          assert IsContinuation(before, i);
        }
      }
    }
  }

  /**
   * Continuing at one URL what began at another is safe: whatever honest servers name and send, the file stays a
   * prefix.
   */
  ghost predicate SafeToContinue(began: Url, asked: Url) {
    forall named: Naming, validator: string, file: seq<byte>, r: Response ::
      file <= named(began, validator) && Honest(named, Request(asked, Some((|file|, validator))), r)
      && Continues(Staged(file, Some(validator)), r) ==>
        file + Taken(r.chunks) <= named(began, validator)
  }

  /** One byte each of two files that carry the same date. */
  function TwoFiles(): Naming { (url, date) => if url == "a" then [1, 1] else [2, 2] }

  lemma SafeAtTheSameUrl(url: Url)
    ensures SafeToContinue(url, url)
  {
    forall named: Naming, validator: string, file: seq<byte>, r: Response |
      file <= named(url, validator) && Honest(named, Request(url, Some((|file|, validator))), r)
      && Continues(Staged(file, Some(validator)), r)
      ensures file + Taken(r.chunks) <= named(url, validator)
    {
      TakenOfBody(r.chunks);
      Continued(file, named(url, validator), Taken(r.chunks), Body(r.chunks));
    }
  }

  /** The second byte of another file, sent to continue the first. */
  function Stray(): Response { Response(206, None, None, true, "", "d", Some(1), Some(1), [[2]], EndOfBody, [2, 2]) }

  lemma StrayIsHonest(named: Naming, asked: Url)
    requires named(asked, "d") == [2, 2]
    ensures Honest(named, Request(asked, Some((1, "d"))), Stray()) && Continues(Staged([1], Some("d")), Stray())
    ensures [1] + Taken(Stray().chunks) == [1, 2]
  {
    OneChunk(2);
  }

  lemma UnsafeElsewhere(began: Url, asked: Url)
    requires began != asked
    ensures !SafeToContinue(began, asked)
  {
    var named: Naming := (url, date) => if url == began then [1, 1] else [2, 2];
    var part: seq<byte> := [1];
    StrayIsHonest(named, asked);
    assert part <= named(began, "d") && |part| == 1;
    assert (part + Taken(Stray().chunks))[1] == 2 && named(began, "d")[1] == 1;
  }

  /** It is safe exactly when the URL is the same. */
  lemma SafeExactlyAtTheSameUrl(began: Url, asked: Url)
    ensures SafeToContinue(began, asked) <==> began == asked
  {
    if began == asked {
      SafeAtTheSameUrl(began);
    } else {
      UnsafeElsewhere(began, asked);
    }
  }

  lemma OneChunk(b: byte)
    ensures Taken([[b]]) == [b] && Body([[b]]) == [b]
  {
    assert [[b]][1..] == [];
    assert Taken([[b]]) == [b] + Taken([[b]][1..]) && Body([[b]]) == [b] + Body([[b]][1..]);
  }

  // ---------------------------------------------------------------- a file of two halves

  /**
   * The first request gets one of two bytes, the second is redirected, the third gets the other byte of what is there.
   */
  function MovingServer(k: nat, q: Request): Exchange {
    var file := TwoFiles()(q.url, "d");
    if k == 0 then Reply(Response(200, None, None, true, "", "d", None, Some(2), [[file[0]]], EndOfBody, file))
    else if k == 1 then Reply(Response(302, Some("b"), None, false, "", "", None, None, [], EndOfBody, []))
    else if k == 2 && q.range == Some((1, "d")) then
      Reply(Response(206, None, None, true, "", "d", Some(1), Some(1), [[file[1]]], EndOfBody, file))
    else NoResponse(false)
  }

  function MovingWorld(): World {
    World(MovingServer, (t: nat) => 0.0, (t: nat) => 1.0, (t: nat) => false, (url: Url) => url,
          (url: Url, to: string) => Some(to))
  }

  lemma MovingAnswerIsHonest(k: nat, q: Request)
    requires MovingServer(k, q).Reply?
    ensures Honest(TwoFiles(), q, MovingServer(k, q).response)
  {
    OneChunk(TwoFiles()(q.url, "d")[0]);
  }

  lemma MovingServerIsHonest()
    ensures HonestWorld(MovingWorld(), TwoFiles()) && ToTheEnd(MovingWorld())
  {
    forall k: nat, q: Request | MovingServer(k, q).Reply? ensures Honest(TwoFiles(), q, MovingServer(k, q).response) {
      MovingAnswerIsHonest(k, q);
    }
  }

  /** Two attempts, and limits that none of it comes near. */
  function Plainly(): Options { Options("a", 10, 100.0, 2, 100.0, 1) }

  /** The loop before each of the three requests. */
  function Moving(k: nat): Loop
    requires k <= 2
  {
    var w, s := MovingWorld(), Start(Plainly(), map[]);
    var file := TwoFiles()("a", "d");
    var part := Staged([file[0]], Some("d"));
    var first := Ask(1, "a", MovingServer(0, Request("a", None)));
    var second := Ask(5, "a", MovingServer(1, Request("a", Some((1, "d")))));
    if k == 0 then s
    else if k == 1 then Loop("a", part, 0, 1, [first], [Wait(Retried(0), 4, 1.0, 1.0)], 5, map[])
    else Loop("b", part, 1, 1, [first, second], [Wait(Retried(0), 4, 1.0, 1.0)], 6, map[])
  }

  /** What the first request is answered. */
  function FirstHalf(): Response {
    Response(200, None, None, true, "", "d", None, Some(2), [[1]], EndOfBody, [1, 1])
  }

  lemma FirstIsCut(file: seq<byte>)
    requires file == []
    ensures ReadFrom(FirstHalf(), 0, file, 0, 10, 100.0, MovingWorld().clock, 2) == Read(Interrupted(true), [1], 4)
  {
  }

  lemma OneSecond()
    ensures Backoff(1, 1, 1.0) == 1.0
  {
    assert Doubling(0) == 1;
  }

  /** The loop when the first answer is about to be read, and when it has been read. */
  function Halfway(file: seq<byte>, tick: nat): Loop {
    Loop("a", Staged(file, Some("d")), 0, 0, [Ask(1, "a", Reply(FirstHalf()))], [], tick, map[])
  }

  lemma FirstFails()
    ensures OneMoreFailure(MovingWorld(), Plainly(), 100.0, Halfway([1], 4), BodyFailed) == GoOn(Moving(1))
  {
    OneSecond();
    assert Moving(1).trace == Halfway([1], 4).trace;
  }

  lemma FirstIsRead()
    ensures BodyTurn(MovingWorld(), Plainly(), 100.0, Halfway([], 2), FirstHalf()) == GoOn(Moving(1))
  {
    FirstIsCut([]);
    FirstFails();
  }

  /** A turn whose answer is a full response, read from where the loop then stands. */
  lemma FullTurn(w: World, o: Options, deadline: real, s: Loop, r: Response, reading: Loop, after: Turned)
    requires Live(o, s) && w.hostOf(s.url) !in s.cooldowns && w.clock(s.tick) < deadline
    requires w.exchange(|s.trace|, RequestFor(s.url, s.staged)) == Reply(r) && r.status == 200
    requires reading == Asked(w, s).(staged := Staged([], RangeValidator(r)))
    requires BodyTurn(w, o, deadline, reading, r) == after
    ensures Turn(w, o, deadline, s) == after
  {
  }

  lemma FirstAsked()
    ensures MovingWorld().exchange(0, RequestFor("a", Staged([], None))) == Reply(FirstHalf())
    ensures Halfway([], 2) == Asked(MovingWorld(), Moving(0)).(staged := Staged([], RangeValidator(FirstHalf())))
  {
  }

  lemma FirstBreaks()
    ensures Turn(MovingWorld(), Plainly(), 100.0, Moving(0)) == GoOn(Moving(1))
  {
    FirstAsked();
    FirstIsRead();
    FullTurn(MovingWorld(), Plainly(), 100.0, Moving(0), FirstHalf(), Halfway([], 2), GoOn(Moving(1)));
  }

  lemma SecondMoves()
    ensures Turn(MovingWorld(), Plainly(), 100.0, Moving(1)) == GoOn(Moving(2))
  {
  }

  lemma ThirdCompletes()
    ensures Completes(MovingWorld(), Plainly(), 100.0, Moving(2), Recorded([1, 2], "b"))
  {
    OneChunk(2);
    assert Yields([[2 as byte]]) == 1 by {
      assert [[2 as byte]][1..] == [];
    }
  }

  /** Two turns that go on, and one that completes. */
  lemma PlaysThrough(w: World, o: Options, deadline: real, s: Loop, next: Loop, last: Loop, f: Fetched)
    requires Live(o, s) && Turn(w, o, deadline, s) == GoOn(next) && Turn(w, o, deadline, next) == GoOn(last)
    requires |last.staged.file| <= o.limit && Completes(w, o, deadline, last, f)
    ensures Succeeds(Play(w, o, deadline, s), f)
  {
    TurnCompletes(w, o, deadline, last, f);
    assert Play(w, o, deadline, last) == Turn(w, o, deadline, last);
    assert Play(w, o, deadline, next) == Play(w, o, deadline, last);
  }

  lemma MixedRun()
    ensures Succeeds(Play(MovingWorld(), Plainly(), 100.0, Start(Plainly(), map[])), Recorded([1, 2], "b"))
  {
    FirstBreaks();
    SecondMoves();
    ThirdCompletes();
    PlaysThrough(MovingWorld(), Plainly(), 100.0, Moving(0), Moving(1), Moving(2), Recorded([1, 2], "b"));
  }

  /**
   * The loop keeps its validator across a redirect. Among honest servers that send all they have, a file with the same
   * date at two URLs is then assembled from both: the download succeeds, and its file is neither representation.
   */
  lemma MixedFile()
    ensures HonestWorld(MovingWorld(), TwoFiles()) && ToTheEnd(MovingWorld())
    ensures Succeeds(Play(MovingWorld(), Plainly(), 100.0, Start(Plainly(), map[])), Recorded([1, 2], "b"))
    ensures TwoFiles()("a", "d") == [1, 1] && TwoFiles()("b", "d") == [2, 2]
  {
    MovingServerIsHonest();
    MixedRun();
  }

  // ---------------------------------------------------------------- ranges that stop short

  /** One more byte of what is there. */
  function ShortRange(rep: seq<byte>, start: nat): Response
    requires start < |rep|
  {
    Response(206, None, None, true, "", "", Some(start), Some(1), [[rep[start]]], EndOfBody, rep)
  }

  /**
   * Honesty and one source do not make a continuation complete: a server may answer an open-ended range with a shorter
   * one and declare its length truthfully. The loop takes that as the end of the file, which is then short of the
   * representation.
   */
  lemma ShortRangeEndsEarly(named: Naming, url: Url, staged: Staged)
    requires staged.validator.Some? && staged.file != []
    requires staged.file <= named(url, staged.validator.value)
             && |staged.file| + 1 < |named(url, staged.validator.value)|
    ensures var rep := named(url, staged.validator.value);
            var r := ShortRange(rep, |staged.file|);
            && Honest(named, RequestFor(url, staged), r) && r.contentLength == Some(|Body(r.chunks)|)
            && Done(staged, Reply(r)) && StagedAfter(staged, Reply(r)).file < rep
  {
    var rep := named(url, staged.validator.value);
    OneChunk(rep[|staged.file|]);
    assert rep == staged.file + rep[|staged.file|..];
  }
}
