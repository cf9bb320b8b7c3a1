/** The two bounded collectors: the console capture of the renderer and the output collector of an SSH command. */
module Capture {
  import opened Wrappers

  const CAPTURE_HEAD_BYTES := 16 * 1024
  const CAPTURE_TAIL_BYTES := 64 * 1024

  function Joined(chunks: seq<seq<byte>>): seq<byte> {
    if chunks == [] then [] else Joined(chunks[..|chunks| - 1]) + chunks[|chunks| - 1]
  }

  function First(s: seq<byte>, n: nat): seq<byte> { if |s| <= n then s else s[..n] }

  function Last(s: seq<byte>, n: nat): seq<byte> { if |s| <= n then s else s[|s| - n..] }

  /** What of a stream lies behind its head. */
  function Rest(s: seq<byte>): seq<byte> { s[|First(s, CAPTURE_HEAD_BYTES)|..] }

  /** Reads a stream to its end in bounded memory: the first bytes, the last bytes, and how many there were. */
  class BoundedCapture {
    var head: seq<byte>
    var tail: seq<byte>
    var total: nat

    constructor ()
      ensures Holds([])
    {
      head, tail, total := [], [], 0;
    }

    /** The capture of a whole stream, which does not depend on how the stream was cut into reads. */
    ghost predicate Holds(stream: seq<byte>)
      reads this
    {
      && head == First(stream, CAPTURE_HEAD_BYTES)
      && tail == Last(Rest(stream), CAPTURE_TAIL_BYTES)
      && total == |stream|
    }

    method Absorb(chunk0: seq<byte>, ghost stream: seq<byte>)
      requires Holds(stream)
      modifies this
      ensures Holds(stream + chunk0)
    {
      var chunk := chunk0;
      total := total + |chunk|;
      SplitAtHead(stream, chunk0);
      var room := CAPTURE_HEAD_BYTES - |head|;
      if room > 0 {
        head := head + First(chunk, room);
        chunk := if |chunk| <= room then [] else chunk[room..];
      } else {
        assert head + First(chunk0, room) == head && chunk0[room..] == chunk0;
      }
      assert head == First(stream + chunk0, CAPTURE_HEAD_BYTES) && Rest(stream + chunk0) == Rest(stream) + chunk;
      LastOfLast(Rest(stream), chunk, CAPTURE_TAIL_BYTES);
      if chunk != [] {
        tail := tail + chunk;
        if |tail| > CAPTURE_TAIL_BYTES {
          tail := tail[|tail| - CAPTURE_TAIL_BYTES..];
        }
      } else {
        assert tail + chunk == tail;
      }
    }

    method Run(chunks: seq<seq<byte>>)
      requires Holds([])
      modifies this
      ensures Holds(Joined(chunks))
    {
      for i := 0 to |chunks|
        invariant Holds(Joined(chunks[..i]))
      {
        assert chunks[..i + 1][..i] == chunks[..i];
        Absorb(chunks[i], Joined(chunks[..i]));
      }
      assert chunks[..|chunks|] == chunks;
    }

    /** What text() reports: how much lies between head and tail, and whether anything does. */
    method Omitted(ghost stream: seq<byte>) returns (omitted: nat, truncated: bool)
      requires Holds(stream)
      ensures truncated <==> |stream| > 80 * 1024
      ensures |head| == if |stream| < 16 * 1024 then |stream| else 16 * 1024
      ensures |tail| == if |stream| < 80 * 1024 then |stream| - |head| else 64 * 1024
      ensures |head| + omitted + |tail| == |stream|
      ensures head + stream[|head|..|head| + omitted] + tail == stream
    {
      truncated := total > |head| + |tail|;
      omitted := total - |head| - |tail|;
    }
  }

  /** How one read is divided between the head and what lies behind it. */
  lemma SplitAtHead(stream: seq<byte>, chunk: seq<byte>)
    ensures var head := First(stream, CAPTURE_HEAD_BYTES);
            var room := CAPTURE_HEAD_BYTES - |head|;
            && First(stream + chunk, CAPTURE_HEAD_BYTES) == head + First(chunk, room)
            && Rest(stream + chunk) == Rest(stream) + if |chunk| <= room then [] else chunk[room..]
  {
  }

  /** Cutting to the tail early loses nothing that a later cut would keep. */
  lemma LastOfLast(a: seq<byte>, b: seq<byte>, n: nat)
    ensures Last(Last(a, n) + b, n) == Last(a + b, n)
  {
  }

  // ---------------------------------------------------------------- SSH output

  /** The streams a collected chunk can come from. */
  datatype Stream = StdOut | StdErr

  datatype Event = Event(stream: Stream, chunk: seq<byte>)

  function Sent(events: seq<Event>, stream: Stream): seq<byte> {
    if events == [] then []
    else
      var last := events[|events| - 1];
      Sent(events[..|events| - 1], stream) + if last.stream == stream then last.chunk else []
  }

  /** An empty chunk that arrives on a stream already at its limit. */
  ghost predicate EmptyWhenFull(events: seq<Event>, limit: nat) {
    exists i :: 0 <= i < |events| && events[i].chunk == [] && |Sent(events[..i], events[i].stream)| >= limit
  }

  /** What marks a result as truncated. */
  ghost predicate Overflow(events: seq<Event>, limit: nat) {
    |Sent(events, StdOut)| > limit || |Sent(events, StdErr)| > limit || EmptyWhenFull(events, limit)
  }

  class Collector {
    const limit: nat
    var out: seq<byte>
    var err: seq<byte>
    var truncated: bool

    constructor (limit: nat)
      ensures this.limit == limit && out == [] && err == [] && !truncated
    {
      this.limit := limit;
      out, err, truncated := [], [], false;
    }

    /** Appends what still fits; anything else, and anything at all once full, marks the result as truncated. */
    method Push(kept: seq<byte>, chunk: seq<byte>) returns (more: seq<byte>)
      requires |kept| <= limit
      modifies this`truncated
      ensures more == First(kept + chunk, limit)
      ensures truncated == (old(truncated) || |kept + chunk| > limit || (chunk == [] && |kept| >= limit))
    {
      if |kept| >= limit {
        truncated := true;
        return kept;
      }
      var room := limit - |kept|;
      more := kept + First(chunk, room);
      if |chunk| > room {
        truncated := true;
      }
    }

    /**
     * Each stream keeps exactly its first limit bytes, and the result is marked truncated exactly when a stream
     * exceeded the limit or an empty chunk arrived on a full one.
     */
    method Collect(events: seq<Event>)
      requires out == [] && err == [] && !truncated
      modifies this
      ensures out == First(Sent(events, StdOut), limit) && err == First(Sent(events, StdErr), limit)
      ensures truncated <==> Overflow(events, limit)
    {
      for i := 0 to |events|
        invariant out == First(Sent(events[..i], StdOut), limit) && err == First(Sent(events[..i], StdErr), limit)
        invariant truncated <==> Overflow(events[..i], limit)
      {
        OneMore(events, i, limit);
        match events[i].stream {
          case StdOut => out := Push(out, events[i].chunk);
          case StdErr => err := Push(err, events[i].chunk);
        }
      }
      assert events[..|events|] == events;
    }
  }

  /**
   * The output that shows it: one byte under a limit of one, then an empty chunk. Nothing is lost, and the result is
   * marked.
   */
  lemma EmptyChunkMarks()
    ensures var events := [Event(StdOut, [7]), Event(StdOut, [])];
            && Sent(events, StdOut) == First(Sent(events, StdOut), 1) == [7] && Sent(events, StdErr) == []
            && Overflow(events, 1) && !Overflow(events[..1], 1)
  {
    var events := [Event(StdOut, [7]), Event(StdOut, [])];
    var first := [Event(StdOut, [7])];
    assert events[..1] == first && first[..0] == [];
    assert Sent(first, StdOut) == [7] && Sent(first, StdErr) == [];
    assert events[1].chunk == [] && |Sent(events[..1], events[1].stream)| >= 1;
  }

  lemma FirstOfFirst(a: seq<byte>, b: seq<byte>, n: nat)
    ensures First(First(a, n) + b, n) == First(a + b, n)
  {
  }

  /** What one more chunk does to the streams, seen from the bytes kept. */
  lemma OneMore(events: seq<Event>, i: nat, limit: nat)
    requires i < |events|
    ensures var e := events[i];
            var kept := First(Sent(events[..i], e.stream), limit);
            && First(Sent(events[..i + 1], e.stream), limit) == First(kept + e.chunk, limit)
            && (e.stream == StdErr ==> Sent(events[..i + 1], StdOut) == Sent(events[..i], StdOut))
            && (e.stream == StdOut ==> Sent(events[..i + 1], StdErr) == Sent(events[..i], StdErr))
            && (Overflow(events[..i + 1], limit) <==>
                  Overflow(events[..i], limit) || |kept + e.chunk| > limit || (e.chunk == [] && |kept| >= limit))
  {
    assert events[..i + 1][..i] == events[..i];
    FirstOfFirst(Sent(events[..i], events[i].stream), events[i].chunk, limit);
    EmptyGrows(events, i, limit);
  }

  lemma EmptyGrows(events: seq<Event>, i: nat, limit: nat)
    requires i < |events|
    ensures EmptyWhenFull(events[..i + 1], limit) <==>
            EmptyWhenFull(events[..i], limit)
              || (events[i].chunk == [] && |Sent(events[..i], events[i].stream)| >= limit)
  {
    var more := events[..i + 1];
    assert forall k | 0 <= k <= i :: more[..k] == events[..k] && (k < i ==> events[..i][..k] == events[..k]);
    if EmptyWhenFull(events[..i], limit) {
      var k :| 0 <= k < i && events[..i][k].chunk == [] && |Sent(events[..i][..k], events[..i][k].stream)| >= limit;
      assert more[k].chunk == [] && |Sent(more[..k], more[k].stream)| >= limit;
    }
    if events[i].chunk == [] && |Sent(events[..i], events[i].stream)| >= limit {
      assert more[i].chunk == [] && |Sent(more[..i], more[i].stream)| >= limit;
    }
    if EmptyWhenFull(more, limit) {
      var k :| 0 <= k < |more| && more[k].chunk == [] && |Sent(more[..k], more[k].stream)| >= limit;
      if k < i {
        assert events[..i][k].chunk == [] && |Sent(events[..i][..k], events[..i][k].stream)| >= limit;
      }
    }
  }
}
