/** The DevTools pipe: NUL-separated framing over arbitrary reads, and the routing of replies to their commands. */
module CdpPipe {
  import opened Wrappers

  const MAX_EVENTS := 2000
  const NUL: byte := 0

  // ---------------------------------------------------------------- framing

  function IndexOf(buffer: seq<byte>): (n: nat)
    ensures n <= |buffer| && (n < |buffer| ==> buffer[n] == NUL) && forall i | 0 <= i < n :: buffer[i] != NUL
  {
    if buffer == [] || buffer[0] == NUL then 0 else 1 + IndexOf(buffer[1..])
  }

  /** The non-empty messages that are complete in a stream, in order. */
  function Messages(stream: seq<byte>): seq<seq<byte>>
    decreases |stream|
  {
    var n := IndexOf(stream);
    if n == |stream| then [] else (if n == 0 then [] else [stream[..n]]) + Messages(stream[n + 1..])
  }

  /** What follows the last separator. */
  function Unfinished(stream: seq<byte>): seq<byte>
    decreases |stream|
  {
    var n := IndexOf(stream);
    if n == |stream| then stream else Unfinished(stream[n + 1..])
  }

  lemma {:induction false} IndexOfPrefix(a: seq<byte>, b: seq<byte>)
    requires NUL in a
    ensures IndexOf(a + b) == IndexOf(a) < |a|
  {
    if a[0] != NUL {
      assert (a + b)[1..] == a[1..] + b && a == [a[0]] + a[1..];
      IndexOfPrefix(a[1..], b);
    }
  }

  /** Reading on with the unfinished rest in the buffer gives what one read of everything gives. */
  lemma {:induction false} ReadInTwo(a: seq<byte>, b: seq<byte>)
    ensures Messages(a + b) == Messages(a) + Messages(Unfinished(a) + b)
    ensures Unfinished(a + b) == Unfinished(Unfinished(a) + b)
    decreases |a|
  {
    var n := IndexOf(a);
    if n == |a| {
      assert Messages(a) == [] && Unfinished(a) == a;
    } else {
      IndexOfPrefix(a, b);
      assert (a + b)[..n] == a[..n] && (a + b)[n + 1..] == a[n + 1..] + b;
      ReadInTwo(a[n + 1..], b);
      AppendLater(if n == 0 then [] else [a[..n]], Messages(a[n + 1..]), Messages(Unfinished(a) + b));
    }
  }

  lemma AppendLater<T>(a: seq<T>, b: seq<T>, c: seq<T>)
    ensures a + (b + c) == (a + b) + c
  {
  }

  function Joined(chunks: seq<seq<byte>>): seq<byte> {
    if chunks == [] then [] else Joined(chunks[..|chunks| - 1]) + chunks[|chunks| - 1]
  }

  /** What the writer puts on the pipe: each payload and a NUL. */
  function Frames(payloads: seq<seq<byte>>): seq<byte> {
    if payloads == [] then [] else payloads[0] + [NUL] + Frames(payloads[1..])
  }

  lemma {:induction false} IndexOfFrame(payload: seq<byte>, rest: seq<byte>)
    requires NUL !in payload
    ensures IndexOf(payload + [NUL] + rest) == |payload|
  {
    var s := payload + [NUL] + rest;
    if payload != [] {
      assert s[1..] == payload[1..] + [NUL] + rest;
      IndexOfFrame(payload[1..], rest);
    }
  }

  lemma ReadFrame(payload: seq<byte>, rest: seq<byte>)
    requires NUL !in payload
    ensures Messages(payload + [NUL] + rest) == (if payload == [] then [] else [payload]) + Messages(rest)
    ensures Unfinished(payload + [NUL] + rest) == Unfinished(rest)
  {
    var s := payload + [NUL] + rest;
    IndexOfFrame(payload, rest);
    assert s[..|payload|] == payload && s[|payload| + 1..] == rest;
  }

  function Filled(payloads: seq<seq<byte>>): seq<seq<byte>> {
    if payloads == [] then [] else (if payloads[0] == [] then [] else [payloads[0]]) + Filled(payloads[1..])
  }

  /**
   * Reading inverts writing, and passes over empty frames: of NUL-free payloads and a rest without a NUL, the messages
   * are the payloads that are not empty, and the rest is unfinished.
   */
  lemma {:induction false} ReadInvertsWrite(payloads: seq<seq<byte>>, rest: seq<byte>)
    requires (forall p <- payloads :: NUL !in p) && NUL !in rest
    ensures Messages(Frames(payloads) + rest) == Filled(payloads) && Unfinished(Frames(payloads) + rest) == rest
  {
    if payloads == [] {
      NoneLeft(rest);
      assert Frames(payloads) + rest == rest;
    } else {
      assert payloads[0] in payloads && forall q <- payloads[1..] :: q in payloads;
      var after := Frames(payloads[1..]) + rest;
      assert Frames(payloads) + rest == payloads[0] + [NUL] + after;
      ReadFrame(payloads[0], after);
      ReadInvertsWrite(payloads[1..], rest);
    }
  }

  /** JSON text is never empty and never holds a raw NUL (section 7 of RFC 8259): every payload comes through. */
  lemma {:induction false} EveryPayloadIsRead(payloads: seq<seq<byte>>)
    requires forall p <- payloads :: p != [] && NUL !in p
    ensures Messages(Frames(payloads)) == payloads && Unfinished(Frames(payloads)) == []
  {
    ReadInvertsWrite(payloads, []);
    assert Frames(payloads) + [] == Frames(payloads);
    AllFilled(payloads);
  }

  lemma {:induction false} AllFilled(payloads: seq<seq<byte>>)
    requires forall p <- payloads :: p != []
    ensures Filled(payloads) == payloads
  {
    if payloads != [] {
      assert payloads[0] in payloads && forall q <- payloads[1..] :: q in payloads;
      AllFilled(payloads[1..]);
    }
  }

  /** The reading loop: messages come out one by one, whatever the reads were. */
  method ReadLoop(chunks: seq<seq<byte>>) returns (messages: seq<seq<byte>>, buffer: seq<byte>)
    ensures messages == Messages(Joined(chunks)) && buffer == Unfinished(Joined(chunks))
  {
    messages, buffer := [], [];
    for i := 0 to |chunks|
      invariant messages == Messages(Joined(chunks[..i])) && buffer == Unfinished(Joined(chunks[..i]))
    {
      assert chunks[..i + 1][..i] == chunks[..i];
      ReadInTwo(Joined(chunks[..i]), chunks[i]);
      ghost var before := messages;
      buffer := buffer + chunks[i];
      ghost var pending := buffer;
      while NUL in buffer
        invariant messages + Messages(buffer) == before + Messages(pending)
        invariant Unfinished(buffer) == Unfinished(pending)
        decreases |buffer|
      {
        var n := IndexOf(buffer);
        var raw := buffer[..n];
        var rest := buffer[n + 1..];
        AppendLater(messages, if raw == [] then [] else [raw], Messages(rest));
        buffer := rest;
        if raw == [] {
          assert messages + [] == messages;
          continue;
        }
        messages := messages + [raw];
      }
      NoneLeft(buffer);
      assert messages + [] == messages;
    }
    assert chunks[..|chunks|] == chunks;
  }

  lemma NoneLeft(buffer: seq<byte>)
    requires NUL !in buffer
    ensures Messages(buffer) == [] && Unfinished(buffer) == buffer
  {
  }

  // ---------------------------------------------------------------- routing

  /** A message of the browser: a reply carries the id of its command, an event its method and session. */
  datatype Message = Reply(id: nat, body: string) | Event(name: string, session: Option<string>, body: string)

  datatype State = State(nextId: nat, responses: map<nat, Message>, ignored: set<nat>)

  const START := State(1, map[], {})

  /** What can happen to the routing tables, each under the connection's lock. */
  datatype Step = Issue | IssueQuiet | Deliver(id: nat, body: string) | Take(id: nat)

  function Apply(s: State, step: Step): State {
    match step
    case Issue => s.(nextId := s.nextId + 1)
    case IssueQuiet => s.(nextId := s.nextId + 1, ignored := s.ignored + {s.nextId})
    case Deliver(id, body) =>
      if id in s.ignored then s.(ignored := s.ignored - {id}) else s.(responses := s.responses[id := Reply(id, body)])
    case Take(id) => s.(responses := s.responses - {id})
  }

  function Run(steps: seq<Step>): State {
    if steps == [] then START else Apply(Run(steps[..|steps| - 1]), steps[|steps| - 1])
  }

  /** The identifiers handed out, in order. */
  function Issued(steps: seq<Step>): seq<nat> {
    if steps == [] then []
    else
      var earlier := steps[..|steps| - 1];
      Issued(earlier) + if steps[|steps| - 1].Issue? || steps[|steps| - 1].IssueQuiet? then [Run(earlier).nextId]
        else []
  }

  /** The identifiers of commands nobody waits for. */
  function Quiet(steps: seq<Step>): set<nat> {
    if steps == [] then {}
    else
      var earlier := steps[..|steps| - 1];
      Quiet(earlier) + if steps[|steps| - 1].IssueQuiet? then {Run(earlier).nextId} else {}
  }

  function Answers(steps: seq<Step>, id: nat): nat {
    if steps == [] then 0
    else Answers(steps[..|steps| - 1], id) + if steps[|steps| - 1].Deliver? && steps[|steps| - 1].id == id then 1 else 0
  }

  /** Replies only answer what was asked, and only waiting commands take a response. */
  ghost predicate Orderly(steps: seq<Step>) {
    steps != [] ==>
      var earlier, last := steps[..|steps| - 1], steps[|steps| - 1];
      && Orderly(earlier)
      && (last.Deliver? ==> 1 <= last.id < Run(earlier).nextId)
      && (last.Take? ==> last.id !in Quiet(earlier))
  }

  /** Identifiers count up from 1: none is ever reused. */
  lemma {:induction false} IdsAreFresh(steps: seq<Step>)
    ensures |Issued(steps)| == Run(steps).nextId - 1
    ensures forall i | 0 <= i < |Issued(steps)| :: Issued(steps)[i] == i + 1
  {
    if steps != [] {
      IdsAreFresh(steps[..|steps| - 1]);
    }
  }

  /** Every stored response is a reply that was delivered for the identifier it is stored under. */
  lemma {:induction false} ResponsesAreOwn(steps: seq<Step>, id: nat)
    requires id in Run(steps).responses
    ensures Run(steps).responses[id].Reply? && Run(steps).responses[id].id == id
    ensures Deliver(id, Run(steps).responses[id].body) in steps
  {
    var earlier, last := steps[..|steps| - 1], steps[|steps| - 1];
    assert steps == earlier + [last];
    if last != Deliver(id, Run(steps).responses[id].body) || id in Run(earlier).ignored {
      ResponsesAreOwn(earlier, id);
    }
  }

  lemma {:induction false} QuietWasIssued(steps: seq<Step>)
    ensures forall id <- Quiet(steps) :: 1 <= id < Run(steps).nextId
    ensures Run(steps).nextId >= 1
  {
    if steps != [] {
      QuietWasIssued(steps[..|steps| - 1]);
    }
  }

  lemma {:induction false} NoEarlyAnswer(steps: seq<Step>, id: nat)
    requires Orderly(steps) && id >= Run(steps).nextId
    ensures Answers(steps, id) == 0 && id !in Run(steps).responses && id !in Run(steps).ignored
  {
    if steps != [] {
      NoEarlyAnswer(steps[..|steps| - 1], id);
    }
  }

  /**
   * A reply to a command nobody waits for lands among the responses exactly when the browser answers it more than
   * once: its first answer is the one that is dropped. With at most one answer per command it never lands there.
   */
  lemma {:induction false} QuietRepliesAreDropped(steps: seq<Step>, id: nat)
    requires Orderly(steps) && id in Quiet(steps)
    ensures id in Run(steps).ignored <==> Answers(steps, id) == 0
    ensures id in Run(steps).responses <==> Answers(steps, id) > 1
  {
    var earlier, last := steps[..|steps| - 1], steps[|steps| - 1];
    QuietWasIssued(earlier);
    if id in Quiet(earlier) {
      QuietRepliesAreDropped(earlier, id);
    } else {
      NoEarlyAnswer(earlier, id);
    }
  }

  /** The latest answer to a command since its response was last taken. */
  function Waiting(steps: seq<Step>, id: nat): Option<string> {
    if steps == [] then None
    else
      match steps[|steps| - 1]
      case Deliver(to, body) => if to == id then Some(body) else Waiting(steps[..|steps| - 1], id)
      case Take(whose) => if whose == id then None else Waiting(steps[..|steps| - 1], id)
      case _ => Waiting(steps[..|steps| - 1], id)
  }

  /** The answer to a command somebody waits for is kept under its identifier until it is taken. */
  lemma {:induction false} AnswersAreKept(steps: seq<Step>, id: nat)
    requires Orderly(steps) && id !in Quiet(steps)
    ensures id !in Run(steps).ignored
    ensures match Waiting(steps, id)
            case None => id !in Run(steps).responses
            case Some(body) => id in Run(steps).responses && Run(steps).responses[id] == Reply(id, body)
  {
    if steps != [] {
      AnswersAreKept(steps[..|steps| - 1], id);
    }
  }

  /** The run that shows it: one command nobody waits for, answered twice. */
  lemma AnsweredTwice()
    ensures var steps := [IssueQuiet, Deliver(1, "first"), Deliver(1, "second")];
            Orderly(steps) && 1 in Quiet(steps) && Run(steps).responses == map[1 := Reply(1, "second")]
  {
    var one, two, three := [IssueQuiet], [IssueQuiet, Deliver(1, "first")],
      [IssueQuiet, Deliver(1, "first"), Deliver(1, "second")];
    assert three[..2] == two && two[..1] == one && one[..0] == [];
    assert Run([]) == START && Run(one) == State(2, map[], {1});
    assert Run(two).ignored == {} && Run(two) == State(2, map[], {});
    assert Orderly([]) && Orderly(one) && Orderly(two);
    assert Quiet([]) == {} && Quiet(one) == {1} && Quiet(two) == {1};
  }

  /** The connection's tables, as the reader thread and the callers update them. */
  class Connection {
    var nextId: nat
    var responses: map<nat, Message>
    var ignored: set<nat>
    var events: seq<Message>

    ghost function View(): State
      reads this
    {
      State(nextId, responses, ignored)
    }

    constructor ()
      ensures View() == START && events == []
    {
      nextId, responses, ignored, events := 1, map[], {}, [];
    }

    method Command() returns (id: nat)
      modifies this
      ensures View() == Apply(old(View()), Issue) && id == old(nextId) && events == old(events)
    {
      id := nextId;
      nextId := nextId + 1;
    }

    method CommandNowait() returns (id: nat)
      modifies this
      ensures View() == Apply(old(View()), IssueQuiet) && id == old(nextId) && events == old(events)
    {
      id := nextId;
      nextId := nextId + 1;
      ignored := ignored + {id};
    }

    /** The reader's handling of one message; the event queue drops its oldest entry when it is full. */
    method Receive(message: Message)
      modifies this
      ensures message.Reply? ==>
              View() == Apply(old(View()), Deliver(message.id, message.body)) && events == old(events)
      ensures message.Event? ==> View() == old(View())
      ensures message.Event? && |old(events)| < 2000 ==> events == old(events) + [message]
      ensures message.Event? && |old(events)| >= 2000 ==>
              events == (old(events) + [message])[|old(events)| + 1 - 2000..]
    {
      match message {
        case Reply(id, body) =>
          if id in ignored {
            ignored := ignored - {id};
          } else {
            responses := responses[id := message];
          }
        case Event(_, _, _) =>
          events := events + [message];
          if |events| > MAX_EVENTS {
            events := events[|events| - MAX_EVENTS..];
          }
      }
    }

    /** A waiting command takes its response once it is there, and nobody else's. */
    method TakeResponse(id: nat) returns (r: Option<Message>)
      modifies this
      ensures View() == Apply(old(View()), Take(id)) && events == old(events)
      ensures r == if id in old(responses) then Some(old(responses)[id]) else None
    {
      if id !in responses {
        assert responses - {id} == responses;
        return None;
      }
      r := Some(responses[id]);
      responses := responses - {id};
    }

    static predicate Wanted(e: Message, name: string, session: Option<string>) {
      e.Event? && e.name == name && (session.None? || e.session == session)
    }

    /** One scan for an event: the oldest that matches is removed and returned. */
    method FindEvent(name: string, session: Option<string>) returns (r: Option<Message>)
      modifies this`events
      ensures r.None? ==>
              && events == old(events)
              && forall e <- events :: e.Event? && e.name == name ==> session.Some? && e.session != session
      ensures r.Some? ==>
              && r.value.Event? && r.value.name == name && (session.Some? ==> r.value.session == session)
              && exists i :: 0 <= i < |old(events)| && r.value == old(events)[i]
                            && (forall e <- old(events)[..i] :: e.Event? && e.name == name ==>
                                  session.Some? && e.session != session)
                            && events == old(events)[..i] + old(events)[i + 1..]
    {
      for i := 0 to |events|
        invariant events == old(events)
        invariant forall k | 0 <= k < i :: !Wanted(events[k], name, session)
      {
        if Wanted(events[i], name, session) {
          r := Some(events[i]);
          events := events[..i] + events[i + 1..];
          return;
        }
      }
      return None;
    }
  }
}
