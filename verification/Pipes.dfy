/** Pipes between tasks: a byte stream over messages of at most sixteen bytes (Kernel/terminal.cpp). */
module Pipes {
  import opened Bounds
  import opened Messages
  import opened Options

  const CHUNK := 16

  function BytesOf(m: Message): seq<byte> {
    if m.Pipe? then m.data else []
  }

  /** The bytes of the pipe messages of a queue; other messages carry none. */
  function QueueBytes(queue: seq<Message>): seq<byte> {
    if queue == [] then [] else BytesOf(queue[0]) + QueueBytes(queue[1..])
  }

  lemma {:induction false} QueueAppend(queue: seq<Message>, m: Message)
    ensures QueueBytes(queue + [m]) == QueueBytes(queue) + BytesOf(m)
  {
    if queue == [] {
      assert [] + [m] == [m] && [m][1..] == [];
    } else {
      assert (queue + [m])[1..] == queue[1..] + [m];
      QueueAppend(queue[1..], m);
      Associate(BytesOf(queue[0]), QueueBytes(queue[1..]), BytesOf(m));
    }
  }

  /** Chunks of one to sixteen bytes; the message that ends the stream is empty, and no pipe message follows it. */
  ghost predicate QueueOk(queue: seq<Message>, ended: bool) {
    && (forall i | 0 <= i < |queue| && queue[i].Pipe? :: |queue[i].data| <= CHUNK)
    && (forall i, j | 0 <= i < j < |queue| && queue[i].Pipe? && queue[j].Pipe? :: queue[i].data != [])
    && (ended <==> EndIn(queue))
  }

  ghost predicate EndIn(queue: seq<Message>) {
    exists i :: 0 <= i < |queue| && queue[i] == Pipe([])
  }

  lemma {:induction false} NoBytes(queue: seq<Message>)
    requires forall i | 0 <= i < |queue| :: !queue[i].Pipe?
    ensures QueueBytes(queue) == []
  {
    if queue != [] {
      NoBytes(queue[1..]);
    }
  }

  /** What a call of Read is doing: nothing is going on, or it waits for a message, for so many bytes. */
  datatype Reader = Idle | Waiting(len: nat)

  /** The steps of writer, reader and others, in any order. */
  datatype Event = Chunk(data: seq<byte>) | End | Unrelated(tag: nat) | CallRead(len: nat) | Proceed

  datatype State = State(msgs: seq<Message>, data: seq<byte>, closed: bool, reader: Reader, finished: bool)

  const START := State([], [], false, Idle, false)

  /** One step, and what a call of Read returns if the step ends it; a call that is not possible is not made. */
  function Next(s: State, e: Event): (State, Option<seq<byte>>) {
    match e
    case Chunk(data) =>
      (if !s.finished && 1 <= |data| <= CHUNK then s.(msgs := s.msgs + [Pipe(data)]) else s, None)
    case End => (if s.finished then s else s.(msgs := s.msgs + [Pipe([])], finished := true), None)
    case Unrelated(tag) => (s.(msgs := s.msgs + [Other(tag)]), None)
    case CallRead(len) =>
      if s.reader != Idle then (s, None)
      else if s.data != [] then
        var n := Min(|s.data|, len);
        (s.(data := s.data[n..]), Some(s.data[..n]))
      else if s.closed then (s, Some([]))
      else (s.(reader := Waiting(len)), None)
    case Proceed =>
      if !s.reader.Waiting? || s.msgs == [] then (s, None)
      else
        var s' := s.(msgs := s.msgs[1..]);
        if !s.msgs[0].Pipe? then (s', None)
        else if s.msgs[0].data == [] then (s'.(closed := true, reader := Idle), Some([]))
        else
          var piece := s.msgs[0].data;
          var n := Min(|piece|, s.reader.len);
          (s'.(data := piece[n..], reader := Idle), Some(piece[..n]))
  }

  class PipeDescriptor {
    var msgs: seq<Message>
    var data: seq<byte>
    var closed: bool
    var reader: Reader
    ghost var written: seq<byte>
    ghost var returned: seq<byte>
    ghost var finished: bool

    constructor ()
      ensures Valid() && written == [] && returned == [] && !finished && !closed && reader == Idle && msgs == []
      ensures data == []
    {
      msgs, data, closed, reader := [], [], false, Idle;
      written, returned, finished := [], [], false;
    }

    ghost function Now(): State
      reads this
    {
      State(msgs, data, closed, reader, finished)
    }

    /** What was written is what was returned, what is buffered and what is under way. */
    ghost predicate Valid()
      reads this
    {
      && written == returned + data + QueueBytes(msgs)
      && |data| <= CHUNK && QueueOk(msgs, finished && !closed)
      && (closed ==> finished && data == [] && forall i | 0 <= i < |msgs| :: !msgs[i].Pipe?)
      && (reader.Waiting? ==> data == [] && !closed)
    }

    /** The stream is in order at any time: what has been returned is a prefix of what was written, and all of it once
        the end has been seen. */
    lemma StreamInOrder()
      requires Valid()
      ensures returned <= written && (closed ==> returned == written)
    {
      if closed {
        NoBytes(msgs);
      }
    }

    lemma NowIs()
      requires Valid()
      ensures Now() == State(msgs, data, closed, reader, finished) && (closed ==> finished)
    {
    }

    lemma StartIs()
      requires msgs == [] && data == [] && !closed && reader == Idle && !finished
      ensures Now() == START
    {
    }

    /** Task::SendMessage to the reading task, by anyone. */
    method Post(m: Message)
      requires Valid() && !m.Pipe?
      modifies `msgs
      ensures Valid() && msgs == old(msgs) + [m]
    {
      QueueAppend(msgs, m);
      SameEnd(msgs, m);
      msgs := msgs + [m];
    }

    lemma SameEnd(queue: seq<Message>, m: Message)
      requires m != Pipe([])
      ensures EndIn(queue + [m]) <==> EndIn(queue)
    {
      if EndIn(queue) {
        var i :| 0 <= i < |queue| && queue[i] == Pipe([]);
        assert (queue + [m])[i] == Pipe([]);
      }
    }

    /** One turn of the loop of Write. */
    method SendChunk(chunk: seq<byte>)
      requires Valid() && !finished && 1 <= |chunk| <= CHUNK
      modifies `msgs, `written
      ensures Valid() && written == old(written) + chunk && msgs == old(msgs) + [Pipe(chunk)]
    {
      QueueAppend(msgs, Pipe(chunk));
      SameEnd(msgs, Pipe(chunk));
      Associate(returned + data, QueueBytes(msgs), chunk);
      msgs := msgs + [Pipe(chunk)];
      written := written + chunk;
    }

    /** PipeDescriptor::Write, without other steps in between. */
    method Write(buf: seq<byte>) returns (len: nat)
      requires Valid() && !finished
      modifies `msgs, `written
      ensures Valid() && len == |buf| && written == old(written) + buf
    {
      var sent := 0;
      assert buf[..0] == [];
      while sent < |buf|
        invariant 0 <= sent <= |buf| && Valid() && written == old(written) + buf[..sent]
      {
        var n := if |buf| - sent < CHUNK then |buf| - sent else CHUNK;
        SendChunk(buf[sent..sent + n]);
        assert buf[..sent] + buf[sent..sent + n] == buf[..sent + n];
        sent := sent + n;
      }
      assert buf[..sent] == buf;
      return |buf|;
    }

    method FinishWrite()
      requires Valid() && !finished
      modifies `msgs, `finished
      ensures Valid() && finished && msgs == old(msgs) + [Pipe([])]
    {
      QueueAppend(msgs, Pipe([]));
      ghost var queue := msgs + [Pipe([])];
      assert queue[|msgs|] == Pipe([]);
      forall i, j | 0 <= i < j < |queue| && queue[i].Pipe? && queue[j].Pipe?
        ensures queue[i].data != []
      {
        assert queue[i] == msgs[i];
        assert !EndIn(msgs);
      }
      msgs := msgs + [Pipe([])];
      finished := true;
    }

    /** The first part of Read: buffered bytes, or the end that has been seen, or it starts to wait. */
    method BeginRead(len: nat) returns (done: bool, out: seq<byte>)
      requires Valid() && reader == Idle
      modifies `data, `reader, `returned
      ensures Valid() && returned == old(returned) + out && (!done ==> out == [])
      ensures (Now(), if done then Some(out) else None) == Next(old(Now()), CallRead(len))
      ensures done && len > 0 && out == [] ==> closed
    {
      if |data| > 0 {
        var n := if |data| < len then |data| else len;
        out := data[..n];
        Pieces(returned, data, n, QueueBytes(msgs));
        hide QueueBytes, QueueOk;
        data := data[n..];
        returned := returned + out;
        return true, out;
      }
      if closed {
        return true, [];
      }
      reader := Waiting(len);
      return false, [];
    }

    /** One turn of the loop of Read: sleeps without a message, drops those of other kinds, and returns what a pipe message
        brings. */
    method Receive() returns (done: bool, out: seq<byte>)
      requires Valid() && reader.Waiting?
      modifies `msgs, `data, `closed, `reader, `returned
      ensures Valid() && returned == old(returned) + out && (!done ==> out == [])
      ensures (Now(), if done then Some(out) else None) == Next(old(Now()), Proceed)
      ensures done && old(reader).len > 0 && out == [] ==> closed
    {
      if |msgs| == 0 {
        return false, [];
      }
      var msg := msgs[0];
      PopFacts(msgs);
      hide QueueBytes, EndIn;
      msgs := msgs[1..];
      if !msg.Pipe? {
        return false, [];
      }
      if msg.data == [] {
        closed, reader := true, Idle;
        return true, [];
      }
      var n := if |msg.data| < reader.len then |msg.data| else reader.len;
      out := msg.data[..n];
      data := msg.data[n..];
      Pieces(returned, msg.data, n, QueueBytes(msgs));
      reader := Idle;
      returned := returned + out;
      done := true;
    }

    lemma Pieces(before: seq<byte>, piece: seq<byte>, n: nat, rest: seq<byte>)
      requires n <= |piece|
      ensures before + [] + (piece + rest) == before + piece[..n] + piece[n..] + rest
      ensures before + piece + rest == before + piece[..n] + piece[n..] + rest
    {
    }

    lemma PopFacts(queue: seq<Message>)
      requires queue != []
      ensures QueueBytes(queue) == BytesOf(queue[0]) + QueueBytes(queue[1..])
      ensures queue[0] != Pipe([]) ==> (EndIn(queue[1..]) <==> EndIn(queue))
    {
      if queue[0] != Pipe([]) && EndIn(queue) {
        var i :| 0 <= i < |queue| && queue[i] == Pipe([]);
        assert queue[1..][i - 1] == Pipe([]);
      }
    }
  }

  /** How many bytes the read that a step goes on with is for; 0 if there is none. */
  function ReadLength(e: Event, reader: Reader): nat {
    match e
    case CallRead(len) => if reader == Idle then len else 0
    case Proceed => if reader.Waiting? then reader.len else 0
    case _ => 0
  }

  method Step(p: PipeDescriptor, e: Event, finished: bool) returns (r: Option<seq<byte>>)
    requires p.Valid() && finished == p.finished
    modifies p
    ensures p.Valid() && (p.Now(), r) == Next(old(p.Now()), e)
    ensures p.returned == old(p.returned) + BytesReturned(r) && p.written == old(p.written) + Sent(e, finished)
    ensures p.finished == (finished || e.End?) && (old(p.closed) ==> p.closed)
    ensures r == Some([]) && ReadLength(e, old(p.reader)) > 0 ==> p.closed
  {
    hide PipeDescriptor.Valid;
    r := None;
    match e {
      case Chunk(data) =>
        if !finished && 1 <= |data| <= CHUNK {
          p.SendChunk(data);
        }
      case End =>
        if !finished {
          p.FinishWrite();
        }
      case Unrelated(tag) =>
        p.Post(Other(tag));
      case CallRead(len) =>
        if p.reader == Idle {
          var done, out := p.BeginRead(len);
          if done {
            r := Some(out);
          }
        }
      case Proceed =>
        if p.reader.Waiting? {
          var done, out := p.Receive();
          if done {
            r := Some(out);
          }
        }
    }
  }

  function BytesReturned(r: Option<seq<byte>>): seq<byte> {
    if r.Some? then r.value else []
  }

  /** All bytes the first n results brought. */
  function AllReturned(results: seq<Option<seq<byte>>>, n: nat): seq<byte>
    requires n <= |results|
  {
    if n == 0 then [] else AllReturned(results, n - 1) + BytesReturned(results[n - 1])
  }

  function Sent(e: Event, finished: bool): seq<byte> {
    if e.Chunk? && !finished && 1 <= |e.data| <= CHUNK then e.data else []
  }

  /** The bytes a run of events writes: chunks up to the end. */
  function Written(events: seq<Event>, finished: bool): seq<byte>
    decreases |events|
  {
    if events == [] then [] else Sent(events[0], finished) + Written(events[1..], finished || events[0].End?)
  }

  /** What is written are the chunks of one to sixteen bytes that come before the end, in their order. */
  lemma {:induction false} WrittenIs(a: seq<Event>, b: seq<Event>)
    requires forall i | 0 <= i < |a| :: !a[i].End?
    ensures Written(a + b, false) == Written(a, false) + Written(b, false)
    decreases |a|
  {
    hide Sent;
    if a == [] {
      assert a + b == b;
    } else {
      WrittenIs(a[1..], b);
      assert (a + b)[1..] == a[1..] + b;
      Associate(Sent(a[0], false), Written(a[1..], false), Written(b, false));
    }
  }

  lemma FirstWritten(data: seq<byte>, events: seq<Event>)
    ensures Written([], false) == []
    ensures Written([Chunk(data)], false) == if 1 <= |data| <= 16 then data else []
    ensures events != [] && !events[0].Chunk? ==>
      Written(events, false) == if events[0].End? then [] else Written(events[1..], false)
  {
    assert [Chunk(data)][1..] == [];
    if events != [] {
      NothingAfterEnd(events[1..]);
    }
  }

  lemma WrittenNext(before: seq<byte>, events: seq<Event>, i: nat, finished: bool)
    requires i < |events|
    ensures before + Written(events[i..], finished) ==
      before + Sent(events[i], finished) + Written(events[i + 1..], finished || events[i].End?)
  {
    assert events[i..][0] == events[i] && events[i..][1..] == events[i + 1..];
  }

  /** In any run, every step does what it should, and what the reads return is a prefix of what is written. A read of more
      than no bytes returns none if and only if the end has been written and everything has been returned. */
  method Run(events: seq<Event>) returns (results: seq<Option<seq<byte>>>, ghost states: seq<State>)
    ensures |results| == |events| && |states| == |events| + 1 && states[0] == START
    ensures forall i {:trigger events[i]} | 0 <= i < |events| :: (states[i + 1], results[i]) == Next(states[i], events[i])
    ensures AllReturned(results, |results|) <= Written(events, false)
    ensures forall i | 0 <= i < |events| && results[i].Some? && ReadLength(events[i], states[i].reader) > 0 ::
      results[i].value == [] <==> states[i].finished && AllReturned(results, i) == Written(events, false)
  {
    hide *;
    var p := new PipeDescriptor();
    results, states := [], [p.Now()];
    var i, finished := 0, false;
    p.StartIs();
    NothingYet(results);
    assert events[0..] == events;
    while i < |events|
      invariant 0 <= i <= |events| && p.Valid() && fresh(p) && |results| == i && finished == p.finished
      invariant |states| == i + 1 && states[0] == START && states[i] == p.Now()
      invariant p.returned == AllReturned(results, i) && p.written + Written(events[i..], p.finished) == Written(events, false)
      invariant forall j {:trigger events[j]} | 0 <= j < i :: (states[j + 1], results[j]) == Next(states[j], events[j])
      invariant forall j | 0 <= j < i && results[j].Some? && ReadLength(events[j], states[j].reader) > 0 ::
        results[j].value == [] <==> states[j].finished && AllReturned(results, j) == Written(events, false)
    {
      ghost var before, all := p.returned, Written(events, false);
      WrittenNext(p.written, events, i, p.finished);
      p.NowIs();
      var r := Step(p, events[i], finished);
      finished := finished || events[i].End?;
      p.NowIs();
      p.StreamInOrder();
      ReadIsNoEnd(events[i], states[i].reader);
      EndSeen(before, p.returned, p.written, events[i + 1..], p.finished, all, r, p.closed);
      ReturnedNext(results, r);
      results, states := results + [r], states + [p.Now()];
      i := i + 1;
    }
    NoneLeft(p.written, events[i..], p.finished);
    p.StreamInOrder();
  }

  lemma ReadIsNoEnd(e: Event, reader: Reader)
    ensures ReadLength(e, reader) > 0 ==> !e.End?
  {
  }

  lemma NothingYet(results: seq<Option<seq<byte>>>)
    ensures AllReturned(results, 0) == []
  {
  }

  lemma {:induction false} ReturnedPrefix(results: seq<Option<seq<byte>>>, more: seq<Option<seq<byte>>>, n: nat)
    requires n <= |results| && results <= more
    ensures AllReturned(more, n) == AllReturned(results, n)
  {
    if n > 0 {
      ReturnedPrefix(results, more, n - 1);
    }
  }

  lemma ReturnedNext(results: seq<Option<seq<byte>>>, r: Option<seq<byte>>)
    ensures forall j | 0 <= j <= |results| :: AllReturned(results + [r], j) == AllReturned(results, j)
    ensures AllReturned(results + [r], |results| + 1) == AllReturned(results, |results|) + BytesReturned(r)
  {
    forall j | 0 <= j <= |results|
      ensures AllReturned(results + [r], j) == AllReturned(results, j)
    {
      ReturnedPrefix(results, results + [r], j);
    }
  }

  /** Nothing is returned behind the end of all that is written; and once the end is seen, that is all. */
  lemma EndSeen(before: seq<byte>, returned: seq<byte>, written: seq<byte>, rest: seq<Event>, finished: bool, all: seq<byte>,
                r: Option<seq<byte>>, closed: bool)
    requires written + Written(rest, finished) == all && returned == before + BytesReturned(r) && returned <= written
    requires closed ==> returned == written && finished
    ensures r.Some? && before == all ==> r.value == []
    ensures r == Some([]) && closed ==> before == all
  {
    if closed {
      NothingAfterEnd(rest);
    }
  }

  lemma {:induction false} NothingAfterEnd(events: seq<Event>)
    ensures Written(events, true) == []
    decreases |events|
  {
    if events != [] {
      NothingAfterEnd(events[1..]);
    }
  }

  lemma NoneLeft(before: seq<byte>, events: seq<Event>, finished: bool)
    requires events == []
    ensures before + Written(events, finished) == before
  {
  }

  /** A read of no bytes with nothing buffered takes a message too, and returns none although the end is not there. */
  method ReadOfNothing() returns (out: seq<byte>, closed: bool)
    ensures out == [] && !closed
  {
    var p := new PipeDescriptor();
    p.SendChunk([65]);
    var done, none := p.BeginRead(0);
    var received;
    received, out := p.Receive();
    closed := p.closed;
  }
}
