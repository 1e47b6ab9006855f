/** Pipes between tasks: a stream of bytes, cut into messages of at most sixteen, over a queue that other
    senders use too. */
module Pipes {
  import opened Wrappers

  const CHUNK := 16

  /** A message of a pipe without bytes closes it. */
  datatype Message = PipeData(bytes: seq<byte>) | Other(kind: nat)

  datatype Pipe = Pipe(data: seq<byte>, closed: bool, msgs: seq<Message>)

  /** The bytes in the messages, up to the one that closes the pipe. */
  function Stream(msgs: seq<Message>): seq<byte> {
    if msgs == [] then []
    else match msgs[0]
      case Other(_) => Stream(msgs[1..])
      case PipeData(b) => if b == [] then [] else b + Stream(msgs[1..])
  }

  predicate Closes(msgs: seq<Message>) {
    exists i :: 0 <= i < |msgs| && msgs[i] == PipeData([])
  }

  /** What the reader has still to receive. */
  function Unread(p: Pipe): seq<byte> {
    p.data + if p.closed then [] else Stream(p.msgs)
  }

  predicate Finished(p: Pipe) { p.closed || Closes(p.msgs) }

  /** The messages of PipeDescriptor::Write. */
  function Chunks(buf: seq<byte>): seq<Message>
    decreases |buf|
  {
    if buf == [] then []
    else var n := Min(|buf|, CHUNK); [PipeData(buf[..n])] + Chunks(buf[n..])
  }

  /** PipeDescriptor::Read once it looks at messages; None while it waits for one. */
  function ReadMessages(p: Pipe, len: nat): (Option<seq<byte>>, Pipe)
    decreases |p.msgs|
  {
    if p.msgs == [] then (None, p)
    else
      var rest := p.msgs[1..];
      match p.msgs[0]
      case Other(_) => ReadMessages(p.(msgs := rest), len)
      case PipeData(b) =>
        if b == [] then (Some([]), p.(closed := true, msgs := rest))
        else (Some(b[..Min(len, |b|)]), p.(data := b[Min(len, |b|)..], msgs := rest))
  }

  /** PipeDescriptor::Read. */
  function Read(p: Pipe, len: nat): (Option<seq<byte>>, Pipe) {
    if p.data != [] then
      var n := Min(|p.data|, len);
      (Some(p.data[..n]), p.(data := p.data[n..]))
    else if p.closed then (Some([]), p)
    else ReadMessages(p, len)
  }

  lemma {:induction false} StreamAppend(msgs: seq<Message>, more: seq<Message>)
    requires !Closes(msgs)
    ensures Stream(msgs + more) == Stream(msgs) + Stream(more)
  {
    if msgs == [] {
      assert msgs + more == more;
    } else {
      assert (msgs + more)[1..] == msgs[1..] + more;
      assert forall i :: 0 <= i < |msgs[1..]| ==> msgs[1..][i] == msgs[i + 1];
      StreamAppend(msgs[1..], more);
    }
  }

  /** The messages carry the buffer, cut into pieces that fit. */
  lemma {:induction false} ChunksCarry(buf: seq<byte>)
    ensures Stream(Chunks(buf)) == buf && !Closes(Chunks(buf))
    ensures forall m <- Chunks(buf) :: m.PipeData? && 0 < |m.bytes| <= CHUNK
    decreases |buf|
  {
    if buf != [] {
      var n := Min(|buf|, CHUNK);
      ChunksCarry(buf[n..]);
      assert Chunks(buf)[1..] == Chunks(buf[n..]);
      assert forall i :: 1 <= i < |Chunks(buf)| ==> Chunks(buf)[i] == Chunks(buf[n..])[i - 1];
      assert buf == buf[..n] + buf[n..];
    }
  }

  lemma {:induction false} ReadMessagesFlow(p: Pipe, len: nat)
    requires p.data == [] && !p.closed
    ensures var (r, q) := ReadMessages(p, len);
      && Finished(q) == Finished(p)
      && (r == None ==> Unread(q) == Unread(p) && q.msgs == [] && q.data == [] && !q.closed)
      && (r.Some? ==> Unread(p) == r.value + Unread(q) && |r.value| <= len && (r.value == [] && len > 0 ==> q.closed && q.data == []))
    decreases |p.msgs|
  {
    if p.msgs != [] {
      var rest := p.msgs[1..];
      assert p.msgs == [p.msgs[0]] + rest;
      assert Closes(p.msgs) <==> p.msgs[0] == PipeData([]) || Closes(rest) by {
        assert forall i :: 0 <= i < |rest| ==> rest[i] == p.msgs[i + 1];
        assert Closes(rest) ==> exists i :: 0 < i < |p.msgs| && p.msgs[i] == PipeData([]);
      }
      match p.msgs[0]
      case Other(_) => ReadMessagesFlow(p.(msgs := rest), len);
      case PipeData(b) => assert b == b[..Min(len, |b|)] + b[Min(len, |b|)..];
    }
  }

  /** A read takes bytes off the front of the stream; it gives none, when asked for some, only at the end. */
  lemma ReadFlow(p: Pipe, len: nat)
    ensures var (r, q) := Read(p, len);
      && Finished(q) == Finished(p)
      && (r == None ==> Unread(q) == Unread(p) && !Finished(p))
      && (r.Some? ==> Unread(p) == r.value + Unread(q) && |r.value| <= len)
      && (r == Some([]) && len > 0 ==> Finished(p) && Unread(p) == [])
      && (p.data != [] ==> r.Some? && |r.value| == Min(|p.data|, len) && q.msgs == p.msgs && q.closed == p.closed)
  {
    if p.data != [] {
      var n := Min(|p.data|, len);
      assert p.data == p.data[..n] + p.data[n..];
    } else if !p.closed {
      ReadMessagesFlow(p, len);
    }
  }

  /** The messages of a write are full, but for the last. */
  lemma {:induction false} ChunksFull(buf: seq<byte>, i: nat)
    requires i < |Chunks(buf)|
    ensures i + 1 < |Chunks(buf)| ==> Chunks(buf)[i].PipeData? && |Chunks(buf)[i].bytes| == CHUNK
    ensures CHUNK * (|Chunks(buf)| - 1) < |buf| <= CHUNK * |Chunks(buf)|
    decreases |buf|
  {
    var n := Min(|buf|, CHUNK);
    var rest := Chunks(buf[n..]);
    assert Chunks(buf) == [PipeData(buf[..n])] + rest;
    if rest != [] {
      ChunksFull(buf[n..], if i > 0 then i - 1 else 0);
      assert i > 0 ==> Chunks(buf)[i] == rest[i - 1];
    }
  }

  /** How much a read gives: all that is left of the last message, or else all of the next message of the pipe,
      as far as it was asked for. It waits only while there is no such message. */
  lemma {:induction false} ReadAmount(p: Pipe, len: nat, i: nat)
    requires p.data == [] && !p.closed && i <= |p.msgs| && forall j :: 0 <= j < i ==> p.msgs[j].Other?
    ensures i == |p.msgs| ==> Read(p, len).0 == None
    ensures i < |p.msgs| && p.msgs[i].PipeData? ==>
      var b, n := p.msgs[i].bytes, Min(len, |p.msgs[i].bytes|);
      Read(p, len) == (Some(b[..n]), Pipe(b[n..], b == [], p.msgs[i + 1..]))
    decreases i
  {
    if i > 0 {
      var rest := p.(msgs := p.msgs[1..]);
      ReadAmount(rest, len, i - 1);
      assert i < |p.msgs| ==> rest.msgs[i..] == p.msgs[i + 1..];
    }
  }

  /** A message arrives for the reader; the writer sends nothing after it has closed the pipe. */
  datatype Event = Arrive(msg: Message) | ReadCall(len: nat)

  datatype World = World(pipe: Pipe, written: seq<byte>, received: seq<byte>)

  predicate Enabled(w: World, e: Event) {
    e.Arrive? && e.msg.PipeData? ==> !Finished(w.pipe)
  }

  function Step(w: World, e: Event): World {
    match e
    case Arrive(m) =>
      w.(pipe := w.pipe.(msgs := w.pipe.msgs + [m]), written := w.written + if m.PipeData? then m.bytes else [])
    case ReadCall(len) =>
      var (r, q) := Read(w.pipe, len);
      w.(pipe := q, received := w.received + if r.Some? then r.value else [])
  }

  predicate RunOk(w: World, es: seq<Event>)
    decreases |es|
  {
    es == [] || (Enabled(w, es[0]) && RunOk(Step(w, es[0]), es[1..]))
  }

  function Run(w: World, es: seq<Event>): World
    decreases |es|
  {
    if es == [] then w else Run(Step(w, es[0]), es[1..])
  }

  /** What has been written in a run, and what its reads have given. */
  function Sent(es: seq<Event>): seq<byte> {
    if es == [] then [] else (if es[0].Arrive? && es[0].msg.PipeData? then es[0].msg.bytes else []) + Sent(es[1..])
  }

  function Given(w: World, es: seq<Event>): seq<byte>
    decreases |es|
  {
    if es == [] then []
    else
      var r := if es[0].ReadCall? then Read(w.pipe, es[0].len).0 else None;
      (if r.Some? then r.value else []) + Given(Step(w, es[0]), es[1..])
  }

  lemma {:induction false} Books(w: World, es: seq<Event>)
    ensures Run(w, es).written == w.written + Sent(es) && Run(w, es).received == w.received + Given(w, es)
    decreases |es|
  {
    hide Read;
    if es != [] { Books(Step(w, es[0]), es[1..]); }
  }

  lemma StepFlow(w: World, e: Event)
    requires Enabled(w, e) && w.written == w.received + Unread(w.pipe)
    ensures Step(w, e).written == Step(w, e).received + Unread(Step(w, e).pipe)
  {
    match e
    case Arrive(m) =>
      if !Finished(w.pipe) { StreamAppend(w.pipe.msgs, [m]); }
      AfterClose(w.pipe.msgs, m);
    case ReadCall(len) => ReadFlow(w.pipe, len);
  }

  lemma {:induction false} AfterClose(msgs: seq<Message>, m: Message)
    ensures Closes(msgs) || m.Other? ==> Stream(msgs + [m]) == Stream(msgs)
    ensures Stream([m]) == if m.Other? then [] else m.bytes
  {
    if msgs != [] {
      assert (msgs + [m])[1..] == msgs[1..] + [m];
      AfterClose(msgs[1..], m);
      assert Closes(msgs) && msgs[0] != PipeData([]) ==> Closes(msgs[1..]) by {
        assert forall i :: 0 < i < |msgs| ==> msgs[i] == msgs[1..][i - 1];
      }
    }
  }

  /** The pipe is a faithful stream: over every run what has been received is a prefix of what has been
      written, and a read that gives nothing although it asked for something comes after all of it. */
  lemma {:induction false} FaithfulStream(w: World, es: seq<Event>)
    requires RunOk(w, es) && w.written == w.received + Unread(w.pipe)
    ensures var v := Run(w, es);
      && v.written == v.received + Unread(v.pipe) && v.received <= v.written
      && forall len: nat :: len > 0 && Read(v.pipe, len).0 == Some([]) ==> v.received == v.written && Finished(v.pipe)
    decreases |es|
  {
    if es == [] {
      forall len: nat | len > 0 && Read(w.pipe, len).0 == Some([]) ensures w.received == w.written && Finished(w.pipe) {
        ReadFlow(w.pipe, len);
      }
    } else {
      StepFlow(w, es[0]);
      FaithfulStream(Step(w, es[0]), es[1..]);
    }
  }

  /** memcpy. */
  method CopyBytes(dst: array<byte>, d: nat, src: array<byte>, s: nat, n: nat)
    requires dst != src && d + n <= dst.Length && s + n <= src.Length
    modifies dst
    ensures dst[d..d + n] == src[s..s + n] && dst[..d] == old(dst[..d])
  {
    for i := 0 to n
      invariant dst[d..d + i] == src[s..s + i] && dst[..d] == old(dst[..d])
    {
      dst[d + i] := src[s + i];
    }
  }

  class PipeDescriptor {
    const data: array<byte>
    var len: nat
    var closed: bool
    /** The message queue of the reading task. */
    var msgs: seq<Message>

    ghost predicate Valid()
      reads this
    {
      && data.Length == CHUNK && len <= CHUNK
      && forall m <- msgs :: m.PipeData? ==> |m.bytes| <= CHUNK
    }

    ghost function Now(): Pipe
      reads this, data
      requires Valid()
    {
      Pipe(data[..len], closed, msgs)
    }

    constructor ()
      ensures Valid() && fresh(data) && Now() == Pipe([], false, [])
    {
      data := new byte[CHUNK](_ => 0);
      len, closed, msgs := 0, false, [];
    }

    /** PipeDescriptor::Write. */
    method Write(buf: seq<byte>) returns (sent_bytes: nat)
      requires Valid()
      modifies this`msgs
      ensures Valid() && sent_bytes == |buf| && msgs == old(msgs) + Chunks(buf)
    {
      sent_bytes := 0;
      while sent_bytes < |buf|
        invariant Valid() && sent_bytes <= |buf| && msgs + Chunks(buf[sent_bytes..]) == old(msgs) + Chunks(buf)
      {
        ghost var rest := buf[sent_bytes..];
        var n := Min(|buf| - sent_bytes, CHUNK);
        var msg := PipeData(buf[sent_bytes..sent_bytes + n]);
        assert rest[..n] == msg.bytes && rest[n..] == buf[sent_bytes + n..];
        assert msgs + Chunks(rest) == (msgs + [msg]) + Chunks(rest[n..]);
        sent_bytes := sent_bytes + n;
        msgs := msgs + [msg];
      }
      assert buf[sent_bytes..] == [];
    }

    /** PipeDescriptor::FinishWrite. */
    method FinishWrite()
      requires Valid()
      modifies this`msgs
      ensures Valid() && msgs == old(msgs) + [PipeData([])]
    {
      msgs := msgs + [PipeData([])];
    }

    /** PipeDescriptor::Read; `done` is false while the task is still waiting for a message. */
    method ReadBytes(buf: array<byte>, n: nat) returns (done: bool, count: nat)
      requires Valid() && n <= buf.Length && buf != data
      modifies this, data, buf
      ensures Valid() && done == Read(old(Now()), n).0.Some? && Now() == Read(old(Now()), n).1
      ensures done ==> count <= n && buf[..count] == Read(old(Now()), n).0.value
    {
      if len > 0 {
        var copy_bytes := Min(len, n);
        ghost var was := data[..len];
        CopyBytes(buf, 0, data, 0, copy_bytes);
        ShiftDown(copy_bytes);
        len := len - copy_bytes;
        assert data[..len] == was[copy_bytes..] && buf[..copy_bytes] == was[..copy_bytes];
        return true, copy_bytes;
      }
      if closed {
        return true, 0;
      }
      while msgs != []
        invariant Valid() && len == 0 && !closed && Read(old(Now()), n) == ReadMessages(Now(), n)
        decreases |msgs|
      {
        var msg := msgs[0];
        msgs := msgs[1..];
        if msg.Other? {
          continue;
        }
        if msg.bytes == [] {
          closed := true;
          return true, 0;
        }
        var copy_bytes := Min(n, |msg.bytes|);
        forall i | 0 <= i < copy_bytes { buf[i] := msg.bytes[i]; }
        len := |msg.bytes| - copy_bytes;
        forall i | 0 <= i < len { data[i] := msg.bytes[copy_bytes + i]; }
        assert data[..len] == msg.bytes[copy_bytes..] && buf[..copy_bytes] == msg.bytes[..copy_bytes];
        return true, copy_bytes;
      }
      return false, 0;
    }

    /** The memmove within the buffer. */
    method ShiftDown(n: nat)
      requires data.Length == CHUNK && n <= len <= CHUNK
      modifies data
      ensures data[..len - n] == old(data[n..len])
    {
      for i := 0 to len - n
        invariant data[..i] == old(data[n..n + i]) && data[n + i..len] == old(data[n + i..len])
      {
        assert data[n + i..len][0] == old(data[n + i..len])[0];
        data[i] := data[n + i];
      }
    }
  }
}
