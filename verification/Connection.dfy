/**
 One connection: input is collected until it parses, the reply is appended to the output
 buffer, and the output is drained by partial writes.
 */
module Connection {

  import opened Buffer
  import H = HttpRequest

  const MAX_IOVECS: nat := 16

  // ----- The write side as a state machine -----

  /**
   Bytes still to send and already sent, the interest in writing, and whether the connection
   is open; `replying` while a reply is appended and `send` has not run, and `exited` once an
   operation of epoll on a descriptor that was removed has ended the process.
   */
  datatype State = State(out: Bytes, sent: Bytes, writing: bool, open: bool, replying: bool, exited: bool)

  /**
   A reply is appended; `send` runs; the write callback runs and `writev` returns n, with
   `again` for an error that means trying later; or the peer, an error or the timer closes.
   */
  datatype Event = Append(data: Bytes) | Send | Writable(n: int, again: bool, keepAlive: bool) | Close

  /** The channel takes its interest in writing on or off; that of a closed connection is gone. */
  function Interest(s: State, on: bool): State {
    if s.open then s.(writing := on) else s.(exited := true)
  }

  function Closed(s: State): State {
    if s.open then s.(writing := false, open := false) else s.(exited := true)
  }

  function After(s: State, e: Event): State
    requires Possible(s, e)
  {
    match e
    case Append(data) => s.(out := s.out + data, replying := true)
    case Send => Interest(s, true).(replying := false)
    case Close => Closed(s)
    case Writable(n, again, keepAlive) =>
      if s.out == [] then Interest(s, false)
      else if n == -1 && !again then Closed(s)
      else if n <= 0 then s
      else
        var s' := s.(out := s.out[n..], sent := s.sent + s.out[..n]);
        if s'.out != [] then s'
        else if keepAlive || !s.open then Interest(s', false)
        else Closed(s')
  }

  /** A write takes at most what there is, and nothing happens once the process has ended. */
  predicate Possible(s: State, e: Event) {
    !s.exited && (e.Writable? ==> -1 <= e.n <= |s.out|)
  }

  predicate AllPossible(s: State, es: seq<Event>)
    decreases |es|
  {
    es == [] || (Possible(s, es[0]) && AllPossible(After(s, es[0]), es[1..]))
  }

  function Run(s: State, es: seq<Event>): State
    requires AllPossible(s, es)
    decreases |es|
  {
    if es == [] then s else Run(After(s, es[0]), es[1..])
  }

  /** Everything that was ever appended. */
  function Appended(es: seq<Event>): Bytes {
    if es == [] then [] else (if es[0].Append? then es[0].data else []) + Appended(es[1..])
  }

  lemma StepKeepsBytes(s: State, e: Event)
    requires Possible(s, e)
    ensures After(s, e).sent + After(s, e).out == s.sent + s.out + (if e.Append? then e.data else [])
  {
    if e.Writable? && s.out != [] && e.n > 0 {
      assert s.sent + s.out[..e.n] + s.out[e.n..] == s.sent + s.out;
    }
  }

  /** What a write does to an open connection, by how much the kernel takes. */
  lemma WriteOnOpen(s: State, n: int, again: bool, keepAlive: bool)
    requires s.open && Possible(s, Writable(n, again, keepAlive))
    ensures
      var r := After(s, Writable(n, again, keepAlive));
      && !r.exited && r.replying == s.replying
      && (s.out == [] ==> r.open && !r.writing && r.out == [] && r.sent == s.sent)
      && (s.out != [] && n == |s.out| ==>
           r.out == [] && r.sent == s.sent + s.out && !r.writing && (r.open <==> keepAlive))
      && (s.out != [] && 0 <= n < |s.out| ==>
           r.out == s.out[n..] && r.sent == s.sent + s.out[..n] && r.writing == s.writing && r.open)
      && (s.out != [] && n == -1 && again ==> r == s)
      && (s.out != [] && n == -1 && !again ==> !r.open && !r.writing && r.out == s.out && r.sent == s.sent)
  {
    assert n == |s.out| ==> s.out[..n] == s.out && s.out[n..] == [];
    assert n == 0 ==> s.out[n..] == s.out && s.sent + s.out[..n] == s.sent;
  }

  /** What the other steps do to an open connection. */
  lemma OthersOnOpen(s: State, data: Bytes)
    requires s.open && !s.exited
    ensures
      var a, r, c := After(s, Append(data)), After(s, Send), After(s, Close);
      && a == State(s.out + data, s.sent, s.writing, true, true, false)
      && r == State(s.out, s.sent, true, true, false, false)
      && c == State(s.out, s.sent, false, false, s.replying, false)
  {
  }

  /** A reply that is sent by one full write: the connection ends as the request asks. */
  lemma ReplyIsSent(s: State, reply: Bytes, keepAlive: bool)
    requires s.open && !s.exited && s.out + reply != []
    ensures
      var ready := After(After(s, Append(reply)), Send);
      After(ready, Writable(|s.out + reply|, false, keepAlive)) ==
        State([], s.sent + s.out + reply, false, keepAlive, false, false)
  {
    var ready := State(s.out + reply, s.sent, true, true, false, false);
    OthersOnOpen(s, reply);
    WriteOnOpen(ready, |s.out + reply|, false, keepAlive);
    assert s.sent + (s.out + reply) == s.sent + s.out + reply;
  }

  /** No byte is lost, repeated or reordered by any run of partial writes. */
  lemma {:induction false} SentThenBufferedIsAppended(s: State, es: seq<Event>)
    requires AllPossible(s, es)
    ensures Run(s, es).sent + Run(s, es).out == s.sent + s.out + Appended(es)
    decreases |es|
  {
    if es == [] {
      assert s.sent + s.out + [] == s.sent + s.out;
    } else {
      hide After, Possible;
      StepKeepsBytes(s, es[0]);
      SentThenBufferedIsAppended(After(s, es[0]), es[1..]);
      var data := if es[0].Append? then es[0].data else [];
      assert s.sent + s.out + (data + Appended(es[1..])) == s.sent + s.out + data + Appended(es[1..]);
    }
  }

  /**
   Once `send` has run, the loop is asked to report when the output of an open connection can
   be written, for as long as there is some.
   */
  predicate Watched(s: State) {
    (s.open && s.out != [] && !s.replying ==> s.writing) && (s.writing ==> s.open)
  }

  lemma {:induction false} InterestStaysOn(s: State, es: seq<Event>)
    requires Watched(s) && AllPossible(s, es)
    ensures Watched(Run(s, es))
    decreases |es|
  {
    if es != [] {
      InterestStaysOn(After(s, es[0]), es[1..]);
    }
  }

  /** The callback of a socket that takes nothing, or takes some of the output and leaves some. */
  predicate LeavesChannel(s: State, e: Event) {
    e.Append? || (e.Writable? && s.out != [] && e.n < |s.out| && (e.n >= 0 || e.again))
  }

  /** A step ends the process exactly if it is taken on a closed connection and operates on the channel. */
  lemma ExitsIff(s: State, e: Event)
    requires Possible(s, e)
    ensures After(s, e).exited <==> !s.open && !LeavesChannel(s, e)
  {
  }

  /** A connection never opens again. */
  lemma {:induction false} StaysClosed(s: State, es: seq<Event>)
    requires AllPossible(s, es) && !s.open
    ensures !Run(s, es).open
    decreases |es|
  {
    if es != [] {
      StaysClosed(After(s, es[0]), es[1..]);
    }
  }

  /** So a `send` or a second close, at any time after a close, ends the process. */
  lemma ClosedForGood(s: State, between: seq<Event>, e: Event)
    requires Possible(s, Close) && s.open && AllPossible(After(s, Close), between) && (e.Send? || e.Close?)
    requires Possible(Run(After(s, Close), between), e)
    ensures After(Run(After(s, Close), between), e).exited
  {
    StaysClosed(After(s, Close), between);
  }

  /** Callbacks that each write something come to an end, and then all is sent and the interest is off. */
  lemma {:induction false} WritesDrain(s: State, es: seq<Event>)
    requires AllPossible(s, es) && s.open
    requires forall k :: 0 <= k < |es| ==> es[k].Writable? && es[k].n >= 1
    ensures |es| + |Run(s, es).out| <= |s.out|
    ensures es != [] && Run(s, es).out == [] ==>
      Run(s, es).sent == s.sent + s.out && !Run(s, es).writing && !Run(s, es).exited
    decreases |es|
  {
    if es != [] {
      var next := After(s, es[0]);
      StepKeepsBytes(s, es[0]);
      if next.out == [] {
        NothingToWrite(next, es[1..]);
      } else {
        WritesDrain(next, es[1..]);
      }
      if Run(s, es).out == [] {
        SentThenBufferedIsAppended(s, es);
        NothingAppended(es);
        assert s.sent + s.out + [] == s.sent + s.out;
        assert Run(s, es).sent + [] == Run(s, es).sent;
      }
    }
  }

  lemma NothingToWrite(s: State, es: seq<Event>)
    requires AllPossible(s, es) && s.out == []
    requires forall k :: 0 <= k < |es| ==> es[k].Writable? && es[k].n >= 1
    ensures es == []
  {
  }

  lemma {:induction false} NothingAppended(es: seq<Event>)
    requires forall k :: 0 <= k < |es| ==> !es[k].Append?
    ensures Appended(es) == []
  {
    if es != [] { NothingAppended(es[1..]); }
  }

  // ----- The connection -----

  /** The chunks that the reads of one readable event bring. */
  ghost function Received(chunks: seq<Bytes>): Bytes { Join(chunks) }

  class Connection {
    const input: BufferBlock
    const output: BufferBlock
    const request: H.HttpRequest
    var writing: bool
    var open: bool
    var exited: bool
    ghost var replying: bool
    ghost var sent: Bytes

    ghost predicate Valid()
      reads this, output
    {
      output.Valid() && input != output && Watched(Value())
    }

    ghost function Value(): State
      reads this, output
      requires output.Valid()
    {
      State(output.Contents(), sent, writing, open, replying, exited)
    }

    constructor ()
      ensures Valid() && Value() == State([], [], false, true, false, false)
      ensures input.Valid() && input.Contents() == []
      ensures fresh(input) && fresh(output) && fresh(request)
    {
      var i := new BufferBlock();
      var o := new BufferBlock();
      var r := new H.HttpRequest();
      input, output, request := i, o, r;
      writing, open, exited, replying, sent := false, true, false, false, [];
    }

    /** `closecallback` and `errorcallback`: the channel is removed with all its interests. */
    method CloseChannel()
      requires Valid() && !exited
      modifies this`open, this`writing, this`exited
      ensures Valid() && Value() == After(old(Value()), Close)
      ensures !open && (old(open) ==> !writing && !exited) && (!old(open) ==> exited)
    {
      if open {
        open, writing := false, false;
      } else {
        exited := true;
      }
    }

    /** `enablewriting` and `disablewriting`. */
    method SetInterest(on: bool)
      requires output.Valid() && !exited
      modifies this`writing, this`exited
      ensures Value() == Interest(old(Value()), on)
      ensures if open then writing == on && !exited else writing == old(writing) && exited
    {
      if open { writing := on; } else { exited := true; }
    }

    /** `sendinloop`. */
    method SendInLoop()
      requires Valid() && !exited
      modifies this`writing, this`exited, this`replying
      ensures Valid() && Value() == After(old(Value()), Send)
      ensures !replying && if open then writing && !exited else exited
    {
      SetInterest(true);
      replying := false;
    }

    /**
     `writev`: the kernel takes up to `accept` bytes of the vectors, from the front, and a
     negative `accept` is an error.
     */
    method Writev(iovs: seq<Bytes>, accept: int) returns (n: int)
      modifies this`sent
      ensures n == if accept < 0 then -1 else if accept < |Join(iovs)| then accept else |Join(iovs)|
      ensures sent == old(sent) + if n < 0 then [] else Join(iovs)[..n]
    {
      if accept < 0 { return -1; }
      n := 0;
      var i := 0;
      assert iovs[0..] == iovs;
      while i < |iovs|
        invariant i <= |iovs| && n + |Join(iovs[i..])| == |Join(iovs)|
      {
        assert iovs[i..][1..] == iovs[i + 1..];
        n := n + |iovs[i]|;
        i := i + 1;
      }
      assert iovs[i..] == [];
      n := if accept < n then accept else n;
      sent := sent + Join(iovs)[..n];
    }

    /** What `writecallback` does once the output is empty. */
    method AllWritten(keepAlive: bool)
      requires Valid() && !exited && output.Contents() == []
      modifies this`open, this`writing, this`exited
      ensures Valid()
      ensures Value() == (if keepAlive || !old(open) then Interest(old(Value()), false) else Closed(old(Value())))
      ensures if old(open) then !exited && !writing && (open <==> keepAlive) else !open && exited
    {
      SetInterest(false);
      if exited { return; }
      if !keepAlive { CloseChannel(); }
    }

    /**
     `writecallback`: the kernel takes up to `accept` bytes of the first 16 parts of the output,
     and the connection is closed once all is written, unless it is to be kept, or on an error.
     */
    method WriteCallback(accept: int, again: bool, keepAlive: bool) returns (n: int)
      requires Valid() && !exited
      modifies this, output
      ensures Valid()
      ensures Possible(old(Value()), Writable(n, again, keepAlive))
      ensures Value() == After(old(Value()), Writable(n, again, keepAlive))
      ensures
        var out, parts := old(output.Contents()), old(Parts(output.blocks, output.readPos));
        var offered := |Join(parts[..Min(16, |parts|)])|;
        && n == (if out == [] then 0 else if accept < 0 then -1 else Min(accept, offered))
        && (out != [] ==> 0 < offered <= |out|) && (|parts| <= 16 ==> offered == |out|)
        && output.Contents() == (if n > 0 then out[n..] else out)
        && sent == old(sent) + (if n > 0 then out[..n] else [])
      ensures
        var out := old(output.Contents());
        old(open) ==>
          && !exited
          && (open <==> !(out != [] && if n == -1 then !again else n == |out| && !keepAlive))
          && writing == (old(writing) && out != [] && open && n < |out|)
    {
      hide Flat, Join, Filled, IsTail, Parts;
      PartsAreContents(output.blocks, output.readPos);
      FirstParts(Parts(output.blocks, output.readPos), 16);
      n := 0;
      var iovs := output.GetIOVecs(MAX_IOVECS);
      if |iovs| == 0 {
        SetInterest(false);
        return;
      }
      ghost var out := output.Contents();
      JoinNotEmpty(iovs);
      n := Writev(iovs, accept);
      if n > 0 {
        assert Join(iovs)[..n] == out[..n];
        output.ConsumeBytes(n);
        var left := output.ReadableBytes();
        if left == 0 { AllWritten(keepAlive); }
      } else if n == -1 && !again {
        CloseChannel();
      }
    }

    /** The reads of `onmessage`: every chunk goes to the end of the input. */
    method Receive(chunks: seq<Bytes>)
      requires input.Valid()
      modifies input
      ensures input.Valid() && input.Contents() == old(input.Contents()) + Received(chunks)
    {
      hide Flat, Filled;
      var i := 0;
      ghost var before := input.Contents();
      assert chunks[..0] == [];
      while i < |chunks|
        invariant i <= |chunks| && input.Valid() && input.Contents() == before + Join(chunks[..i])
      {
        JoinSnoc(chunks[..i], chunks[i]);
        assert chunks[..i + 1] == chunks[..i] + [chunks[i]];
        input.Append(chunks[i]);
        i := i + 1;
      }
      assert chunks[..i] == chunks;
    }

    /** The reply of `onmessage` goes to the end of the output. */
    method AppendReply(reply: Bytes)
      requires Valid() && !exited
      modifies output, this`replying
      ensures Valid() && Value() == After(old(Value()), Append(reply))
      ensures output.Contents() == old(output.Contents()) + reply && replying
    {
      hide Flat, Filled;
      output.Append(reply);
      replying := true;
    }

    /**
     `onmessage` with a reply in hand, if no other thread comes in between: the reply is
     appended and sent exactly if the input parses.
     */
    method OnMessage(chunks: seq<Bytes>, reply: Bytes, hangup: bool) returns (verdict: H.Verdict)
      requires Valid() && !exited && input.Valid()
      modifies this, input, output, request
      ensures Valid() && sent == old(sent)
      ensures
        var received := old(input.Contents()) + Received(chunks);
        var o := H.ParseFrom(H.FRESH, received, 0);
        if hangup then Value() == After(old(Value()), Close) && input.Valid() && input.Contents() == received
        else if received == [] then
          verdict == H.Rejected && Value() == old(Value()) && input.Valid() && input.Contents() == []
        else
          match o
          case Overrun => verdict == H.Overran
          case Refused(_, used) =>
            && verdict == H.Rejected && Value() == old(Value())
            && (input.Valid() && input.Contents() == received <==> used == 0)
          case Complete(req, rest) =>
            && verdict == H.Parsed && request.Value() == req && input.Valid() && input.Contents() == rest
            && Value() == After(After(old(Value()), Append(reply)), Send)
            && output.Contents() == old(output.Contents()) + reply && (old(open) ==> open && writing && !exited)
    {
      hide Flat, Filled, IsTail, H.ParseFrom;
      Receive(chunks);
      if hangup {
        CloseChannel();
        return H.Rejected;
      }
      request.Init();
      verdict := request.Parse(input);
      if verdict == H.Parsed {
        AppendReply(reply);
        SendInLoop();
      }
    }
  }

  lemma JoinNotEmpty(iovs: seq<Bytes>)
    requires iovs != [] && iovs[0] != []
    ensures Join(iovs) != []
  {
  }
}
