/** The specification of one connection's receive loop, as functions: what
    one byte does to the buffer and the connection state, what one received
    chunk does, and how the loop over successive reads ends. The imperative
    loop in Server is proved to compute exactly `Run`. */
module Receive {
  import opened Values
  import opened Framing
  import opened Requests

  /** The connection state besides the byte buffer: the is_connected flag,
      whether an exception escaped the loop (the worker thread then dies),
      and every response sent so far, oldest first. */
  datatype Link = Link(isConnected: bool, aborted: bool, sent: seq<Response>)

  /** The state of the loop: the bytes of the frame being received, and the
      link. */
  datatype Session = Session(buffer: seq<byte>, link: Link)

  /** A freshly accepted connection: connected, nothing buffered, nothing sent. */
  function Initial(): Session
  {
    Session([], Link(true, false, []))
  }

  /** `later` can follow `earlier`: responses are only ever appended and a
      dropped connection is never reconnected. */
  predicate Follows(earlier: Link, later: Link)
  {
    && |earlier.sent| <= |later.sent| && later.sent[..|earlier.sent|] == earlier.sent
    && (later.isConnected ==> earlier.isConnected)
  }

  /** One complete frame. If it does not decode to a request the exception
      escapes and nothing is sent. Otherwise exactly one response is sent,
      carrying the request's id, and the connection stays marked connected
      exactly when it was and the dispatch succeeded. */
  function HandleFrame(modules: map<string, Module>, json: JsonLibrary, l: Link, frame: seq<byte>): (r: Link)
    requires !l.aborted
    ensures r.aborted <==> ParseRequest(json.loads(frame)).None?
    ensures r.aborted ==> r.sent == l.sent && r.isConnected == l.isConnected
    ensures !r.aborted ==>
      var req := ParseRequest(json.loads(frame)).value;
      && r.sent == l.sent + [Respond(modules, req)]
      && r.sent[|l.sent|].id == req.id
      && (r.isConnected <==> l.isConnected && Dispatch(modules, req).Success?)
    ensures Follows(l, r)
  {
    match ParseRequest(json.loads(frame))
    case None => l.(aborted := true)
    case Some(req) =>
      var response := Respond(modules, req);
      Link(l.isConnected && response.errors == [], false, l.sent + [response])
  }

  /** Complete frames handled in order, stopping at the first that aborts. */
  function HandleFrames(modules: map<string, Module>, json: JsonLibrary, l: Link, frames: seq<seq<byte>>): Link
    decreases |frames|
  {
    if frames == [] || l.aborted then l
    else HandleFrames(modules, json, HandleFrame(modules, json, l, frames[0]), frames[1..])
  }

  /** One byte of a received chunk. A sentinel hands the buffered bytes to
      HandleFrame as one frame and empties the buffer once the response is
      sent; any other byte is appended to the buffer unchanged. */
  function StepByte(modules: map<string, Module>, json: JsonLibrary, s: Session, b: byte): (r: Session)
    requires !s.link.aborted
    ensures b != Sentinel ==> r.buffer == s.buffer + [b] && r.link == s.link
    ensures b == Sentinel ==> r.link == HandleFrame(modules, json, s.link, s.buffer)
    ensures b == Sentinel && !r.link.aborted ==> r.buffer == []
  {
    if b == Sentinel then
      var l := HandleFrame(modules, json, s.link, s.buffer);
      if l.aborted then Session(s.buffer, l) else Session([], l)
    else
      Session(s.buffer + [b], s.link)
  }

  /** One received chunk, byte by byte; an exception leaves the rest of the
      chunk unread. The is_connected flag is not consulted here: after a
      failed request the rest of the chunk is still processed. Responses are
      only appended and a dropped connection stays dropped. */
  function StepChunk(modules: map<string, Module>, json: JsonLibrary, s: Session, chunk: seq<byte>): (r: Session)
    ensures !s.link.aborted ==> Follows(s.link, r.link)
    ensures s.link.aborted ==> r == s
    decreases |chunk|
  {
    if chunk == [] || s.link.aborted then s
    else StepChunk(modules, json, StepByte(modules, json, s, chunk[0]), chunk[1..])
  }

  /** How the loop over reads ended. */
  datatype Exit =
    | PeerClosed  // a read returned no data
    | Dropped     // is_connected was false at the loop test
    | Aborted     // decoding a frame into a request raised, and the exception escaped
    | Waiting     // the peer has sent nothing more: the next read blocks

  /** The final session, how the loop ended, and how many reads it made. */
  datatype Outcome = Outcome(session: Session, exit: Exit, recvCalls: nat)

  /** The loop over reads, `chunks` being what successive reads return. The
      flag is tested only before each read; an empty read ends the loop at
      once, whatever is buffered. */
  function Run(modules: map<string, Module>, json: JsonLibrary, s: Session, chunks: seq<seq<byte>>): (o: Outcome)
    requires !s.link.aborted
    ensures o.recvCalls <= |chunks|
    ensures o.exit == Aborted <==> o.session.link.aborted
    ensures o.exit == Dropped <==> !o.session.link.aborted && !o.session.link.isConnected
    ensures o.exit == Waiting ==> o.recvCalls == |chunks|
    ensures o.exit == PeerClosed ==> 0 < o.recvCalls && chunks[o.recvCalls - 1] == []
    ensures Follows(s.link, o.session.link)
    decreases |chunks|
  {
    if !s.link.isConnected then Outcome(s, Dropped, 0)
    else if chunks == [] then Outcome(s, Waiting, 0)
    else if chunks[0] == [] then Outcome(s, PeerClosed, 1)
    else
      var t := StepChunk(modules, json, s, chunks[0]);
      if t.link.aborted then Outcome(t, Aborted, 1)
      else
        var o := Run(modules, json, t, chunks[1..]);
        o.(recvCalls := o.recvCalls + 1)
  }

  /** All the bytes of `chunks`, in order. */
  function Concat(chunks: seq<seq<byte>>): seq<byte>
  {
    if chunks == [] then [] else chunks[0] + Concat(chunks[1..])
  }

  /** Handling a list of frames and then another is handling both in order. */
  lemma {:induction false} HandleFramesConcat(modules: map<string, Module>, json: JsonLibrary, l: Link, a: seq<seq<byte>>, b: seq<seq<byte>>)
    ensures HandleFrames(modules, json, l, a + b) == HandleFrames(modules, json, HandleFrames(modules, json, l, a), b)
    decreases |a|
  {
    if a == [] {
      assert a + b == b;
    } else if !l.aborted {
      assert (a + b)[1..] == a[1..] + b;
      HandleFramesConcat(modules, json, HandleFrame(modules, json, l, a[0]), a[1..], b);
    }
  }

  /** Processing a chunk and then another equals processing their
      concatenation: the loop keeps no per-chunk state. */
  lemma {:induction false} StepChunkConcat(modules: map<string, Module>, json: JsonLibrary, s: Session, a: seq<byte>, b: seq<byte>)
    ensures StepChunk(modules, json, s, a + b) == StepChunk(modules, json, StepChunk(modules, json, s, a), b)
    decreases |a|
  {
    if a == [] {
      assert a + b == b;
    } else if !s.link.aborted {
      assert (a + b)[0] == a[0];
      assert (a + b)[1..] == a[1..] + b;
      StepChunkConcat(modules, json, StepByte(modules, json, s, a[0]), a[1..], b);
    }
  }

  /** Byte-by-byte processing of a chunk handles exactly the frames that
      Deframe finds, in order, and leaves exactly its rest buffered. */
  lemma {:induction false} ChunkFollowsFrames(modules: map<string, Module>, json: JsonLibrary, s: Session, chunk: seq<byte>)
    requires !s.link.aborted
    ensures var t := StepChunk(modules, json, s, chunk);
      var d := Deframe(s.buffer, chunk);
      && t.link == HandleFrames(modules, json, s.link, d.frames)
      && (!t.link.aborted ==> t.buffer == d.rest)
    decreases |chunk|
  {
    if chunk != [] {
      var b := chunk[0];
      if b == Sentinel {
        var l := HandleFrame(modules, json, s.link, s.buffer);
        var d := Deframe([], chunk[1..]);
        assert Deframe(s.buffer, chunk) == Split([s.buffer] + d.frames, d.rest);
        assert ([s.buffer] + d.frames)[1..] == d.frames;
        if !l.aborted {
          ChunkFollowsFrames(modules, json, Session([], l), chunk[1..]);
        }
      } else {
        ChunkFollowsFrames(modules, json, Session(s.buffer + [b], s.link), chunk[1..]);
      }
    }
  }

  /** Over a whole connection that is still waiting for data, the responses
      and the flag are those of handling, in order, the frames of the
      concatenated stream, and the buffer holds its unterminated tail: how
      the stream was cut into reads does not matter. */
  lemma {:induction false} StreamFollowsFrames(modules: map<string, Module>, json: JsonLibrary, s: Session, chunks: seq<seq<byte>>)
    requires !s.link.aborted
    requires Run(modules, json, s, chunks).exit == Waiting
    ensures var o := Run(modules, json, s, chunks);
      var d := Deframe(s.buffer, Concat(chunks));
      o.session.link == HandleFrames(modules, json, s.link, d.frames) && o.session.buffer == d.rest
    decreases |chunks|
  {
    if chunks != [] {
      var t := StepChunk(modules, json, s, chunks[0]);
      var d1 := Deframe(s.buffer, chunks[0]);
      var d2 := Deframe(d1.rest, Concat(chunks[1..]));
      ChunkFollowsFrames(modules, json, s, chunks[0]);
      StreamFollowsFrames(modules, json, t, chunks[1..]);
      DeframeConcat(s.buffer, chunks[0], Concat(chunks[1..]));
      HandleFramesConcat(modules, json, s.link, d1.frames, d2.frames);
    }
  }

  /** Two ways of cutting the same bytes into reads lead to the same state
      while the connection is still waiting for more. */
  lemma ChunkingIrrelevant(modules: map<string, Module>, json: JsonLibrary, s: Session, c1: seq<seq<byte>>, c2: seq<seq<byte>>)
    requires !s.link.aborted
    requires Concat(c1) == Concat(c2)
    requires Run(modules, json, s, c1).exit == Waiting && Run(modules, json, s, c2).exit == Waiting
    ensures Run(modules, json, s, c1).session == Run(modules, json, s, c2).session
  {
    StreamFollowsFrames(modules, json, s, c1);
    StreamFollowsFrames(modules, json, s, c2);
  }

  /** While the connection stays up after the first part, receiving a chunk
      in two reads ends the same way as receiving it in one (with one read
      more). */
  lemma SplitRead(modules: map<string, Module>, json: JsonLibrary, s: Session, a: seq<byte>, b: seq<byte>, rest: seq<seq<byte>>)
    requires !s.link.aborted && s.link.isConnected
    requires a != [] && b != []
    requires !StepChunk(modules, json, s, a).link.aborted && StepChunk(modules, json, s, a).link.isConnected
    ensures var split := Run(modules, json, s, [a, b] + rest);
      var whole := Run(modules, json, s, [a + b] + rest);
      split.session == whole.session && split.exit == whole.exit && split.recvCalls == whole.recvCalls + 1
  {
    assert ([a, b] + rest)[1..] == [b] + rest;
    assert ([b] + rest)[1..] == rest;
    assert ([a + b] + rest)[1..] == rest;
    StepChunkConcat(modules, json, s, a, b);
  }

  /** Once the loop has ended for any reason other than waiting, what the
      peer might send afterwards is never read. */
  lemma {:induction false} NoReadAfterExit(modules: map<string, Module>, json: JsonLibrary, s: Session, chunks: seq<seq<byte>>, more: seq<seq<byte>>)
    requires !s.link.aborted
    requires Run(modules, json, s, chunks).exit != Waiting
    ensures Run(modules, json, s, chunks + more) == Run(modules, json, s, chunks)
    decreases |chunks|
  {
    if s.link.isConnected && chunks != [] {
      assert (chunks + more)[0] == chunks[0];
      if chunks[0] != [] {
        var t := StepChunk(modules, json, s, chunks[0]);
        if !t.link.aborted {
          assert (chunks + more)[1..] == chunks[1..] + more;
          NoReadAfterExit(modules, json, t, chunks[1..], more);
        }
      }
    }
  }

  /** A read returning no data ends the loop at once: the partly received
      frame in the buffer gets no response and nothing else changes. */
  lemma {:induction false} EmptyReadDiscardsPartialFrame(modules: map<string, Module>, json: JsonLibrary, s: Session, chunks: seq<seq<byte>>, more: seq<seq<byte>>)
    requires !s.link.aborted
    requires Run(modules, json, s, chunks).exit == Waiting
    ensures Run(modules, json, s, chunks + [[]] + more) ==
      Outcome(Run(modules, json, s, chunks).session, PeerClosed, |chunks| + 1)
    decreases |chunks|
  {
    if chunks == [] {
      assert chunks + [[]] + more == [[]] + more;
    } else {
      var t := StepChunk(modules, json, s, chunks[0]);
      assert (chunks + [[]] + more)[0] == chunks[0];
      assert (chunks + [[]] + more)[1..] == chunks[1..] + [[]] + more;
      EmptyReadDiscardsPartialFrame(modules, json, t, chunks[1..], more);
    }
  }

  /** A chunk of bytes without a sentinel only fills the buffer. */
  lemma {:induction false} FillBuffer(modules: map<string, Module>, json: JsonLibrary, s: Session, bytes: seq<byte>)
    requires !s.link.aborted
    requires Sentinel !in bytes
    ensures StepChunk(modules, json, s, bytes) == Session(s.buffer + bytes, s.link)
    decreases |bytes|
  {
    if bytes != [] {
      FillBuffer(modules, json, Session(s.buffer + [bytes[0]], s.link), bytes[1..]);
      assert s.buffer + [bytes[0]] + bytes[1..] == s.buffer + bytes;
    }
  }

  /** A sentinel-free frame followed by its sentinel is handled as one frame
      and leaves the buffer empty unless it aborts. */
  lemma OneFrame(modules: map<string, Module>, json: JsonLibrary, frame: seq<byte>, l: Link)
    requires !l.aborted
    requires Sentinel !in frame
    ensures var t := StepChunk(modules, json, Session([], l), frame + [Sentinel]);
      var h := HandleFrame(modules, json, l, frame);
      t.link == h && (!h.aborted ==> t.buffer == [])
  {
    StepChunkConcat(modules, json, Session([], l), frame, [Sentinel]);
    FillBuffer(modules, json, Session([], l), frame);
    assert [] + frame == frame;
  }
}
