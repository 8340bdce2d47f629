/** The frame codec of the wire protocol: a frame is a run of bytes closed by
    one sentinel byte 0x00; the sentinel, not JSON structure, is the only
    boundary. `Deframe` is the receiving side as the connection loop performs
    it byte by byte on its persistent buffer; `Join` is the sending side. */
module Framing {
  import opened Values

  /** The byte that closes every frame. */
  const Sentinel: byte := 0

  /** The complete frames found, oldest first, and the bytes still buffered. */
  datatype Split = Split(frames: seq<seq<byte>>, rest: seq<byte>)

  /** Feeds `data` to a buffer already holding `buffer`: every sentinel closes
      one frame made of everything buffered since the previous sentinel, and
      empties the buffer; every other byte is appended to the buffer. One
      frame comes out per sentinel byte in `data`. */
  function Deframe(buffer: seq<byte>, data: seq<byte>): (r: Split)
    ensures |r.frames| == Sentinels(data)
    decreases |data|
  {
    if data == [] then Split([], buffer)
    else
      if data[0] == Sentinel then
        var r := Deframe([], data[1..]);
        Split([buffer] + r.frames, r.rest)
      else
        Deframe(buffer + [data[0]], data[1..])
  }

  /** How many sentinel bytes `data` holds. */
  function Sentinels(data: seq<byte>): nat
  {
    if data == [] then 0 else (if data[0] == Sentinel then 1 else 0) + Sentinels(data[1..])
  }

  /** The byte stream that carries `frames`, each closed by a sentinel. */
  function Join(frames: seq<seq<byte>>): seq<byte>
  {
    if frames == [] then [] else frames[0] + [Sentinel] + Join(frames[1..])
  }

  /** No frame of `frames` holds a sentinel byte. */
  predicate SentinelFreeFrames(frames: seq<seq<byte>>)
  {
    forall i :: 0 <= i < |frames| ==> Sentinel !in frames[i]
  }

  /** Deframing loses nothing and adds nothing: re-closing the frames and
      appending the rest gives back the buffer followed by the data. */
  lemma {:induction false} DeframeReassembles(buffer: seq<byte>, data: seq<byte>)
    ensures var r := Deframe(buffer, data); Join(r.frames) + r.rest == buffer + data
    decreases |data|
  {
    if data != [] {
      assert data == [data[0]] + data[1..];
      if data[0] == Sentinel {
        var r := Deframe([], data[1..]);
        DeframeReassembles([], data[1..]);
        assert ([buffer] + r.frames)[1..] == r.frames;
        assert Join([buffer] + r.frames) + r.rest == buffer + [Sentinel] + (Join(r.frames) + r.rest);
      } else {
        DeframeReassembles(buffer + [data[0]], data[1..]);
        assert buffer + data == (buffer + [data[0]]) + data[1..];
      }
    }
  }

  /** No frame and no leftover holds a sentinel: together with
      DeframeReassembles, each frame is exactly the bytes between two
      consecutive sentinels. */
  lemma {:induction false} DeframeSentinelFree(buffer: seq<byte>, data: seq<byte>)
    requires Sentinel !in buffer
    ensures var r := Deframe(buffer, data); SentinelFreeFrames(r.frames) && Sentinel !in r.rest
    decreases |data|
  {
    if data != [] {
      if data[0] == Sentinel {
        var r := Deframe([], data[1..]);
        DeframeSentinelFree([], data[1..]);
        forall i | 0 <= i < |[buffer] + r.frames| ensures Sentinel !in ([buffer] + r.frames)[i] {
          if i > 0 {
            assert ([buffer] + r.frames)[i] == r.frames[i - 1];
          }
        }
      } else {
        DeframeSentinelFree(buffer + [data[0]], data[1..]);
      }
    }
  }

  /** The buffer persists across reads: feeding `a` and then `b` yields the
      same frames, in the same order, and the same rest as feeding `a + b`. */
  lemma {:induction false} DeframeConcat(buffer: seq<byte>, a: seq<byte>, b: seq<byte>)
    ensures Deframe(buffer, a + b) ==
      var r := Deframe(buffer, a);
      var s := Deframe(r.rest, b);
      Split(r.frames + s.frames, s.rest)
    decreases |a|
  {
    if a == [] {
      assert a + b == b;
    } else {
      assert (a + b)[0] == a[0];
      assert (a + b)[1..] == a[1..] + b;
      if a[0] == Sentinel {
        DeframeConcat([], a[1..], b);
        var r := Deframe([], a[1..]);
        var s := Deframe(r.rest, b);
        assert Deframe(buffer, a + b) == Split([buffer] + (r.frames + s.frames), s.rest);
        assert [buffer] + (r.frames + s.frames) == ([buffer] + r.frames) + s.frames;
      } else {
        DeframeConcat(buffer + [a[0]], a[1..], b);
      }
    }
  }

  /** A frame of non-sentinel bytes followed by the sentinel closes exactly one
      frame holding the buffer followed by those bytes. */
  lemma {:induction false} DeframeOneFrame(buffer: seq<byte>, frame: seq<byte>, rest: seq<byte>)
    requires Sentinel !in frame
    ensures Deframe(buffer, frame + [Sentinel] + rest) ==
      var r := Deframe([], rest);
      Split([buffer + frame] + r.frames, r.rest)
    decreases |frame|
  {
    if frame == [] {
      assert frame + [Sentinel] + rest == [Sentinel] + rest;
      assert ([Sentinel] + rest)[1..] == rest;
      assert buffer + frame == buffer;
    } else {
      assert (frame + [Sentinel] + rest)[1..] == frame[1..] + [Sentinel] + rest;
      assert buffer + frame == (buffer + [frame[0]]) + frame[1..];
      DeframeOneFrame(buffer + [frame[0]], frame[1..], rest);
    }
  }

  /** Round trip: deframing the stream that carries sentinel-free frames gives
      back exactly those frames and nothing left over. */
  lemma {:induction false} DeframeJoin(frames: seq<seq<byte>>)
    requires SentinelFreeFrames(frames)
    ensures Deframe([], Join(frames)) == Split(frames, [])
    decreases |frames|
  {
    if frames != [] {
      DeframeOneFrame([], frames[0], Join(frames[1..]));
      assert SentinelFreeFrames(frames[1..]) by {
        forall i | 0 <= i < |frames[1..]| ensures Sentinel !in frames[1..][i] {
          assert frames[1..][i] == frames[i + 1];
        }
      }
      DeframeJoin(frames[1..]);
      assert [] + frames[0] == frames[0];
      assert [frames[0]] + frames[1..] == frames;
    }
  }

  /** Closing frames one list after another closes them all in order. */
  lemma {:induction false} JoinConcat(a: seq<seq<byte>>, b: seq<seq<byte>>)
    ensures Join(a + b) == Join(a) + Join(b)
    decreases |a|
  {
    if a != [] {
      assert (a + b)[1..] == a[1..] + b;
      JoinConcat(a[1..], b);
    } else {
      assert a + b == b;
    }
  }
}
