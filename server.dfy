/** The controller object and its per-connection receive loop. */
module Server {
  import opened Values
  import opened Framing
  import opened Requests
  import opened Receive

  class Controller {
    /** The module registry, built once and never changed. */
    const modules: map<string, Module>

    /** Building a controller without a password: the registry holds a fresh
        instance of each capability module. */
    constructor ()
      ensures modules == Registry()
    {
      modules := Registry();
    }

    /** The loop run for one accepted connection. `chunks` are the blocks that
        successive reads return, an empty one meaning the peer closed the
        stream. The bytes written to the socket are exactly the encoded
        responses the specification sends, each closed by a sentinel; the
        loop ends as the specification says, after as many reads. */
    method ReceiveConnection(json: JsonLibrary, chunks: seq<seq<byte>>)
      returns (sent: seq<byte>, exit: Exit, recvCalls: nat)
      ensures var o := Run(modules, json, Initial(), chunks);
        && sent == Wire(json, o.session.link.sent)
        && exit == o.exit
        && recvCalls == o.recvCalls
    {
      var isConnected := true;
      var messageBuffer: seq<byte> := [];
      ghost var responses: seq<Response> := [];
      sent, recvCalls := [], 0;
      while isConnected
        invariant recvCalls <= |chunks|
        invariant var o := Run(modules, json, Session(messageBuffer, Link(isConnected, false, responses)), chunks[recvCalls..]);
          Run(modules, json, Initial(), chunks) == o.(recvCalls := o.recvCalls + recvCalls)
        invariant sent == Wire(json, responses)
        decreases |chunks| - recvCalls
      {
        if recvCalls == |chunks| {
          // the next read would block: the peer has sent nothing more
          exit := Waiting;
          return;
        }
        var data := chunks[recvCalls];
        assert chunks[recvCalls..][1..] == chunks[recvCalls + 1..];
        recvCalls := recvCalls + 1;
        if data == [] {
          exit := PeerClosed;
          return;
        }
        ghost var start := Session(messageBuffer, Link(isConnected, false, responses));
        var i := 0;
        while i < |data|
          invariant 0 <= i <= |data|
          invariant StepChunk(modules, json, start, data) ==
            StepChunk(modules, json, Session(messageBuffer, Link(isConnected, false, responses)), data[i..])
          invariant sent == Wire(json, responses)
        {
          var b := data[i];
          assert data[i..][0] == b && data[i..][1..] == data[i + 1..];
          if b == Sentinel {
            var request := ParseRequest(json.loads(messageBuffer));
            if request.None? {
              // the exception escapes the loop
              exit := Aborted;
              return;
            }
            var response := Respond(modules, request.value);
            if response.errors != [] {
              isConnected := false;
            }
            WireSnoc(json, responses, response);
            // the whole frame is written: short writes are not modelled
            sent := sent + EncodeResponse(json, response);
            responses := responses + [response];
            messageBuffer := [];
          } else {
            messageBuffer := messageBuffer + [b];
          }
          i := i + 1;
        }
      }
      exit := Dropped;
    }
  }
}
