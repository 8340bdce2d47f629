/** Whole-connection scenarios over the controller's registry, for any json
    library that decodes the client's frames to the documents named. */
module Scenarios {
  import opened Values
  import opened Framing
  import opened Info
  import opened Requests
  import opened Receive

  /** The document of a request without parameters. */
  function RequestDoc(id: Json, moduleName: string, functionName: string): Json
  {
    Obj(map["id" := id, "module" := Str(moduleName), "function" := Str(functionName), "params" := Arr([])])
  }

  /** Asking info.avs without parameters: one response with the request's id,
      no error and the AVS fixture; the connection stays open for the next
      read. */
  lemma AvsRequestAnswered(json: JsonLibrary, frame: seq<byte>, id: Json)
    requires Sentinel !in frame
    requires json.loads(frame) == Some(RequestDoc(id, "info", "avs"))
    ensures Run(Registry(), json, Initial(), [frame + [Sentinel]]) ==
      Outcome(Session([], Link(true, false, [Response(id, [], NewInfoModule().Avs())])), Waiting, 1)
  {
    OneFrame(Registry(), json, frame, Initial().link);
  }

  /** Asking for an unknown module: exactly one response, with the request's
      id, one error and empty data, and the connection is dropped after it
      without another read. */
  lemma UnknownModuleDropsConnection(json: JsonLibrary, frame: seq<byte>, id: Json, more: seq<seq<byte>>)
    requires Sentinel !in frame
    requires json.loads(frame) == Some(RequestDoc(id, "bogus", "x"))
    ensures var o := Run(Registry(), json, Initial(), [frame + [Sentinel]] + more);
      && o.exit == Dropped && o.recvCalls == 1
      && |o.session.link.sent| == 1
      && o.session.link.sent[0].id == id
      && |o.session.link.sent[0].errors| == 1
      && o.session.link.sent[0].data == Arr([])
  {
    OneFrame(Registry(), json, frame, Initial().link);
    assert ([frame + [Sentinel]] + more)[0] == frame + [Sentinel];
  }

  /** The flag is tested only before a read: after a failed request, a later
      request in the same read is still decoded and dispatched, and its
      response is recorded as sent (on a real socket, closed after the failed
      request, that send raises instead), while a request arriving in the
      next read is never read at all. */
  lemma ErrorFinishesCurrentRead(json: JsonLibrary, bad: seq<byte>, good: seq<byte>, id1: Json, id2: Json)
    requires Sentinel !in bad && Sentinel !in good
    requires json.loads(bad) == Some(RequestDoc(id1, "bogus", "x"))
    requires json.loads(good) == Some(RequestDoc(id2, "info", "avs"))
    ensures var one := Run(Registry(), json, Initial(), [bad + [Sentinel] + good + [Sentinel]]);
      && one.exit == Dropped && one.recvCalls == 1
      && |one.session.link.sent| == 2
      && one.session.link.sent[1] == Response(id2, [], NewInfoModule().Avs())
    ensures var two := Run(Registry(), json, Initial(), [bad + [Sentinel], good + [Sentinel]]);
      && two.exit == Dropped && two.recvCalls == 1
      && |two.session.link.sent| == 1
  {
    var l0 := Initial().link;
    OneFrame(Registry(), json, bad, l0);
    var l1 := HandleFrame(Registry(), json, l0, bad);
    OneFrame(Registry(), json, good, l1);
    StepChunkConcat(Registry(), json, Initial(), bad + [Sentinel], good + [Sentinel]);
    assert bad + [Sentinel] + good + [Sentinel] == (bad + [Sentinel]) + (good + [Sentinel]);
  }
}
