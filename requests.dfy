/** Everything the connection loop does with one complete frame: decode it
    into a request, resolve the module and operation by name in the fixed
    registry, call it, and build and encode the response. */
module Requests {
  import opened Values
  import opened Framing
  import opened Info
  import opened Capture

  /** An entry of the registry: the closed set of capability modules. */
  datatype Module = InfoEntry(info: InfoModule) | CaptureEntry(capture: CaptureModule) {

    /** getattr on the entry's instance. */
    function GetAttr(name: string): Option<Attribute>
    {
      match this
      case InfoEntry(m) => m.GetAttr(name)
      case CaptureEntry(m) => m.GetAttr(name)
    }
  }

  /** The registry the controller's constructor builds: two fresh instances,
      neither requiring encryption. The map itself is never changed afterwards;
      in this model the instances are values and stay unchanged as well. */
  function Registry(): (r: map<string, Module>)
    ensures r.Keys == {"info", "capture"}
    ensures r["info"].InfoEntry? && !r["info"].info.requiresEncryption
    ensures r["capture"].CaptureEntry? && !r["capture"].capture.requiresEncryption
  {
    map["info" := InfoEntry(NewInfoModule()), "capture" := CaptureEntry(NewCaptureModule())]
  }

  /** A parameter list has to be iterable to be logged and spread into the
      call: a list (its items), a string (its characters) or an object (its
      keys). */
  predicate Iterable(j: Json)
  {
    j.Arr? || j.Str? || j.Obj?
  }

  type Params = p: Json | Iterable(p) witness Arr([])

  /** The number of positional arguments `*parameters` passes. */
  function ArgumentCount(p: Params): nat
  {
    if p.Arr? then |p.items| else if p.Str? then |p.s| else |p.fields|
  }

  /** A decoded request. The id is an opaque token; module and function are
      whatever JSON values the client sent under those keys. */
  datatype Request = Request(id: Json, moduleName: Json, functionName: Json, params: Params)

  /** Decoding a frame's document into a request, outside the try block: it
      fails, and the failure escapes the connection loop, unless the document
      is an object with all four keys whose params can be iterated. */
  function ParseRequest(doc: Option<Json>): (r: Option<Request>)
    ensures r.Some? <==>
      && doc.Some? && doc.value.Obj?
      && "id" in doc.value.fields && "module" in doc.value.fields
      && "function" in doc.value.fields && "params" in doc.value.fields
      && Iterable(doc.value.fields["params"])
    ensures r.Some? ==>
      && r.value.id == doc.value.fields["id"]
      && r.value.moduleName == doc.value.fields["module"]
      && r.value.functionName == doc.value.fields["function"]
      && r.value.params == doc.value.fields["params"]
  {
    match doc
    case Some(Obj(f)) =>
      if "id" in f && "module" in f && "function" in f && "params" in f && Iterable(f["params"]) then
        Some(Request(f["id"], f["module"], f["function"], f["params"]))
      else
        None
    case _ => None
  }

  /** Why resolving or calling failed, by the exception the lookup raises. */
  datatype DispatchError =
    | UnhashableModule(key: Json)       // a list or an object cannot key the registry
    | UnknownModule(key: Json)          // no registry entry under that key
    | NonStringFunction(attribute: Json) // getattr needs a string name
    | UnknownFunction(name: string)     // no attribute of that name
    | NotCallable(name: string)         // the attribute is data, not an operation
    | WrongArgumentCount(name: string, expected: nat, given: nat)

  /** The one error string a failed dispatch puts in its response. */
  function ErrorMessage(e: DispatchError): (m: string)
    ensures m != []
  {
    match e
    case UnhashableModule(_) => "TypeError: unhashable module name"
    case UnknownModule(_) => "KeyError: unknown module"
    case NonStringFunction(_) => "TypeError: attribute name must be a string"
    case UnknownFunction(name) => "AttributeError: no attribute " + name
    case NotCallable(name) => "TypeError: " + name + " is not callable"
    case WrongArgumentCount(name, _, _) => "TypeError: wrong number of arguments to " + name
  }

  /** getattr on a module followed by the call with `argc` positional
      arguments. */
  function Call(m: Module, name: Json, argc: nat): Result<Json, DispatchError>
  {
    match name
    case Str(s) =>
      (match m.GetAttr(s)
       case None => Failure(UnknownFunction(s))
       case Some(Field(_)) => Failure(NotCallable(s))
       case Some(Operation(arity, result)) =>
         if argc == arity then Success(result) else Failure(WrongArgumentCount(s, arity, argc)))
    case _ => Failure(NonStringFunction(name))
  }

  /** The body of the try block: look the module up in the registry, look the
      operation up on it and call it. It succeeds exactly when both names are
      strings, the module is registered, the name is an operation of it and
      the argument count matches; the result is the operation's value. */
  function Dispatch(modules: map<string, Module>, req: Request): (r: Result<Json, DispatchError>)
    ensures r.Success? <==>
      && req.moduleName.Str? && req.moduleName.s in modules && req.functionName.Str?
      && var a := modules[req.moduleName.s].GetAttr(req.functionName.s);
      && a.Some? && a.value.Operation? && a.value.arity == ArgumentCount(req.params)
    ensures r.Success? ==>
      modules[req.moduleName.s].GetAttr(req.functionName.s) == Some(Operation(ArgumentCount(req.params), r.value))
  {
    match req.moduleName
    case Str(key) =>
      if key in modules then Call(modules[key], req.functionName, ArgumentCount(req.params))
      else Failure(UnknownModule(req.moduleName))
    case Arr(_) => Failure(UnhashableModule(req.moduleName))
    case Obj(_) => Failure(UnhashableModule(req.moduleName))
    case _ => Failure(UnknownModule(req.moduleName))
  }

  /** The response fields. */
  datatype Response = Response(id: Json, errors: seq<string>, data: Json)

  /** The response to a request: it always echoes the request's id; on
      success errors is empty and data is what the operation returned; on
      failure errors holds exactly one message and data is the empty list. */
  function Respond(modules: map<string, Module>, req: Request): (r: Response)
    ensures r.id == req.id
    ensures Dispatch(modules, req).Success? ==> r.errors == [] && r.data == Dispatch(modules, req).value
    ensures Dispatch(modules, req).Failure? ==> |r.errors| == 1 && r.data == Arr([])
  {
    match Dispatch(modules, req)
    case Success(v) => Response(req.id, [], v)
    case Failure(e) => Response(req.id, [ErrorMessage(e)], Arr([]))
  }

  /** The dictionary handed to json.dumps. */
  function ResponseJson(r: Response): (j: Json)
    ensures j.Obj? && j.fields.Keys == {"id", "errors", "data"}
    ensures j.fields["id"] == r.id && j.fields["data"] == r.data
    ensures j.fields["errors"].Arr? && |j.fields["errors"].items| == |r.errors|
    ensures forall i :: 0 <= i < |r.errors| ==> j.fields["errors"].items[i] == Str(r.errors[i])
  {
    Obj(map[
      "id" := r.id,
      "errors" := Arr(seq(|r.errors|, i requires 0 <= i < |r.errors| => Str(r.errors[i]))),
      "data" := r.data
    ])
  }

  /** The bytes sent for one response: the encoded JSON object closed by
      exactly one sentinel, the only sentinel when json.dumps emits none. */
  function EncodeResponse(json: JsonLibrary, r: Response): (f: seq<byte>)
    ensures |f| >= 1 && f[|f| - 1] == Sentinel
    ensures f[..|f| - 1] == json.dumps(ResponseJson(r))
    ensures SentinelFree(json) ==> Sentinel !in f[..|f| - 1]
  {
    json.dumps(ResponseJson(r)) + [Sentinel]
  }

  /** The encoded JSON texts of a sequence of responses. */
  function Encoded(json: JsonLibrary, rs: seq<Response>): seq<seq<byte>>
  {
    seq(|rs|, i requires 0 <= i < |rs| => json.dumps(ResponseJson(rs[i])))
  }

  /** Everything written to the socket for a sequence of responses. */
  function Wire(json: JsonLibrary, rs: seq<Response>): seq<byte>
  {
    Join(Encoded(json, rs))
  }

  /** Sending one more response appends exactly its frame to the wire. */
  lemma WireSnoc(json: JsonLibrary, rs: seq<Response>, r: Response)
    ensures Wire(json, rs + [r]) == Wire(json, rs) + EncodeResponse(json, r)
  {
    assert Encoded(json, rs + [r]) == Encoded(json, rs) + [json.dumps(ResponseJson(r))];
    JoinConcat(Encoded(json, rs), [json.dumps(ResponseJson(r))]);
    assert [json.dumps(ResponseJson(r))][1..] == [];
  }

  /** A client that splits what the server wrote at the sentinels gets back
      exactly the encoded responses, in order, with nothing left over. */
  lemma ClientRecoversResponses(json: JsonLibrary, rs: seq<Response>)
    requires SentinelFree(json)
    ensures Deframe([], Wire(json, rs)) == Split(Encoded(json, rs), [])
  {
    var fs := Encoded(json, rs);
    forall i | 0 <= i < |fs| ensures Sentinel !in fs[i] {
      assert fs[i] == json.dumps(ResponseJson(rs[i]));
    }
    DeframeJoin(fs);
  }

  /** The published (module, operation) names, written out independently of
      the modules' attribute lookup, each mapped to the fixture function that
      operation returns. */
  function Published(): map<(string, string), Json>
  {
    map[
      ("info", "avs") := NewInfoModule().Avs(),
      ("info", "launcher") := NewInfoModule().Launcher(),
      ("capture", "get_screens") := NewCaptureModule().GetScreens()
    ]
  }

  /** With the controller's registry, a request succeeds exactly when it names
      one of the three published operations and passes no argument, and then
      its data is that operation's fixed value. */
  lemma RegistryDispatch(req: Request)
    ensures Dispatch(Registry(), req).Success? <==>
      && req.moduleName.Str? && req.functionName.Str?
      && (req.moduleName.s, req.functionName.s) in Published()
      && ArgumentCount(req.params) == 0
    ensures Dispatch(Registry(), req).Success? ==>
      Dispatch(Registry(), req).value == Published()[(req.moduleName.s, req.functionName.s)]
  {
  }

  /** An unregistered module name gets one error, whatever the rest of the
      request says. */
  lemma UnknownModuleFails(req: Request)
    requires req.moduleName.Str? && req.moduleName.s !in {"info", "capture"}
    ensures Dispatch(Registry(), req) == Failure(UnknownModule(req.moduleName))
    ensures |Respond(Registry(), req).errors| == 1 && Respond(Registry(), req).data == Arr([])
  {
  }

  /** None of the published operations accepts an argument. */
  lemma ArgumentsRejected(req: Request)
    requires ArgumentCount(req.params) > 0
    ensures Dispatch(Registry(), req).Failure?
    ensures |Respond(Registry(), req).errors| == 1
  {
  }

  /** The `requires_encryption` data attribute is reachable by name but is not
      an operation: calling it fails. */
  lemma FlagIsNotAnOperation(req: Request)
    requires req.moduleName.Str? && req.moduleName.s in {"info", "capture"}
    requires req.functionName == Str("requires_encryption")
    ensures Dispatch(Registry(), req) == Failure(NotCallable("requires_encryption"))
  {
  }
}
