# tang: the connection controller's request loop, in Dafny

tang is a mock of a proprietary request/response API server. Clients connect
over TCP and send JSON requests, each closed by a 0x00 sentinel byte. A
request names a capability module (`info` or `capture`), an operation of
that module, and positional parameters. The controller answers every request
with one JSON response frame carrying the request's `id`, a list of error
strings and the data.

This project models the heart of the controller: the loop that one worker
runs for one accepted connection (`Controller._receive_forever`, the inner
`while is_connected` / `for byte in data` loops). It also models the module
registry that the controller's constructor builds, and the two capability
modules behind it.

- `values.dfy` (`Values`): bytes, JSON documents, module attributes, and the
  json library seen as a pair of functions (`loads`, `dumps`).
- `info.dfy` (`Info`), `capture.dfy` (`Capture`): the capability modules.
  Each is a value with its `requiresEncryption` flag. Its operations are
  functions that return the fixture data. Because the modules are values,
  every call returns the same result and no modelled operation can change
  the flag (the program itself can change the shared instances through
  dunder attributes; see `Info.InfoModule.GetAttr` under "Left out").
- `framing.dfy` (`Framing`): the frame codec. `Deframe` splits received
  bytes at sentinels into frames, using a buffer that persists across reads.
  `Join` closes frames for sending.
- `requests.dfy` (`Requests`): decoding a frame's document into a request,
  resolving the module and operation by name (a `getattr` that reaches the
  published operations and the `requires_encryption` field), calling it, and
  building and encoding the response.
- `receive.dfy` (`Receive`): the loop's specification as functions. It
  covers one byte (`StepByte`), one read (`StepChunk`) and successive reads
  until the loop ends (`Run`). The lemmas show that the loop handles exactly
  the frames the codec finds, whatever the read boundaries, as long as the
  connection stays up. They also show how errors and empty reads end it.
- `server.dfy` (`Server`): the `Controller` class. Its constructor builds
  the registry. `ReceiveConnection` is the imperative nested loop over reads
  and bytes, with a local buffer and `isConnected` flag. It is proved to
  write exactly the bytes `Run` prescribes and to end the way `Run` does.
- `scenarios.dfy` (`Scenarios`): whole-connection runs. A good `info.avs`
  request is answered and the connection stays open. An unknown module is
  answered with one error and the connection is dropped. After a failed
  request, a later request in the same read is still decoded and
  dispatched, and its response is recorded as sent (see the line on sending
  after `connection.close()` under "Left out").

The I/O is made into parameters. What successive `recv` calls return is a
sequence of chunks; an empty chunk is the peer closing the stream. Running
out of chunks means the next read would block. What is written with `send`
is the method's `sent` output, with each response frame written in full
(see "Left out").

A frame that fails UTF-8 or JSON decoding, is not an object, lacks one of
the four keys, or has a `params` value that cannot be iterated (a number, a
boolean or null, which fails in the logging join at line 141) gets no
answer. Lines 134-141 of tang/controller.py sit outside the `try`, so the
exception escapes the loop, nothing is sent, and the worker thread ends. The
model ends the loop with the `Aborted` exit for such a frame.

## Model

| member | source | states |
|---|---|---|
| `Info.InfoModule.Avs` | tang/modules/info.py:10-25 | a one-element list whose object has exactly the keys model, ext, dest, spec, rev, services, version, all strings, with `ext` equal to "-1" |
| `Info.InfoModule.Launcher` | tang/modules/info.py:27-40 | a one-element list whose object has exactly five keys, `args` being a list of three entries |
| `Info.InfoModule.GetAttr` | tang/modules/info.py:7-40 | `avs` and `launcher` are operations taking no argument besides self; `requires_encryption` is a data attribute holding the flag; nothing else is found |
| `Info.NewInfoModule` | tang/modules/info.py:7-8 | the constructor leaves `requires_encryption` false |
| `Capture.CaptureModule.GetScreens` | tang/modules/capture.py:10-18 | exactly two screen ids, numbered 0 and 1, hence distinct |
| `Capture.CaptureModule.GetAttr` | tang/modules/capture.py:7-18 | `get_screens` is an operation taking no argument besides self; `requires_encryption` is data; nothing else is found |
| `Capture.NewCaptureModule` | tang/modules/capture.py:7-8 | the constructor leaves `requires_encryption` false |
| `Requests.Registry` | tang/controller.py:47-50 | the registry has exactly the keys `info` and `capture`, each a fresh instance of its module not requiring encryption |
| `Requests.ParseRequest` | tang/controller.py:134-141 | a request comes out exactly when the document is an object with `id`, `module`, `function` and an iterable `params`; the four fields are taken verbatim |
| `Requests.Dispatch` | tang/controller.py:145-149 | succeeds exactly when the module name is a registered string key, the function name is a string naming an operation of it, and the argument count equals its arity; the result is that operation's value |
| `Requests.ErrorMessage` | tang/controller.py:150-151 | every failure yields a non-empty message |
| `Requests.Respond` | tang/controller.py:144-165 | the response carries the request's id; on success no error and the operation's data; on failure exactly one error and data `[]` |
| `Requests.ResponseJson` | tang/controller.py:161-165 | the object handed to json.dumps has exactly the keys id, errors and data, holding the id, the error strings and the data |
| `Requests.EncodeResponse` | tang/controller.py:161-165 | a response frame is the encoded object followed by exactly one 0x00, the only one when json.dumps emits none |
| `Requests.WireSnoc` | tang/controller.py:161-171 | sending one more response appends exactly its frame to what was written |
| `Requests.ClientRecoversResponses` | tang/controller.py:161-171 | splitting everything written at the sentinels gives back exactly the encoded responses, in order, with nothing left over |
| `Requests.RegistryDispatch` | tang/controller.py:145-149 | with the controller's registry, a request succeeds exactly when it names info.avs, info.launcher or capture.get_screens and passes no argument, and its data is then that operation's fixture, checked against the published (module, operation) names written out independently |
| `Requests.UnknownModuleFails` | tang/controller.py:145-153 | an unregistered module name gives one error and data `[]` |
| `Requests.ArgumentsRejected` | tang/controller.py:149 | every published operation rejects a non-empty parameter list |
| `Requests.FlagIsNotAnOperation` | tang/controller.py:147-149 | naming `requires_encryption` as the function fails, as it is not callable |
| `Framing.Deframe` | tang/controller.py:131-181 | one frame comes out per sentinel byte received |
| `Framing.DeframeReassembles` | tang/controller.py:131-181 | re-closing the frames and appending the leftover gives back the buffer followed by the received bytes |
| `Framing.DeframeSentinelFree` | tang/controller.py:133-134 | no frame and no leftover holds a sentinel, so each frame is exactly the bytes between two sentinels |
| `Framing.DeframeConcat` | tang/controller.py:118-121 | with the buffer kept across reads, receiving `a` then `b` yields the same frames and leftover as receiving `a + b` |
| `Framing.DeframeOneFrame` | tang/controller.py:133-174 | a sentinel-free frame and its sentinel close exactly one frame, the buffer followed by that frame |
| `Framing.DeframeJoin` | tang/controller.py:131-165 | deframing closed sentinel-free frames gives back exactly those frames |
| `Receive.HandleFrame` | tang/controller.py:133-178 | an undecodable frame aborts without sending; otherwise exactly one response is appended, with the request's id, and the connection stays marked connected exactly when it was and the dispatch succeeded |
| `Receive.StepByte` | tang/controller.py:131-181 | a sentinel hands exactly the buffered bytes over as one frame and empties the buffer unless that aborts; any other byte is appended to the buffer unchanged |
| `Receive.StepChunk` | tang/controller.py:131-181 | within one read, responses are only appended, a dropped connection stays dropped, and nothing happens after an abort |
| `Receive.Run` | tang/controller.py:117-181 | the loop ends aborted exactly when decoding a frame into a request raises (failing socket calls and a failing `print` are left out), dropped exactly when the flag is false, on an empty read only after reading it, and waiting only after consuming every read |
| `Receive.StepChunkConcat` | tang/controller.py:118-181 | processing two reads one after the other equals processing their concatenation |
| `Receive.ChunkFollowsFrames` | tang/controller.py:131-181 | processing a read byte by byte handles exactly the frames `Deframe` finds, in order, and keeps exactly its leftover |
| `Receive.StreamFollowsFrames` | tang/controller.py:118-181 | while the connection is waiting, its responses and flag are those of handling the frames of the whole concatenated stream, and the buffer holds its unterminated tail |
| `Receive.ChunkingIrrelevant` | tang/controller.py:118-181 | two cuttings of the same bytes into reads lead to the same state while the connection is waiting |
| `Receive.SplitRead` | tang/controller.py:119-181 | while the connection stays up, receiving a block in two reads ends as receiving it in one |
| `Receive.NoReadAfterExit` | tang/controller.py:119-125 | once the loop has ended, by a false flag, an empty read or an exception, nothing the peer sends later is read |
| `Receive.EmptyReadDiscardsPartialFrame` | tang/controller.py:121-125 | an empty read ends the loop at once, with no response for the partly received frame |
| `Receive.FillBuffer` | tang/controller.py:179-181 | bytes without a sentinel are only appended to the buffer |
| `Receive.OneFrame` | tang/controller.py:131-174 | a frame and its sentinel are handled as one frame, leaving the buffer empty unless it aborts |
| `Server.Controller.constructor` | tang/controller.py:25-50 | the controller's registry is the one `Registry` describes |
| `Server.Controller.ReceiveConnection` | tang/controller.py:117-181 | the imperative loop writes exactly the frames of the responses `Run` sends, ends with `Run`'s exit, after as many reads |
| `Scenarios.AvsRequestAnswered` | tang/controller.py:117-181 | an info.avs request without parameters gets its id back with no error and the AVS fixture, and the connection stays open |
| `Scenarios.UnknownModuleDropsConnection` | tang/controller.py:145-178 | a request for an unknown module gets exactly one response with its id, one error and data `[]`, and no further read happens |
| `Scenarios.ErrorFinishesCurrentRead` | tang/controller.py:119-181 | after a failed request, a request later in the same read is still decoded and dispatched and its response recorded as sent (a real socket, closed at line 178, would raise at line 171; see "Left out"), while a request in the next read is never read |

## Left out

- Sockets and threads: binding, listening, `accept`, the worker pool and `join`, `start`, `close` and its throwaway connections, `__del__`, and `TCP_NODELAY`. These are I/O and concurrency. The loop's reads and writes are parameters and outputs instead.
- The RC4 cipher: the rc4 module is not part of this model. Only the path without a password is modelled, where bytes pass unchanged. One cipher instance would be shared by every connection and thread.
- json.loads, json.dumps and UTF-8 decoding are library calls. They appear as the two functions of a `JsonLibrary` parameter. JSON syntax is not modelled. The lemmas about the wire assume only that json.dumps never emits a 0x00 byte, which holds because it escapes control characters.
- JSON floating-point numbers, NaN and Infinity: numbers are integers. The order of keys in an encoded object is left to the json library.
- ErrorMessage: the exact text (the exception's `message` attribute or its `repr`) depends on Python's exception formatting, so only a non-empty message per error kind is modelled.
- Info.InfoModule.GetAttr, Capture.CaptureModule.GetAttr: reflective `getattr` reaches only the published operations and `requires_encryption`; dunder attributes are not modelled, and a request naming one fails as `UnknownFunction`. In the program, `__setattr__`, `__delattr__` or `__init__` called through line 149 succeed and change the module instances, which the registry of lines 47-50 shares across every connection and both worker threads. For example, `{"module": "info", "function": "__setattr__", "params": ["avs", 0]}` hides the `avs` method, so every later `info.avs` request on any connection fails with a TypeError and is dropped; `["requires_encryption", true]` flips the flag. The model therefore does not capture later results that differ after such a call. A result that json.dumps cannot encode (for example `__class__`) makes line 161, outside the `try`, raise, and the loop aborts.
- Only the number of positional arguments is modelled, not their values. A string passes its characters and an object passes its keys. The published operations take none.
- Receive.Run: exceptions from I/O inside the loop are not modelled. A `recv` at line 121 that raises (the peer reset the connection), a `send` at line 171 that raises (broken pipe, connection reset) and the `print` at line 142 that raises (a `UnicodeEncodeError` for a name holding a lone surrogate, which json.loads accepts) are all outside the `try`. In the program each of these ends the loop and the worker thread just as `Aborted` does, with nothing more sent. In the model every read returns a chunk, every send succeeds and logging never fails, so `Aborted` arises only from a frame that does not decode to a request. JSON strings holding lone surrogates cannot be represented, because a Dafny `string` cannot hold one; a json library that maps such a frame to a representable name makes the model answer a frame the program leaves unanswered.
- Server.Controller.ReceiveConnection: short writes are not modelled. Line 171 calls `connection.send(response)` and ignores how many bytes it wrote; `sendall` would keep going, `send` may write only a prefix. The model assumes every response frame is written in full. This method, `Requests.WireSnoc` and `Requests.ClientRecoversResponses` depend on that assumption. A short write would truncate the response frame on the wire, and the client would then see it merged with the next frame.
- Sending after `connection.close()`: when a failed request is followed by more frames in the same read, the model records their responses as sent. A real socket raises at line 171 at that point, and the worker thread ends.
- Logging (every `print`) and the entry points tang.py and main.py (argument parsing, SIGINT handling).
- tang/exception.py: `ControllerException` is never raised by the modelled code.
