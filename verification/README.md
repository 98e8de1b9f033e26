# A model of Debugler

Debugler is an on-line OpenGL debugger. A wrapper library inside the debugged program (the debuggee) sees
every GL call, keeps a shadow of GL's objects, stops the program when asked to, and talks to a graphical
debugger over a socket. This project models the stateful parts of both ends and proves what they promise.

The modules come in pairs. One says on values what every operation does and what that means over whole
runs; the other has the objects of the program, with their fields, loops and arrays, and proves that each
method computes the function of its namesake.

| files | what they model |
|---|---|
| `ObjectNamespace` | the mirror of one GL namespace: an ordered map with a cache of the first hundred names |
| `GlRules` | what OpenGL 4.5 core, sections 7.1 and 7.3, says about the lifetime of shaders and programs |
| `ShaderModel`, `ShaderStore` | the mirror of shaders and programs: reference counts, deferred deletion, the destructor that reaches into the other namespace |
| `TextureModel`, `TextureStore`, `TextureObject` | texture names, the bindings of every unit, and the recorded mipmap levels |
| `BufferReadBack` | reading a buffer back by drawing it as points, in chunks |
| `Framing`, `Transport` | headers, compression, the write queue and its notices, the reader of arbitrarily cut bytes |
| `CallHistory`, `TraceView` | the circular history of calls and the list that pages it in backwards |
| `SessionModel`, `Debuggee` | breaking, stepping, losing and remaking the connection |
| `Stepping` | sessions that keep the connection: every stop is at the first call that is due |
| `Reconnecting` | what a lost connection holds, what it lets go on, and what a debugger that comes back is told |
| `Sessions` | whole runs in which the connection comes and goes: exactly what is sent to the debugger and which calls are made |
| `RequestModel`, `Requests` | numbered requests, replies, and listeners that keep views fresh |
| `HighlightModel`, `Highlighter` | the stack machine of the GLSL highlighter, its numbering of states, and highlighting after an edit |
| `ScanEnds` | for which grammars the scan of every line ends |
| `StateOrder` | the comparison of states by which they are numbered, and what a search that trusts it finds |
| `Expansion` | the loop that replaces placeholders, and for which texts and values it ends |
| `SocketNames`, `SocketPattern` | the template of socket names, expanded by the debuggee and read back by the debugger |
| `ActionChain` | the dispatch table of actions and the links between them |

`dafny verify dfyconfig.toml` checks the whole project.

## What is taken for granted

GL, sockets, zlib, the archive format, Qt's widgets and the operating system are not modelled. They appear
as parameters: the calls that GL accepted, the bytes and connections that arrive, a codec whose packing and
unpacking are inverse, a rule's answer to a string, a process name and number. The handlers of GL calls run
only when GL reported no error, so the calls of a run are those that GL accepts; that is the `Legal` of
`GlRules`. Objects that the program keeps in a namespace and points to are values under their names here.

## Where the code does not do what one would hope

Where a lemma named `...Exactly` or an if-and-only-if is behind it, the condition given is exact.

- Reading a buffer back skips one byte when the size modulo 256 is odd and more than four. The comment in
  `src/DGLWrapper/gl-auxcontext.cpp:715` speaks of full elements, but the mask in the next line clears the bit
  of value two (`BufferReadBack.CompleteExactly`).
- The state comparison of the highlighter orders a set of states exactly if no two of equal length are each
  smaller somewhere (`StateOrder.StrictOrderExactly`), and exactly then every state has one number in search trees of every shape
  (`StateOrder.OneNumberExactly`). The states that a grammar reaches need not be of that kind: one that is held
  can be numbered again (`StateOrder.HeldStateIsNumberedTwice`). No two states share a number, so highlighting by
  number is right all the same (`Highlighter.SyntaxHighlighter.Insert`).
- A highlighting rule may match the empty string. The loop over a line guards only against the case that no rule
  matched, so it ends for every line and every stack on the initial context exactly if each stall has a way out
  (`ScanEnds.ScanEndsExactly`). A context may pop back (`ScanEnds.PopsBack`); a rule of the initial context that
  stays may not match emptily (`ScanEnds.StaysForEver`).
- Contexts that share their textures in GL have separate mirrors. The mirror of one shows the textures of the group
  throughout a run exactly if no other context makes a texture that is not there or deletes one that is
  (`TextureModel.ShareGroupExactly`, `TextureModel.SharingIsMissed`).
- Two placeholders that touch make a pattern that fits nothing, and a separating text that comes up again in
  the second value moves the boundary (`SocketPattern.ThereAndBack`).
- The loop that puts the process name for `%n` does not always end (`Expansion.EndsExactly`). A name is safe in
  every template exactly if it does not hold `%n` and does not both start with `nn` and end with `%%`
  (`Expansion.SafeValuesExactly`): in the template `%%n` the name `nn%%` keeps the debuggee expanding for ever
  (`Expansion.NameWithoutPlaceholderNeverEnds`).
- An action has one link for all its entry points, so at an entry point shared by two of them the earlier one
  may be forgotten (`ActionChain.NobodyLeftOutExactly`); that happens to the program action
  (`ActionChain.ProgramActionIsForgotten`).
- The comment at `src/DGLWrapper/debugger.cpp:244-247` wants a stopped program to wait for a connection. Breaking is
  masked as soon as the connection is lost, so the pending break is no reason to wait: the program makes its call
  with nobody on the line exactly if the next poll neither blocks for good nor leaves a debugger there
  (`Reconnecting.LossHoldsExactly`). In the mode that waits that takes a failed accept or a connection that is lost
  at once, in the mode that listens it is enough that no debugger has connected yet
  (`Reconnecting.StopIsLeftUnseen`). Where the poll in front of a call finds the loss, the server is opened again
  after that call was made; a program that loses its debugger while stopped opens it again before.
- A payload of 2^31 bytes or more survives its header only within 2^31 of 2^64 (`Framing.SizeSurvives`).
- The comment on `disconnectServer` in `src/DGLGui/dglcontroller.h` says that the debuggee ends when the
  debugger disconnects. The debuggee's code goes on and waits for the next connection when it must
  (`src/DGLWrapper/debugger.cpp:332-348`); the model follows the code.

## Model

| member | source | states |
|---|---|---|
| `ObjectNamespace.ObjectNS.GetObject` | src/DGLWrapper/gl-object-namespace.h:37-48 | a lookup answers what the map holds, whether it reads the cache of the first hundred names or the map |
| `ObjectNamespace.ObjectNS.GetOrCreateObject` | src/DGLWrapper/gl-object-namespace.h:50-90 | an absent object is created once, a present one is handed out untouched; map and cache stay in step |
| `ObjectNamespace.ObjectNS.DeleteObject` | src/DGLWrapper/gl-object-namespace.h:92-102 | the name is gone from map and cache, and the erased object comes back for its destructor |
| `ObjectNamespace.ObjectNS.Clear` | src/DGLWrapper/gl-object-namespace.h:116-121 | whatever the cache held before, everything is empty |
| `ShaderStore.NameSpaces.DeleteSelfIfNeeded` | src/DGLWrapper/gl-objects.cpp:331-335 | a shader leaves its namespace exactly when its delete was called and nothing holds it |
| `ShaderStore.NameSpaces.IncRefCount` | src/DGLWrapper/gl-objects.cpp:206 | one more holder is counted, nothing else changes |
| `ShaderStore.NameSpaces.DecRefCount` | src/DGLWrapper/gl-objects.cpp:207-210 | one holder fewer, and the shader goes if it was the last one of a deleted shader |
| `ShaderStore.NameSpaces.DestroyProgram` | src/DGLWrapper/gl-objects.cpp:135-140 | the destructor releases every attached shader once, whatever the order of the set, and reaches into the other namespace |
| `ShaderStore.NameSpaces.EraseProgram` | src/DGLWrapper/actions.cpp:1209-1211 | the program leaves its namespace and then lets go of its shaders |
| `ShaderStore.NameSpaces.SettleProgram` | src/DGLWrapper/actions.cpp:1208-1211 | a program in its new state is kept, or erased when it is deleted and not in use |
| `ShaderStore.NameSpaces.CreateShader` | src/DGLWrapper/actions.cpp:1363-1374 | a created shader has its kind and starts without delete flag and holders |
| `ShaderStore.NameSpaces.DeleteShader` | src/DGLWrapper/actions.cpp:1376-1384 | the flag is set and the shader goes if nothing holds it |
| `ShaderStore.NameSpaces.CreateProgram` | src/DGLWrapper/actions.cpp:1194-1199 | a program of that name exists, unchanged if it already did |
| `ShaderStore.NameSpaces.DeleteProgram` | src/DGLWrapper/actions.cpp:1201-1211 | the flag is set and the program goes unless it is in use |
| `ShaderStore.NameSpaces.StepDown` | src/DGLWrapper/actions.cpp:1220-1234 | the program in use so far steps down, and goes if it was only waiting for that |
| `ShaderStore.NameSpaces.UseProgram` | src/DGLWrapper/actions.cpp:1213-1241 | the last program steps down, the new one is in use and current |
| `ShaderStore.NameSpaces.AttachShader` | src/DGLWrapper/actions.cpp:1399-1410 | the shader is in the attached set and counted once more |
| `ShaderStore.NameSpaces.DetachShader` | src/DGLWrapper/actions.cpp:1412-1423 | the shader leaves the set, is counted once less, and goes if it was waiting for that |
| `ShaderStore.NameSpaces.Handle` | src/DGLWrapper/actions.cpp:1189-1241 | the handler of every event computes the model step of that event |
| `ShaderStore.NameSpaces.ClearPrograms` | src/DGLWrapper/gl-object-namespace.cpp:29-35 | all programs go at once, their destructors run in any order and never reach a shader that is gone; left are the shaders that nobody asked to delete, held by no one |
| `ShaderStore.NameSpaces.Clear` | src/DGLWrapper/gl-object-namespace.cpp:29-35 | programs before shaders, both namespaces end empty |
| `ShaderStore.Mirror` | src/DGLWrapper/actions.cpp:1189-1435 | over every run of calls that GL accepts of one context: reference counts equal the number of holders, nothing dangles, nothing is overdue, and programs, shaders, kinds, flags, attachments and the current program are those of sections 7.1 and 7.3 |
| `ShaderModel.ReleaseOneMore` | src/DGLWrapper/gl-objects.cpp:135-140 | letting go of shaders one by one adds up to letting go of the set, in any order |
| `ShaderModel.EraseKeepsCounts` | src/DGLWrapper/gl-objects.cpp:135-156 | erasing a program keeps all counts right and leaves no attached shader that is gone |
| `ShaderModel.CreateKeepsInv` | src/DGLWrapper/actions.cpp:1363-1374 | creating keeps counts, links and flags right |
| `ShaderModel.DeleteShaderKeepsInv` | src/DGLWrapper/gl-objects.cpp:201-204 | deleting a shader keeps them right |
| `ShaderModel.AttachKeepsInv` | src/DGLWrapper/gl-objects.cpp:148-151 | attaching a shader that is not yet attached keeps them right |
| `ShaderModel.DetachKeepsInv` | src/DGLWrapper/gl-objects.cpp:153-156 | detaching an attached shader keeps them right |
| `ShaderModel.DeleteProgramKeepsInv` | src/DGLWrapper/actions.cpp:1201-1211 | deleting a program keeps them right, its own destructor included |
| `ShaderModel.UseProgramKeepsInv` | src/DGLWrapper/actions.cpp:1213-1241 | changing the current program keeps them right, in use meaning current throughout |
| `ShaderModel.EraseIsCollect` | src/DGLWrapper/gl-objects.cpp:135-156 | a destructor by reference counts removes exactly what the GL rules collect |
| `ShaderModel.SettleIsCollect` | src/DGLWrapper/gl-objects.cpp:331-335 | a single shader goes exactly when the GL rules collect it |
| `ShaderModel.NothingToCollect` | src/DGLWrapper/gl-objects.cpp:142-146 | while nothing is overdue the GL rules collect nothing |
| `ShaderModel.DeleteShaderRefines` | src/DGLWrapper/actions.cpp:1376-1384 | glDeleteShader does to the store what it does to GL |
| `ShaderModel.DetachRefines` | src/DGLWrapper/actions.cpp:1412-1423 | glDetachShader does to the store what it does to GL |
| `ShaderModel.DeleteProgramRefines` | src/DGLWrapper/actions.cpp:1201-1211 | glDeleteProgram does to the store what it does to GL |
| `ShaderModel.UseProgramRefines` | src/DGLWrapper/actions.cpp:1213-1241 | glUseProgram does to the store what it does to GL |
| `ShaderModel.StepRefines` | src/DGLWrapper/actions.cpp:1189-1435 | every accepted call takes agreeing states of store and GL to agreeing states and keeps the invariant |
| `ShaderModel.RunRefines` | src/DGLWrapper/actions.cpp:1189-1435 | and so does every run |
| `ShaderModel.AttachNeedsNewShader` | src/DGLWrapper/gl-objects.cpp:148-151 | attaching keeps the count right exactly when the shader was not attached before, which is what GL checks first |
| `ShaderModel.DetachNeedsAttachedShader` | src/DGLWrapper/gl-objects.cpp:153-156 | detaching keeps the count right exactly when the shader was attached |
| `ShaderModel.LeftoverGoesOn` | src/DGLWrapper/gl-object-namespace.cpp:29-35 | whichever program is destroyed next, its shaders are still there, and counts stay exact |
| `ShaderModel.NothingLeftOver` | src/DGLWrapper/gl-object-namespace.cpp:29-35 | with the last program every shader that is left is unheld and not flagged |
| `TextureStore.BindUnit` | src/DGLWrapper/gl-texunit.cpp:23-32 | a name takes the place of what was bound to the target, name zero takes it away |
| `TextureStore.UnbindUnit` | src/DGLWrapper/gl-texunit.cpp:34-46 | erasing while iterating removes all and only the bindings to the name |
| `TextureStore.AllTextureUnits.BindTexture` | src/DGLWrapper/gl-texunit.cpp:67-80 | the active unit is bound, the table growing if it must; all other units stay |
| `TextureStore.AllTextureUnits.UnbindTexture` | src/DGLWrapper/gl-texunit.cpp:82-86 | the name is unbound from every unit |
| `TextureStore.TextureAction.GenTextures` | src/DGLWrapper/actions.cpp:924-933 | every generated name exists, old objects untouched |
| `TextureStore.TextureAction.DeleteTextures` | src/DGLWrapper/actions.cpp:934-945 | the names are gone, and so are their bindings in this context |
| `TextureStore.TextureAction.BindTexture` | src/DGLWrapper/actions.cpp:946-954 | the object exists with its first target and is bound |
| `TextureStore.TextureAction.Handle` | src/DGLWrapper/actions.cpp:920-957 | the handler of every event computes the model step of that event in the namespace and the units of its own context |
| `TextureStore.HandleIn` | src/DGLWrapper/gl-context.h:419 | the context of the call handles it, and no other context changes |
| `TextureStore.Mirror` | src/DGLWrapper/actions.cpp:920-957 | over every run of any number of contexts, each mirror is what the model says of it, and no binding dangles or is zero |
| `TextureModel.RunShowsTheHistory` | src/DGLWrapper/actions.cpp:920-957 | a place holds the last texture bound there unless it was deleted since, exactly the generated or bound and not deleted names exist, and each has the first target it was bound to |
| `TextureModel.StepKeepsIntegrity` | src/DGLWrapper/actions.cpp:920-957 | every call keeps bindings sound: none is zero and none dangles |
| `TextureModel.RunKeepsIntegrity` | src/DGLWrapper/actions.cpp:920-957 | so does every run |
| `TextureModel.ContextsAreApart` | src/DGLWrapper/gl-object-namespace.cpp:20-27 | every context has names of its own: it ends as if its own calls were all there were |
| `TextureModel.EveryContextIsRight` | src/DGLWrapper/actions.cpp:920-957 | for any number of contexts and every run, each mirror shows at every place and for every name what the calls of its own context leave there, and nothing dangles |
| `TextureModel.ShareGroupExactly` | src/DGLWrapper/gl-object-namespace.cpp:20-27 | where contexts share textures in GL, the mirror of one shows those of the group throughout a run exactly if no other context makes a texture that is not there or deletes one that is |
| `TextureModel.SharingIsMissed` | src/DGLWrapper/gl-object-namespace.cpp:20-27 | two contexts that share: the second misses a texture of the first, and keeps one that the first deleted |
| `TextureModel.GeneratedNames` | src/DGLWrapper/actions.cpp:931-933 | generating adds exactly the new names |
| `TextureObject.GLTextureObj.SetTexImage` | src/DGLWrapper/gl-objects.cpp:41-50 | one level is set, the list grows if it must, all other levels stay |
| `TextureObject.GLTextureObj.SetTexStorage` | src/DGLWrapper/gl-objects.cpp:52-68 | exactly the asked number of levels, each the halved size of the one before |
| `TextureObject.GLTextureObj.GetRequestedLevel` | src/DGLWrapper/gl-objects.cpp:91-98 | a level is found exactly if its index is inside the list, blank levels that were filled in included |
| `TextureObject.HalvedIsQuotient` | src/DGLWrapper/gl-objects.cpp:61-67 | halving level by level is one division by a power of two, but at least one, for every size and level |
| `TextureObject.MipmapRuleExactly` | src/DGLWrapper/gl-objects.cpp:55-67 | the mipmap size rule holds at all levels, the first included, exactly for sizes of at least one |
| `BufferReadBack.AuxGetBufferData` | src/DGLWrapper/gl-auxcontext.cpp:708-747 | the loop ends for every size and fills every byte with the byte of the buffer, except the one after the last full element of an odd rest above four, which stays |
| `BufferReadBack.CopyBytes` | src/DGLWrapper/gl-auxcontext.cpp:732-745 | the pixels land at the offset, everything else stays |
| `BufferReadBack.FullPixels` | src/DGLWrapper/gl-auxcontext.cpp:719-745 | points of four bytes come back as the bytes they were |
| `BufferReadBack.LastChunks` | src/DGLWrapper/gl-auxcontext.cpp:712-717 | the mask that clears the second bit leaves zero or two bytes for another round, and skips a byte exactly when the rest is odd and more than four |
| `BufferReadBack.ReadFromIsAnswer` | src/DGLWrapper/gl-auxcontext.cpp:710-747 | all chunks together fill everything but the missed byte |
| `BufferReadBack.WrittenOnce` | src/DGLWrapper/gl-auxcontext.cpp:710-747 | every byte but the missed one is written by exactly one chunk, and the missed one by none |
| `BufferReadBack.CompleteExactly` | src/DGLWrapper/gl-auxcontext.cpp:710-747 | the answer is the buffer, whatever was in it before, exactly when the size modulo 256 is even or at most four |
| `Framing.SizeSurvives` | src/DGLNet/transport.cpp:71-74 | a payload size comes back from the 32-bit header field exactly when it is below 2^31 or within 2^31 of 2^64 |
| `Framing.HeaderRoundTrip` | src/DGLNet/transport.cpp:68-83 | a header survives its eight bytes |
| `Framing.WireFormat` | src/DGLNet/transport.cpp:68-83 | on the wire a packet is its length and whether it is compressed, four bytes each with the lowest first, and then its body |
| `Framing.FrameRoundTrip` | src/DGLNet/transport.cpp:152-269 | a packet, compressed or not, is read back as the message it was made of, and nothing is left over |
| `Framing.DrainInPieces` | src/DGLNet/transport.cpp:142-230 | however the bytes are cut into pieces, the reader ends in the same state |
| `Framing.StreamRoundTrip` | src/DGLNet/transport.cpp:142-269 | the bytes of any list of messages are read back as that list |
| `Framing.PrefixDeliversPrefix` | src/DGLNet/transport.cpp:142-230 | any prefix of the bytes delivers a prefix of the messages |
| `Transport.Sender.Enqueue` | src/DGLNet/transport.cpp:234-262 | one packet is queued: compressed exactly above a hundred thousand bytes, with a header that says so and how long the body is |
| `Transport.Sender.SendMessage` | src/DGLNet/transport.cpp:234-269 | the message is queued, and a write starts if none is in flight |
| `Transport.GatherBuffers` | src/DGLNet/transport.cpp:275-281 | headers and payloads alternate in the order of the queue |
| `Transport.Sender.WriteQueue` | src/DGLNet/transport.cpp:272-290 | the whole queue goes into one write and the queue is empty |
| `Transport.Sender.OnWrite` | src/DGLNet/transport.cpp:293-311 | what was queued meanwhile is written next; otherwise the end of sending is announced once |
| `Transport.Receiver.Arrive` | src/DGLNet/transport.cpp:142-176 | bytes that arrive in any pieces are read as the frames they make up |
| `Transport.Receiver.OnReadHeader` | src/DGLNet/transport.cpp:153-176 | the header decides how many bytes come next and whether they are compressed |
| `Transport.Receiver.OnReadArchive` | src/DGLNet/transport.cpp:179-200 | a plain payload is delivered as a message and the next header is awaited |
| `Transport.Receiver.OnReadCompressedArchive` | src/DGLNet/transport.cpp:203-230 | a compressed payload is unpacked first |
| `Transport.Session` | src/DGLNet/transport.cpp:142-311 | over any interleaving of sends, completed writes and arrivals: at most one write in flight, ready exactly when none is, start and end notices alternate, and the messages delivered are a prefix of those sent |
| `Transport.AllDelivered` | src/DGLNet/transport.cpp:142-311 | once everything written has arrived and the queue is drained, the messages delivered are all those sent, in order, each once |
| `CallHistory.LastOfOneMore` | src/DGLWrapper/debugger.cpp:104-107 | pushing into a full circular buffer forgets the oldest call |
| `CallHistory.CallHistory.Add` | src/DGLWrapper/debugger.cpp:104-107 | the buffer is always the last 5000 calls ever made |
| `CallHistory.CallHistory.Answer` | src/DGLWrapper/debugger.cpp:109-126 | a query gets the calls between its bounds, counted back from the latest, in order; the end is trimmed and a start too far back gets none |
| `CallHistory.CallHistory.SetRetVal` | src/DGLWrapper/debugger.cpp:130-133 | the result is recorded with the latest call only |
| `CallHistory.CallHistory.SetError` | src/DGLWrapper/debugger.cpp:135-138 | the error is recorded with the latest call only |
| `CallHistory.CallHistory.SetDebugOutput` | src/DGLWrapper/debugger.cpp:140-143 | the debug output is recorded with the latest call only |
| `TraceView.TraceView.SetEnabled` | src/DGLGui/dgltraceview.cpp:131-135 | switching the view empties it and the next query starts anew |
| `TraceView.TraceView.SetRunning` | src/DGLGui/dgltraceview.cpp:137-142 | the list is emptied when the program runs on and kept when it stops |
| `TraceView.TraceView.OnBreaked` | src/DGLGui/dgltraceview.cpp:158-176 | one unknown row per call and the row of the call that stopped |
| `TraceView.TraceView.MayNeedNewElements` | src/DGLGui/dgltraceview.cpp:144-156 | the next query starts where the last one ended |
| `TraceView.TraceView.GotCallTraceChunk` | src/DGLGui/dgltraceview.cpp:178-198 | a page replaces its rows and no others, latest call lowest |
| `TraceView.PageShows` | src/DGLGui/dgltraceview.cpp:178-198 | a page put in its place extends what the list shows correctly |
| `TraceView.Browse` | src/DGLGui/dgltraceview.cpp:144-198 | after any scrolling and any replies, the last rows above the stop are the last calls of the history, in order, up to the bound already answered |
| `Debuggee.EntrypointTable.IsDrawCall` | src/DGLCommon/gl-entrypoints.cpp:161-172 | the flag that the first question fills in is membership in the list of draw calls |
| `Debuggee.EntrypointTable.IsFrameDelimiter` | src/DGLCommon/gl-entrypoints.cpp:174-185 | the flag is membership in the list of calls that end a frame |
| `Debuggee.MarkAll` | src/DGLCommon/gl-entrypoints.cpp:164-169 | exactly the listed entries are marked |
| `Debuggee.BreakState.SetEnabled` | src/DGLWrapper/debugger.cpp:38-40 | only the mask changes |
| `Debuggee.BreakState.MayBreakAt` | src/DGLWrapper/debugger.cpp:42-61 | the program stops exactly if breaking is enabled and a break was pending already, there is a breakpoint on the call, or stepping asks for it: by calls always, by draw calls for the listed draw calls, by frames for the listed frame delimiters |
| `Debuggee.BreakState.SetBreak` | src/DGLWrapper/debugger.cpp:92-98 | a break is set only while breaking is enabled |
| `Debuggee.BreakState.HandleContinue` | src/DGLWrapper/debugger.cpp:79-86 | the break flag is taken over; a step mode only when continuing |
| `Debuggee.Controller.HandleInput` | src/DGLWrapper/debugger.cpp:204-219 | a connection enables breaking and is greeted; a loss is only noted |
| `Debuggee.Controller.GetServer` | src/DGLWrapper/debugger.cpp:221-309 | a closed server is opened, and waited on when the mode or a pending break says so |
| `Debuggee.Controller.OnConnectionLost` | src/DGLWrapper/debugger.cpp:332-348 | the connection is closed and breaking masked; a pending break stays |
| `Debuggee.Controller.Poll` | src/DGLWrapper/debugger.cpp:321-330 | everything that arrived is handled, then a loss is dealt with |
| `Debuggee.Controller.RunOne` | src/DGLWrapper/debugger.cpp:311-319 | one input is handled and a loss is reported as a new connection to wait for |
| `Debuggee.Controller.WaitWhileBreaked` | src/DGLWrapper/actions.cpp:91-102 | the program stays stopped until it is let go, the connection is lost, or nothing more ever comes |
| `Debuggee.Controller.Attempt` | src/DGLWrapper/actions.cpp:64-102 | one pass polls, announces a stop and waits it out |
| `Debuggee.Controller.Pre` | src/DGLWrapper/actions.cpp:57-112 | passes repeat until one is not cut off; then the call enters the history once |
| `Debuggee.Controller.RecordDebugOutput` | src/DGLWrapper/debugger.cpp:69-71 | the output goes into the latest call and sets the break if that is configured and breaking enabled |
| `Debuggee.Controller.RecordError` | src/DGLWrapper/debugger.cpp:63-67 | the error goes into the latest call and sets the break if that is configured and breaking enabled |
| `Debuggee.Controller.RecordResult` | src/DGLWrapper/actions.cpp:137-139 | the result goes into the latest call and is no reason to stop |
| `Debuggee.Controller.RecordAll` | src/DGLWrapper/actions.cpp:121-140 | each outcome that there is goes into its field of the latest call, everything else in the history stays, and the break is set exactly if one of them is configured to and breaking is enabled |
| `Debuggee.Controller.CompilerError` | src/DGLWrapper/debugger.cpp:73-75 | a failed compilation sets the break exactly if that is configured and breaking is enabled |
| `Debuggee.Controller.Post` | src/DGLWrapper/actions.cpp:114-143 | the server is opened again if it was lost, which may block or enable breaking, and only then outcome and errors are recorded and judged |
| `Debuggee.Controller.LeaveBehind` | src/DGLWrapper/actions.cpp:114-143 | a failed compilation sets its break before the server is opened again, the other outcomes set theirs after |
| `Debuggee.Controller.MakeCall` | src/DGLWrapper/actions.cpp:57-143 | one call: what comes before it, and what comes after if the program gets past that |
| `Debuggee.Controller.RunProgram` | src/DGLWrapper/actions.cpp:57-143 | a whole program behaves as the model of the session says |
| `SessionModel.BeforeMakesTheCallOnce` | src/DGLWrapper/actions.cpp:64-109 | however often the connection is lost and remade, a call enters the history once if it is made and not at all otherwise, and it is never made while the program is stopped |
| `SessionModel.RunAdds` | src/DGLWrapper/actions.cpp:57-143 | a run adds to the history exactly the calls it made, in order, and takes back nothing that was sent |
| `SessionModel.ReturnIsAfter` | src/DGLWrapper/actions.cpp:114-143 | with a server that is open, all outcomes of a call are judged at once |
| `Stepping.HandleAllIsTold` | src/DGLWrapper/debugger.cpp:204-219 | while the connection holds, of any messages the last of each kind counts: the last break flag, the last step mode with which the program was let go, the last breakpoints and configuration |
| `Stepping.CallPasses` | src/DGLWrapper/actions.cpp:64-109 | a call that is not due is made without a word |
| `Stepping.RunSkips` | src/DGLWrapper/actions.cpp:57-143 | a run is the same as one that starts at any later call, as long as no call before that is due |
| `Stepping.StepsExactly` | src/DGLWrapper/debugger.cpp:42-98 | whatever the debugger sends meanwhile and afterwards, the program makes the calls before the first one that is due without a word and then announces that one; due is a call that matches the step mode, is a breakpoint, follows a call that raised an enabled break, or is interrupted |
| `Stepping.WaitHears` | src/DGLWrapper/actions.cpp:91-102 | a stopped program hears everything up to and including the first message that lets it go, and stays stopped if there is none |
| `Stepping.EveryStopIsDue` | src/DGLWrapper/actions.cpp:57-143 | over a whole run with any number of stops, whatever the debugger says and whenever: every stop is at the first call that is due since the program was last let go, nothing else is announced, and exactly the calls in between are made |
| `Stepping.CallStepping` | src/DGLWrapper/debugger.cpp:45-47 | left alone, a program that steps by calls is announced at its next call |
| `Stepping.DrawCallStepping` | src/DGLWrapper/debugger.cpp:48-50 | left alone, one that steps by draw calls makes all calls before the first draw call or breakpoint in silence and is announced there |
| `Stepping.FrameStepping` | src/DGLWrapper/debugger.cpp:51-53 | left alone, one that steps by frames makes all calls before the first frame delimiter or breakpoint in silence and is announced there |
| `Stepping.BreakpointStops` | src/DGLWrapper/debugger.cpp:57-59 | left alone and without stepping, the program is announced at its first breakpoint |
| `Reconnecting.BeforeKeepsPending` | src/DGLWrapper/debugger.cpp:77-98 | in front of a call a pending break survives any number of lost and new connections as long as no message taken up lets the program go |
| `Reconnecting.MadeIsTheRun` | src/DGLWrapper/actions.cpp:57-143 | the moments at which calls are made are as many as the run counts, each with the calls made up to then |
| `Reconnecting.NoCallGetsPastTheDebugger` | src/DGLWrapper/actions.cpp:57-143 | over every run that begins with a break pending: each call made before the debugger has let the program go is made with no debugger on the line, the break still pending |
| `Reconnecting.LaterPassesAreLost` | src/DGLWrapper/actions.cpp:64-103 | every pass after a loss begins closed, with breaking masked and the break pending, and the call goes on from there as if it had only come now |
| `Reconnecting.SeenConnectionIsAnswered` | src/DGLWrapper/actions.cpp:64-103 | in every pass in front of a call, the first or one after a loss: a debugger found on the line while a break is pending is told where the program stopped, unless the same poll lets the program go |
| `Reconnecting.LostPoll` | src/DGLWrapper/debugger.cpp:221-330 | a poll of a lost connection blocks for good exactly if the mode waits and no accept is left, and otherwise leaves a debugger on the line exactly if the accept succeeds (mode that waits) or the batch connects (mode that listens), with no loss in the batch |
| `Reconnecting.LossHoldsExactly` | src/DGLWrapper/debugger.cpp:221-348 | after a loss, in every mode and every world: the call is made with nobody on the line exactly if that poll neither blocks for good nor leaves a debugger there; a debugger that is there stops the program unless its own messages let it go |
| `Reconnecting.StopIsLeftUnseen` | src/DGLWrapper/actions.cpp:64-103 | a stopped program that loses its debugger goes on unseen: a run in which a call is announced and then made with nobody on the line and the break pending |
| `Reconnecting.OutcomesAfterLoss` | src/DGLWrapper/actions.cpp:114-143 | of a call made unseen in the mode that waits, a GL error or debug output can stop the program once the next debugger is there, a failed compilation cannot |
| `Sessions.HandleAllHears` | src/DGLWrapper/debugger.cpp:204-219 | what a batch comes to in every state of the connection: with nobody on the line, only what follows a connection counts |
| `Sessions.WaitDecides` | src/DGLWrapper/actions.cpp:91-102 | a stop is decided by the first message that lets the program go or loses the connection, and everything before it is heard |
| `Sessions.EveryRunIsTold` | src/DGLWrapper/actions.cpp:57-143 | over every run in every mode, with any losses and reconnections: what is sent tells a story of turns, each call made unseen, undue or let go after its stop was announced, and the run makes exactly its calls and sends exactly a greeting for each connection and an announcement for each stop, cut off or not, in that order |
| `HighlightModel.WinnerIsFirst` | src/DGLGui/dglsyntaxhighlight.cpp:425-462 | whatever rules answer: no match is further left than the winner's, none at the same place is longer, and every earlier rule's is further right or, there, shorter; without a winner every match is behind the string |
| `HighlightModel.WinnerIsBest` | src/DGLGui/dglsyntaxhighlight.cpp:425-462 | with rules that stay within the string, the winner starts inside it, and without one no rule finds anything |
| `HighlightModel.MatchLiesWithin` | src/DGLGui/dglsyntaxhighlight.cpp:425-462 | the best match lies within the rest of the line and its action leads to a context that exists |
| `HighlightModel.NeverEmptyIsOk` | src/DGLGui/dglsyntaxhighlight.cpp:780-810 | a grammar whose rules never match the empty string is one whose scans end |
| `HighlightModel.StallsExactly` | src/DGLGui/dglsyntaxhighlight.cpp:780-806 | without that, a step takes nothing exactly when some rule matches emptily at once and none matches more there |
| `HighlightModel.ActKeepsStack` | src/DGLGui/dglsyntaxhighlight.cpp:482-512 | no action empties the stack of contexts |
| `HighlightModel.LineIsTiled` | src/DGLGui/dglsyntaxhighlight.cpp:780-810 | the ranges of a line cover every character once, without gap or overlap |
| `HighlightModel.LineIsParsed` | src/DGLGui/dglsyntaxhighlight.cpp:771-810 | stretch by stretch a line has the format of the best rule of the context reached by then, and the context's own format where no rule finds anything |
| `HighlightModel.StallLeadsOut` | src/DGLGui/dglsyntaxhighlight.cpp:780-810 | a step that takes nothing pushes on, or leaves the context at which the stall began |
| `ScanEnds.OkEnds` | src/DGLGui/dglsyntaxhighlight.cpp:780-810 | from every place of every line the loop comes to the end, if there is a way out of every stall |
| `ScanEnds.ScanEndsExactly` | src/DGLGui/dglsyntaxhighlight.cpp:780-810 | the loop ends for every line and every stack on the initial context exactly if a context that can match emptily at once, and no more, gets out by pushes that never come back to a context they have passed, or, above the bottom, by a pop of itself and all it pushed |
| `ScanEnds.PopsBack` | src/DGLGui/dglsyntaxhighlight.cpp:482-512 | a grammar with a context that always matches emptily and pops back, and that never hangs |
| `ScanEnds.StaysForEver` | src/DGLGui/dglsyntaxhighlight.cpp:780-810 | an empty match that stays in the initial context holds the scan of every line that is not empty for ever |
| `StateOrder.EquivalentIsEqual` | src/DGLGui/dglsyntaxhighlight.cpp:841-854 | two states that neither precedes are equal |
| `StateOrder.StrictOrderExactly` | src/DGLGui/dglsyntaxhighlight.cpp:841-854 | on a set of states the comparison is a strict order exactly when no two states of equal length are each smaller somewhere |
| `StateOrder.HeldStateIsFound` | src/DGLGui/dglsyntaxhighlight.cpp:812-825 | where no states cross in that way, the search of any tree finds a state that is held, and the map stays sorted |
| `StateOrder.OneNumberExactly` | src/DGLGui/dglsyntaxhighlight.cpp:812-825 | over every run of insertions, whatever the shape of the tree, each state of a set has one number exactly when no two states of the set cross |
| `StateOrder.HeldStateIsNumberedTwice` | src/DGLGui/dglsyntaxhighlight.cpp:812-825 | three states that a highlighter reaches from one bottom context, and an order of insertions after which one of them has two numbers |
| `Highlighter.DoHighlight` | src/DGLGui/dglsyntaxhighlight.cpp:425-462 | the loop over the rules finds the leftmost match, the longest there, of the first such rule, with its format and action |
| `Highlighter.DoAction` | src/DGLGui/dglsyntaxhighlight.cpp:482-512 | stays, pops as many as asked but for the last one, or pushes |
| `Highlighter.TakeMatch` | src/DGLGui/dglsyntaxhighlight.cpp:786-799 | what was passed over gets the context's own format, the match that of its rule, whose action is done |
| `Highlighter.HighlightText` | src/DGLGui/dglsyntaxhighlight.cpp:780-810 | for every grammar whose scans end, the loop over a line gives the formats and the stack of the line scanned from the front |
| `Highlighter.SyntaxHighlighter.Search` | src/DGLGui/dglsyntaxhighlight.cpp:812-825 | the search down a tree of any shape ends where the comparison leads |
| `Highlighter.SyntaxHighlighter.PutAt` | src/DGLGui/dglsyntaxhighlight.cpp:812-825 | the state enters the map where the search ended, under the next number |
| `Highlighter.SyntaxHighlighter.Insert` | src/DGLGui/dglsyntaxhighlight.cpp:812-825 | the number handed out stands for exactly this stack, and numbers given before keep their meaning, although the search trusts a comparison that need not be an order; where it is one, a state that is held keeps its number |
| `Highlighter.SyntaxHighlighter.HighlightBlock` | src/DGLGui/dglsyntaxhighlight.cpp:771-826 | a line highlighted from the number before it gives what it gives from the stack that number stands for |
| `Highlighter.LocalIsGlobal` | src/DGLGui/dglsyntaxhighlight.cpp:771-826 | if every line follows from its neighbour, the whole text is formatted as if done afresh |
| `Highlighter.TextDocument.SetPlainText` | src/DGLGui/dglsyntaxhighlight.cpp:771-826 | lines highlighted in order by number come out as the whole text scanned by stacks |
| `Highlighter.TextDocument.SetLine` | src/DGLGui/dglsyntaxhighlight.cpp:771-826 | after an edit it is enough to go on until a line ends in the number it already had |
| `Expansion.ReplaceAll` | src/DGLWrapper/debugger.cpp:272-285 | the replacement loop ends, with the full expansion, for every text and value outside the endless pairs |
| `Expansion.RankFalls` | src/DGLWrapper/debugger.cpp:272-285 | for those, each replacement lowers a measure: a weight of the text from the left, one from the right, or the text left behind the first placeholder |
| `Expansion.ExpandLeavesNone` | src/DGLWrapper/debugger.cpp:272-285 | no placeholder is left |
| `Expansion.EndlessNeverEnds` | src/DGLWrapper/debugger.cpp:272-277 | for the endless pairs a placeholder is left after every number of rounds |
| `Expansion.EndsExactly` | src/DGLWrapper/debugger.cpp:272-277 | for every text and every value, the loop gets done exactly unless the text holds the placeholder and the value does too, or the text has a placeholder with one more of its characters beside it and the value starts with two key letters and ends with two per cent signs |
| `Expansion.SafeValuesExactly` | src/DGLWrapper/debugger.cpp:272-277 | a value is safe in every text exactly if it neither holds the placeholder nor starts with two key letters and ends with two per cent signs |
| `Expansion.NameWithoutPlaceholderNeverEnds` | src/DGLWrapper/debugger.cpp:272-277 | the process name nn%% does not hold the placeholder and still keeps the loop going for ever in the template %%n |
| `SocketNames.DecimalReadsBack` | src/DGLWrapper/debugger.cpp:280-283 | the printed process number reads as that number |
| `SocketNames.GetPort` | src/DGLWrapper/debugger.cpp:270-285 | names are expanded first, then numbers, for every name and template whose name loop ends |
| `SocketNames.ExpansionIsSubstitution` | src/DGLWrapper/debugger.cpp:270-285 | for every template, name and number: both loops end and come to reading the template once from left to right, exactly when that reading leaves no placeholder behind |
| `SocketNames.ExpansionOfPlainNames` | src/DGLWrapper/debugger.cpp:270-285 | for a name without a per cent sign that is not empty they come to that exactly unless a doubled per cent sign meets a name that starts with a placeholder letter |
| `SocketPattern.AdbDevice.ReloadProcessesGotPortString` | src/DGLGui/dgladbdevice.cpp:287-334 | the scan builds the pattern of the template and the places of name and number in it |
| `SocketPattern.AdbDevice.ReloadProcessesGotUnixSockets` | src/DGLGui/dgladbdevice.cpp:344-364 | the processes listed are, in order, those of exactly the sockets that fit |
| `SocketPattern.MatchIsGreediest` | src/DGLGui/dgladbdevice.cpp:350-357 | matching finds a way to fill the pattern if there is one, and of all ways the one whose earlier groups are longest |
| `SocketPattern.FitsItsTemplate` | src/DGLGui/dgladbdevice.cpp:344-364 | with separate placeholders the socket of a debuggee whose expansion is a plain substitution fits its own template |
| `SocketPattern.EveryDebuggeeIsListed` | src/DGLGui/dgladbdevice.cpp:344-364 | of any list of sockets, every one that such a debuggee listens on is listed in its place, and if debuggees listen on all of them, the list has one process for each, in order |
| `SocketPattern.PlainNameLeavesNoSign` | src/DGLGui/dgladbdevice.cpp:287-334 | in a template of placeholders and other text that is so for every name without a per cent sign |
| `SocketPattern.NoMatchOnceAdjacent` | src/DGLGui/dgladbdevice.cpp:321-325 | a placeholder that touches the one before is taken for literal text, and nothing fits |
| `SocketPattern.ThereAndBack` | src/DGLGui/dgladbdevice.cpp:287-364 | the number and name are read back exactly when some text separates the placeholders and does not come up again in the value of the second |
| `SocketPattern.OneAndBack` | src/DGLGui/dgladbdevice.cpp:287-364 | a single placeholder is read back as it was; without a number in the template the whole name of the socket stands for it, without a name there is none |
| `SocketPattern.OneSeparator` | src/DGLGui/dgladbdevice.cpp:287-364 | for a single separating character this says that the second value is free of it |
| `ActionChain.ActionManager.RegisterAction` | src/DGLWrapper/action-manager.cpp:67-74 | the action takes the place in the table and links to the one it found there |
| `ActionChain.ActionManager.constructor` | src/DGLWrapper/action-manager.cpp:24-65 | all registrations in order |
| `ActionChain.RegistrationLeaves` | src/DGLWrapper/action-manager.cpp:67-74 | the table holds the latest action of each entry point, and the single link of an action leads to what it replaced at its last entry point |
| `ActionChain.AcyclicExactly` | src/DGLWrapper/actions.cpp:38-55 | the links are acyclic exactly when no action is registered last where it already was |
| `ActionChain.ChainEndsInDefault` | src/DGLWrapper/actions.cpp:48-55 | every chain goes strictly down to the default action |
| `ActionChain.DefaultRunsFirstBefore` | src/DGLWrapper/actions.cpp:42-58 | the default action runs once before a call, and first |
| `ActionChain.DefaultRunsLastAfter` | src/DGLWrapper/actions.cpp:152-159 | it runs once after a call, and last, whether or not GL reports an error |
| `ActionChain.PreIsChainReversed` | src/DGLWrapper/actions.cpp:42-58 | before a call every action of the chain has its turn once, from the default one upwards |
| `ActionChain.PostIsChain` | src/DGLWrapper/actions.cpp:152-159 | after a call the chain has its turns downwards, without those that only act when GL reports no error |
| `ActionChain.ActingExactly` | src/DGLWrapper/actions.cpp:152-159 | these are exactly the actions of the chain that do not watch for an error that there is, and all of them without one |
| `ActionChain.NobodyLeftOutExactly` | src/DGLWrapper/action-manager.cpp:67-74 | every call runs all actions registered for it exactly when every action replaces the same one at all of its entry points |
| `ActionChain.LastEntryForgets` | src/DGLWrapper/action-manager.cpp:67-74 | an action whose last entry point had only the default one before forgets every action registered earlier for any entry point it holds |
| `ActionChain.ProgramActionIsForgotten` | src/DGLWrapper/actions.cpp:1172-1187 | the program's own registrations are of that kind: in every plan with the lists of the program and the shader action, the shader action forgets the program action at the entry point that deletes an object of either kind |
| `Requests.HandleRequest` | src/DGLWrapper/debugger.cpp:383-420 | one reply with the number of the request: a query or benchmark that succeeds is answered by what it asked for, an edit or link by nothing, a failure by its message, an unknown request by a refusal |
| `Requests.Controller.Request` | src/DGLGui/dglcontroller.cpp:30-36 | every request takes the next number and registers its issuer under it |
| `Requests.Controller.Handle` | src/DGLGui/dglcontroller.cpp:38-50 | a reply goes to the handler registered under its number, who is then forgotten |
| `Requests.Controller.UnregisterHandler` | src/DGLGui/dglcontroller.cpp:52-62 | erasing while iterating forgets all and only the requests of the handler |
| `Requests.Controller.Fire` | src/DGLGui/dglcontroller.cpp:88-101 | an enabled listener queries, a disabled one is marked |
| `Requests.Controller.EmitQueries` | src/DGLGui/dglcontroller.cpp:120-130 | the enabled listeners query, in the order in which they were created |
| `Requests.Controller.CreateListener` | src/DGLGui/dglcontroller.cpp:132-142 | a new listener queries at once |
| `Requests.Controller.SetEnabled` | src/DGLGui/dglcontroller.cpp:103-115 | a listener that missed a query blanks its view and queries when it is enabled; otherwise only the switch changes |
| `Requests.Controller.DestroyListener` | src/DGLGui/dglcontroller.cpp:74-76 | the listener and its open requests are forgotten |
| `Requests.Controller.ReplyArrives` | src/DGLGui/dglcontroller.cpp:38-50 | the oldest open request is answered and its issuer told |
| `Requests.Session` | src/DGLGui/dglcontroller.cpp:30-158 | over every run requests, replies and listeners keep their invariant |
| `RequestModel.StepKeepsInv` | src/DGLGui/dglcontroller.cpp:30-158 | open requests are those in flight whose issuer is still there; whoever is enabled has queried since the last stop, whoever is outdated is disabled |
| `RequestModel.EveryReplyIsToldOnce` | src/DGLWrapper/debugger.cpp:383-420 | there is one reply per request with its number and what that request and its outcome call for, and its issuer, and nobody else, is told it exactly once unless it went away while the request was open |
| `RequestModel.EmitAsks` | src/DGLGui/dglcontroller.cpp:120-130 | after a stop every enabled listener has asked again and every other is marked |
| `RequestModel.EmitAsksInOrder` | src/DGLGui/dglcontroller.cpp:120-130 | after a stop the enabled listeners ask in order, and exactly the disabled ones are marked |

## Left out

- ShaderStore.Mirror: shaders and programs are values in their namespaces and an attached shader is the name it has there; that two pointers may lead to one object is not modelled beyond that. It covers one context that shares shaders and programs with no other: GL would also accept calls on those of a sharing context, which the mirror does not have.
- ShaderStore.NameSpaces.AttachShader: an attached set is ordered by address in the program; the model lets the destructor take it in any order.
- Expansion.ReplaceAll: requires a text and value for which the loop ends, which is the exact condition; a loop that does not end has no result to state, and what its text becomes is said of every number of rounds instead.
- SocketPattern.MatchIsGreediest: of regular expressions only literal text and greedy groups are modelled.
- Highlighter.TextDocument.SetLine: edits that join or split lines are left to Qt, which then highlights all lines they touch.
- Highlighter.HighlightText: requires contexts that exist and a grammar for which every scan from a stack on its initial context ends, for which `ScanEnds.ScanEndsExactly` has the exact condition; a loop that does not end has no result to state.
- Stepping.EveryStopIsDue: covers sessions in which the connection holds; `Sessions.EveryRunIsTold` covers all others, turn by turn.
- Highlighter.SyntaxHighlighter.Insert: the tree behind the map of states is any tree with that order of keys; its rebalancing is not modelled.
- Debuggee.Controller.GetServer: a fork of the process, skipping a process, and the Android property that asks to wait are not modelled; the listen mode is fixed for a run.
- Debuggee.Controller.HandleInput: the message that terminates the program ends every run and is left out.
- Debuggee.Controller.Post: the debug output and the GL error of a call are parameters.
- Transport.Session: covers a run up to the first failed read or write; after one, the program tears the transport down.
- Framing.HeaderRoundTrip: both ends are taken to be little-endian, as all supported platforms are.
- TraceView.Browse: replies arrive in the order of their queries and before the program runs on.
- TraceView.TraceView.GotCallTraceChunk: requires that the page fits into the list; a reply that comes after the list was cleared would address rows that Qt does not have.
- CallHistory.CallHistory.Answer: requires that the end of a query that starts inside the buffer is not below its start; the program does not check that, and its copy would run off the buffer.
- CallHistory.CallHistory.Add: one thread makes calls; calls of several threads at once may record outcomes with each other's calls.
- Requests.Controller.Handle: a handler that goes away inside its own callback would invalidate the iterator in use; callbacks here do not do that.
- Requests.Session: one connection; requests that are open when it is lost stay open. The counter of requests is not bounded.
- ActionChain.DefaultRunsFirstBefore: what the actions return before a call is not modelled, only whose turn it is.
- BufferReadBack.AuxGetBufferData: drawing and reading pixels is a byte copy, element by element.
- The entry points that delete an object of unknown kind (`glDeleteObjectARB`) and program pipelines, which are unfinished in the program.
- Shader sources and their edits, compile and link status beyond the break they may cause.
- Framebuffers, renderbuffers and buffer names: the same namespace operations with nothing new.
- Binding and unbinding of contexts, texture size bisection, pixel formats and multisampling.
- Process injection, hooking, dynamic loading and shared memory.
- The device installer, project files, dialogs and painting.
