# poedbg: debug-event loop and packet printer, modelled in Dafny

poedbg is a Windows DLL that attaches to the game process as its debugger.
Its debugger thread (`DllDebugEventHandler`) attaches, asks the OS not to kill
the game when the debugger goes away, and then handles debug events forever.
Each event gets a resume status, and the thread calls `ContinueDebugEvent`
once for it. Single-step traps are the packet hooks. They go to a hook routine
that reports sent and received packets to the host. The sample client
registers two packet callbacks. Each one skips heartbeats (and, on receive,
entity state updates). For any other packet it prints the hex dump it built
in a fixed 64 KiB buffer, or prints "too large to display".

The project has four modules:

- `Win` (`win.dfy`): the DWORD and BYTE integer types.
- `HexFormat` (`hex_format.dfy`): the text `"%02x "` prints for each byte, a
  parser that reads that text back, and the C-string view that `%s` takes of
  a buffer.
- `PacketSample` (`packet_sample.dfy`): `GetPacketData` as a method that
  writes into an `array<Byte>` of 0x10000 positions, and the two packet
  callbacks as methods of a `PacketConsole` class. The class holds the two
  global string buffers and the lines printed so far.
- `DebugLoop` (`debug_loop.dfy`): the debugger thread as a
  `DebugEventHandler` class with its `Status` variable and a trace of what it
  did (OS calls and Error notifications). The class has `Setup`, `Step` (one
  pass of the loop body) and `Run` (the loop over a finite run of events).
  The trace is specified by functions, and lemmas state the properties of
  those functions.

The OS debugging calls and the three game routines called by the loop are not
modelled. Their results are inputs: `Setup` takes the outcomes of
`DebugActiveProcess` and `DebugSetProcessKillOnExit`, and each `DebugEvent`
carries what `_PoeDbgGameProcessHooks`, `_PoeDbgGameInitializeProcess` and
`_PoeDbgGameInitializeThread` return for it. Reading the packet is a
parameter too: `packet` holds the bytes that can be read. Reading past them
is the access violation that the `__except` handler turns into `false`.

Three behaviours of the code that are easy to misread:

- An event code other than exception, create-process and create-thread is
  not reset to `DBG_CONTINUE` (src/poedbg/main.cpp:38,92-93). The
  `default:` case leaves `Status` as it was. The event is continued with the
  status of the last event that set one, or with `DBG_CONTINUE` if no
  earlier event did (`StatusWithoutSetter`, `StatusFromLastSetter`).
- "Continuable" means the exception flags are not *equal* to
  `EXCEPTION_NONCONTINUABLE` (src/poedbg/main.cpp:72). It is not a bit test,
  so flags such as 0x11 count as continuable.
- A zero-length packet makes `GetPacketData` return true without writing
  anything, not even a NUL (samples/poedbg-cpp/poedbg-cpp/main.cpp:46,67).
  The dump line then prints whatever the buffer last held.

## Model

| member | source | states |
|---|---|---|
| `HexFormat.HexDigit` | samples/poedbg-cpp/poedbg-cpp/main.cpp:54 | the digit `%02x` prints for a nibble is a lowercase hex digit that reads back as that nibble |
| `HexFormat.DigitRoundTrip` | samples/poedbg-cpp/poedbg-cpp/main.cpp:54 | every lowercase hex digit is the one printed for its value |
| `HexFormat.HexText` | samples/poedbg-cpp/poedbg-cpp/main.cpp:46-60 | each packet byte takes exactly three characters of the dump |
| `HexFormat.ParseHex` | samples/poedbg-cpp/poedbg-cpp/main.cpp:54 | an accepted dump holds three characters per byte it decodes to |
| `HexFormat.HexPair` | samples/poedbg-cpp/poedbg-cpp/main.cpp:54 | "%02x " prints two lowercase hex digits that read back as the byte, then a space |
| `HexFormat.ThreeByteDump` | samples/poedbg-cpp/poedbg-cpp/main.cpp:54 | the bytes 01 02 03 print as "01 02 03 " |
| `HexFormat.HexTextAppend` | samples/poedbg-cpp/poedbg-cpp/main.cpp:46-59 | appending a byte appends its two digits and a space to the dump |
| `HexFormat.HexTextAt` | samples/poedbg-cpp/poedbg-cpp/main.cpp:54-59 | positions [3k, 3k+3) of the dump hold the digits of byte k and a space |
| `HexFormat.HexTextHasNoNul` | samples/poedbg-cpp/poedbg-cpp/main.cpp:54 | a dump contains no NUL character |
| `HexFormat.ParseHexText` | samples/poedbg-cpp/poedbg-cpp/main.cpp:54 | parsing the dump of a packet gives back the packet |
| `HexFormat.HexTextOfParse` | samples/poedbg-cpp/poedbg-cpp/main.cpp:54 | any text the parser accepts is exactly the dump of its result |
| `HexFormat.CString` | samples/poedbg-cpp/poedbg-cpp/main.cpp:87 | what `%s` prints is the NUL-free prefix of the buffer that stops at the first NUL |
| `HexFormat.CStringOfTerminated` | samples/poedbg-cpp/poedbg-cpp/main.cpp:87 | a NUL-free text followed by a NUL prints as that text, whatever follows |
| `PacketSample.RenderedCount` | samples/poedbg-cpp/poedbg-cpp/main.cpp:46-67 | the number of bytes written is the least of the claimed length, the readable bytes and 21845 |
| `PacketSample.Fits` | samples/poedbg-cpp/poedbg-cpp/main.cpp:46-67 | GetPacketData succeeds exactly when every claimed byte gets written |
| `PacketSample.Formatted` | samples/poedbg-cpp/poedbg-cpp/main.cpp:46-67 | the buffer after formatting has the same size as before |
| `PacketSample.FormattedLayout` | samples/poedbg-cpp/poedbg-cpp/main.cpp:46-67 | after n bytes: [3k, 3k+3) holds the pair of byte k, 3n holds NUL when n > 0, everything after 3n is untouched, and n = 0 leaves the buffer unchanged |
| `PacketSample.FormattedPrints` | samples/poedbg-cpp/poedbg-cpp/main.cpp:85-87 | after a non-empty packet, `%s` of the buffer is exactly its dump, and that parses back to the packet |
| `PacketSample.FormattedTerminated` | samples/poedbg-cpp/poedbg-cpp/main.cpp:54-59 | a buffer that holds a NUL still holds one after formatting, so `%s` never reads past it |
| `PacketSample.FormattedStep` | samples/poedbg-cpp/poedbg-cpp/main.cpp:54-59 | one more `sprintf_s` at position 3n turns the buffer for n bytes into the buffer for n + 1 bytes |
| `PacketSample.PrintHexByte` | samples/poedbg-cpp/poedbg-cpp/main.cpp:54 | `sprintf_s` writes two digits, a space and a NUL inside the bound it is given, and returns 3 |
| `PacketSample.GetPacketData` | samples/poedbg-cpp/poedbg-cpp/main.cpp:42-68 | returns true exactly when the length is at most 21845 and every byte is readable; the buffer ends up holding the dump of the first min(length, readable, 21845) bytes; every write is inside the 0x10000 positions |
| `PacketSample.ReceiveDisplayed` | samples/poedbg-cpp/poedbg-cpp/main.cpp:82-83 | a received packet is skipped exactly when its id is the heartbeat 0x22 or the entity state update 0x0e |
| `PacketSample.SendDisplayed` | samples/poedbg-cpp/poedbg-cpp/main.cpp:98 | a sent packet is skipped exactly when its id is the heartbeat 0x0d |
| `PacketSample.Line` | samples/poedbg-cpp/poedbg-cpp/main.cpp:85-107 | the printed line carries the packet's direction, id and length, and is the full dump exactly when GetPacketData succeeded |
| `PacketSample.PacketConsole.constructor` | samples/poedbg-cpp/poedbg-cpp/main.cpp:38-40 | the two global buffers are distinct, 0x10000 long and zero-filled |
| `PacketSample.PacketConsole.HandlePacketReceive` | samples/poedbg-cpp/poedbg-cpp/main.cpp:75-94 | ids 0x22 and 0x0e print nothing and leave the buffer alone; any other id formats into the receive buffer only and prints one line, the dump if it fits (exactly the packet's hex text when non-empty) or "too large"; the send buffer is unchanged |
| `PacketSample.PacketConsole.HandlePacketSend` | samples/poedbg-cpp/poedbg-cpp/main.cpp:96-109 | id 0x0d prints nothing and leaves the buffer alone; any other id formats into the send buffer only and prints one line, the dump or "too large"; the receive buffer is unchanged |
| `DebugLoop.ResumeStatus` | src/poedbg/main.cpp:52-94 | an event that sets no status keeps the carried one; a non-single-step exception gets DBG_CONTINUE or DBG_EXCEPTION_NOT_HANDLED, and a reported one always gets DBG_EXCEPTION_NOT_HANDLED |
| `DebugLoop.StepActions` | src/poedbg/main.cpp:47-97 | one loop pass waits first, continues its event last with its ids and computed status, and puts the one report in between only for an unhandled exception |
| `DebugLoop.LoopStatus` | src/poedbg/main.cpp:38-93 | `Status` starts as the initial value, and an event that sets the status decides it regardless of what came before |
| `DebugLoop.LoopActions` | src/poedbg/main.cpp:42-98 | n events give 2n actions (wait and continue) plus one per unhandled exception |
| `DebugLoop.SetupActions` | src/poedbg/main.cpp:25-35 | setup starts with the attach, configures kill-on-exit only after a successful attach, ends in a report exactly when a step failed, and never waits for an event |
| `DebugLoop.HandlerActions` | src/poedbg/main.cpp:18-99 | the thread's trace begins with the setup actions; after a failed setup it never waits, and after a good one it has two actions per event plus one per unhandled exception |
| `DebugLoop.Continues` | src/poedbg/main.cpp:97 | the continue log holds only ContinueDebugEvent calls |
| `DebugLoop.StepObservations` | src/poedbg/main.cpp:47-97 | each loop pass continues its event exactly once, with its process and thread ids, and reports an error only for an unhandled exception |
| `DebugLoop.SingleStepResume` | src/poedbg/main.cpp:61-63 | a single-step trap resumes with exactly the hook routine's status and reports nothing |
| `DebugLoop.FirstChanceResume` | src/poedbg/main.cpp:70-76 | a first-chance exception resumes with DBG_CONTINUE unless its flags equal EXCEPTION_NONCONTINUABLE, then DBG_EXCEPTION_NOT_HANDLED; no report |
| `DebugLoop.SecondChanceResume` | src/poedbg/main.cpp:77-82 | a second-chance exception reports ExceptionNotHandled once, then resumes with DBG_EXCEPTION_NOT_HANDLED |
| `DebugLoop.CreateResume` | src/poedbg/main.cpp:86-91 | process and thread creation resume with exactly the respective initialiser's status |
| `DebugLoop.OtherEventResume` | src/poedbg/main.cpp:92-97 | any other event resumes with the status carried from before and reports nothing |
| `DebugLoop.ResumeStatusIgnoresCarried` | src/poedbg/main.cpp:52-91 | the status set by an exception or create event does not depend on the previous status |
| `DebugLoop.StatusWithoutSetter` | src/poedbg/main.cpp:38-93 | until an event sets the status, the loop continues with DBG_CONTINUE |
| `DebugLoop.StatusFromLastSetter` | src/poedbg/main.cpp:38-93 | the status in force is the one the last exception or create event set |
| `DebugLoop.LoopContinueCount` | src/poedbg/main.cpp:42-98 | a run of n events makes exactly n continue calls |
| `DebugLoop.LoopContinueAt` | src/poedbg/main.cpp:42-98 | the k-th continue call is for event k, with its ids and the status computed up to and including it |
| `DebugLoop.LoopErrors` | src/poedbg/main.cpp:77-82 | the loop's only Error notifications are ExceptionNotHandled, one per second-chance exception |
| `DebugLoop.LoopActionsAreEventActions` | src/poedbg/main.cpp:42-98 | inside the loop the thread only waits, continues and reports unhandled exceptions |
| `DebugLoop.AttachFailure` | src/poedbg/main.cpp:25-29 | a failed attach is reported once as GameHookNotSet; kill-on-exit is never configured and no event is waited for or continued |
| `DebugLoop.ConfigFailure` | src/poedbg/main.cpp:31-35 | a failed kill-on-exit configuration is reported once as GameHookBehaviorNotSet and no event is waited for or continued |
| `DebugLoop.HandlerAfterSetup` | src/poedbg/main.cpp:37-98 | after a good setup, every event is continued exactly once with its own ids, the errors are exactly the second-chance exceptions, and a first event that sets no status gets DBG_CONTINUE |
| `DebugLoop.DebugEventHandler.constructor` | src/poedbg/main.cpp:18-20 | the thread starts detached with an empty trace |
| `DebugLoop.DebugEventHandler.Setup` | src/poedbg/main.cpp:25-38 | attach, then configure kill-on-exit; the first failure is reported and ends the thread, and success starts the loop with DBG_CONTINUE |
| `DebugLoop.DebugEventHandler.Step` | src/poedbg/main.cpp:47-97 | one loop pass updates `Status` from its old value and appends wait, optional report and one continue to the trace; the class invariant ties the trace to all events received |
| `DebugLoop.DebugEventHandler.Run` | src/poedbg/main.cpp:42-98 | the loop over a run of events leaves the trace equal to the specified trace of setup plus all events |
| `DebugLoop.DllDebugEventHandler` | src/poedbg/main.cpp:18-99 | the whole thread, for given setup outcomes and events, produces exactly the specified trace |

## Left out

- The OS debugging calls (`DebugActiveProcess`, `DebugSetProcessKillOnExit`, `WaitForDebugEvent`, `ContinueDebugEvent`) are actions in a trace. Their outcomes and the events they deliver are inputs.
- `_PoeDbgGameProcessHooks`, `_PoeDbgGameInitializeProcess` and `_PoeDbgGameInitializeThread` are not part of this model (game.hpp). Their return values are fields of each event. Their side effects are not modelled, including the packet callbacks a hook fires.
- `POEDBG_NOTIFY_CALLBACK` and the callback registry are not part of this model (callbacks.h). A notification is an entry in the trace. The numeric `POEDBG_STATUS_*` values are not visible, so they are three distinct constructors.
- The `for (;;)` loop never ends. `Run` covers any finite run of events.
- `DllDebugEventHandler`'s `Parameter` is unused, and its `return 0` exits are the Exited phase.
- `DllMain` always returns TRUE and is not modelled.
- The sample's `main` is not modelled: library loading, `GetProcAddress`, callback registration and `getchar`. Neither is `HandleError`, which only prints.
- Printed lines are `Message` values (a dump with id, length and text, or "too large" with id and length). The exact `printf` wording is not modelled.
- GetPacketData: the only fault modelled is a read past the packet's readable bytes. Any fill of the unused part of the buffer that a debug C runtime's `sprintf_s` may perform is not modelled.
- Threads, the lifecycle entry points and concurrency are not modelled. Neither is the "target suspended" assumption that makes the unlocked buffers safe.
