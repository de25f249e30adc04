/**
 * The debugger thread of the DLL (`DllDebugEventHandler`): attach to the game,
 * keep it alive on detach, then for each debug event compute a resume status
 * and continue the event. What the thread does to the outside world is
 * recorded as a trace of actions: the operating-system calls it makes and the
 * Error notifications it raises.
 */
module DebugLoop {
  import opened Win

  // Debug event codes.
  const EXCEPTION_DEBUG_EVENT: Dword := 1
  const CREATE_THREAD_DEBUG_EVENT: Dword := 2
  const CREATE_PROCESS_DEBUG_EVENT: Dword := 3

  // Continue statuses.
  const DBG_CONTINUE: Dword := 0x0001_0002
  const DBG_EXCEPTION_NOT_HANDLED: Dword := 0x8001_0001

  // Exception code and flag the loop inspects.
  const EXCEPTION_SINGLE_STEP: Dword := 0x8000_0004
  const EXCEPTION_NONCONTINUABLE: Dword := 0x1

  /** The error codes the loop reports through the Error callback. */
  datatype PoeDbgStatus = GameHookNotSet | GameHookBehaviorNotSet | ExceptionNotHandled

  /**
   * One event delivered by WaitForDebugEvent. The exception fields matter only
   * for exception events. The last three fields are what the unseen routines
   * `_PoeDbgGameProcessHooks`, `_PoeDbgGameInitializeProcess` and
   * `_PoeDbgGameInitializeThread` would return if called for this event.
   */
  datatype DebugEvent = DebugEvent(
    code: Dword,
    processId: Dword,
    threadId: Dword,
    exceptionCode: Dword,
    exceptionFlags: Dword,
    firstChance: Dword,
    hookStatus: Dword,
    processInitStatus: Dword,
    threadInitStatus: Dword)

  /** What the debugger thread does that can be observed. */
  datatype Action =
    | AttachProcess(gameId: Dword)
    | DisableKillOnExit
    | WaitForEvent
    | Notify(error: PoeDbgStatus)
    | ContinueEvent(processId: Dword, threadId: Dword, status: Dword)

  predicate IsException(e: DebugEvent) {
    e.code == EXCEPTION_DEBUG_EVENT
  }

  predicate IsSingleStep(e: DebugEvent) {
    IsException(e) && e.exceptionCode == EXCEPTION_SINGLE_STEP
  }

  /** An exception other than a single step, which the loop classifies itself. */
  predicate IsOtherException(e: DebugEvent) {
    IsException(e) && e.exceptionCode != EXCEPTION_SINGLE_STEP
  }

  /** Event codes whose switch case assigns the status. */
  predicate SetsStatus(e: DebugEvent) {
    e.code == EXCEPTION_DEBUG_EVENT || e.code == CREATE_PROCESS_DEBUG_EVENT || e.code == CREATE_THREAD_DEBUG_EVENT
  }

  /** An exception the target already failed to handle: the loop reports it. */
  predicate ReportsUnhandled(e: DebugEvent) {
    IsOtherException(e) && e.firstChance == 0
  }

  /** The status the switch leaves in `Status`, given the value it held before. */
  function ResumeStatus(e: DebugEvent, carried: Dword): (status: Dword)
    ensures !SetsStatus(e) ==> status == carried
    ensures IsOtherException(e) ==> status == DBG_CONTINUE || status == DBG_EXCEPTION_NOT_HANDLED
    ensures ReportsUnhandled(e) ==> status == DBG_EXCEPTION_NOT_HANDLED
  {
    if e.code == EXCEPTION_DEBUG_EVENT then
      if e.exceptionCode == EXCEPTION_SINGLE_STEP then e.hookStatus
      else if e.firstChance != 0 && e.exceptionFlags != EXCEPTION_NONCONTINUABLE then DBG_CONTINUE
      else DBG_EXCEPTION_NOT_HANDLED
    else if e.code == CREATE_PROCESS_DEBUG_EVENT then e.processInitStatus
    else if e.code == CREATE_THREAD_DEBUG_EVENT then e.threadInitStatus
    else carried
  }

  /** One iteration of the loop: wait, maybe report, continue. */
  function StepActions(e: DebugEvent, carried: Dword): (actions: seq<Action>)
    ensures |actions| == if ReportsUnhandled(e) then 3 else 2
    ensures actions[0] == WaitForEvent
    ensures actions[|actions| - 1] == ContinueEvent(e.processId, e.threadId, ResumeStatus(e, carried))
    ensures ReportsUnhandled(e) ==> actions[1] == Notify(ExceptionNotHandled)
  {
    [WaitForEvent]
    + (if ReportsUnhandled(e) then [Notify(ExceptionNotHandled)] else [])
    + [ContinueEvent(e.processId, e.threadId, ResumeStatus(e, carried))]
  }

  /** `Status` after the loop has handled `events`, starting from `start`. */
  function LoopStatus(start: Dword, events: seq<DebugEvent>): (status: Dword)
    ensures events == [] ==> status == start
    ensures events != [] && SetsStatus(events[|events| - 1]) ==> status == ResumeStatus(events[|events| - 1], start)
    decreases |events|
  {
    if events == [] then start
    else ResumeStatus(events[|events| - 1], LoopStatus(start, events[..|events| - 1]))
  }

  /** The actions of the loop while it handles `events`, starting from status `start`. */
  function LoopActions(start: Dword, events: seq<DebugEvent>): (actions: seq<Action>)
    ensures |actions| == 2 * |events| + UnhandledCount(events)
    decreases |events|
  {
    if events == [] then []
    else
      var earlier := events[..|events| - 1];
      UnhandledCountAppend(earlier, events[|events| - 1]);
      assert earlier + [events[|events| - 1]] == events;
      LoopActions(start, earlier) + StepActions(events[|events| - 1], LoopStatus(start, earlier))
  }

  /** The actions before the loop: attach, then configure kill-on-exit, reporting the first failure. */
  function SetupActions(gameId: Dword, attachOk: bool, configOk: bool): (actions: seq<Action>)
    ensures 2 <= |actions| && actions[0] == AttachProcess(gameId)
    ensures (DisableKillOnExit in actions) == attachOk
    ensures actions[|actions| - 1].Notify? <==> !(attachOk && configOk)
    ensures WaitForEvent !in actions
  {
    if !attachOk then [AttachProcess(gameId), Notify(GameHookNotSet)]
    else if !configOk then [AttachProcess(gameId), DisableKillOnExit, Notify(GameHookBehaviorNotSet)]
    else [AttachProcess(gameId), DisableKillOnExit]
  }

  /** Everything the thread does when the setup calls succeed or fail as given and then `events` arrive. */
  function HandlerActions(gameId: Dword, attachOk: bool, configOk: bool, events: seq<DebugEvent>): (actions: seq<Action>)
    ensures SetupActions(gameId, attachOk, configOk) <= actions
    ensures !(attachOk && configOk) ==> WaitForEvent !in actions
    ensures attachOk && configOk ==> |actions| == 2 + 2 * |events| + UnhandledCount(events)
  {
    SetupActions(gameId, attachOk, configOk)
    + (if attachOk && configOk then LoopActions(DBG_CONTINUE, events) else [])
  }

  /** The ContinueDebugEvent calls of a trace, in order. */
  function Continues(trace: seq<Action>): (r: seq<Action>)
    ensures forall a :: a in r ==> a.ContinueEvent?
  {
    if trace == [] then []
    else (if trace[0].ContinueEvent? then [trace[0]] else []) + Continues(trace[1..])
  }

  /** The Error notifications of a trace, in order. */
  function Errors(trace: seq<Action>): seq<PoeDbgStatus> {
    if trace == [] then []
    else (if trace[0].Notify? then [trace[0].error] else []) + Errors(trace[1..])
  }

  /** The number of events the loop reports as unhandled exceptions. */
  function UnhandledCount(events: seq<DebugEvent>): nat {
    if events == [] then 0 else (if ReportsUnhandled(events[0]) then 1 else 0) + UnhandledCount(events[1..])
  }

  lemma {:induction false} ContinuesAppend(a: seq<Action>, b: seq<Action>)
    ensures Continues(a + b) == Continues(a) + Continues(b)
  {
    if a != [] {
      assert (a + b)[0] == a[0] && (a + b)[1..] == a[1..] + b;
      ContinuesAppend(a[1..], b);
    } else {
      assert a + b == b;
    }
  }

  lemma {:induction false} ErrorsAppend(a: seq<Action>, b: seq<Action>)
    ensures Errors(a + b) == Errors(a) + Errors(b)
  {
    if a != [] {
      assert (a + b)[0] == a[0] && (a + b)[1..] == a[1..] + b;
      ErrorsAppend(a[1..], b);
    } else {
      assert a + b == b;
    }
  }

  lemma {:induction false} UnhandledCountAppend(events: seq<DebugEvent>, e: DebugEvent)
    ensures UnhandledCount(events + [e]) == UnhandledCount(events) + (if ReportsUnhandled(e) then 1 else 0)
  {
    if events != [] {
      assert (events + [e])[1..] == events[1..] + [e];
      UnhandledCountAppend(events[1..], e);
    } else {
      assert [e][1..] == [];
    }
  }

  /** Every iteration continues its event exactly once and reports at most the one unhandled exception. */
  lemma StepObservations(e: DebugEvent, carried: Dword)
    ensures Continues(StepActions(e, carried)) == [ContinueEvent(e.processId, e.threadId, ResumeStatus(e, carried))]
    ensures Errors(StepActions(e, carried)) == if ReportsUnhandled(e) then [ExceptionNotHandled] else []
  {
    var notes: seq<Action> := if ReportsUnhandled(e) then [Notify(ExceptionNotHandled)] else [];
    var last := [ContinueEvent(e.processId, e.threadId, ResumeStatus(e, carried))];
    ContinuesAppend([WaitForEvent] + notes, last);
    ContinuesAppend([WaitForEvent], notes);
    ErrorsAppend([WaitForEvent] + notes, last);
    ErrorsAppend([WaitForEvent], notes);
  }

  /** A single-step trap resumes with exactly the hook routine's status and reports nothing. */
  lemma SingleStepResume(e: DebugEvent, carried: Dword)
    requires IsSingleStep(e)
    ensures StepActions(e, carried) == [WaitForEvent, ContinueEvent(e.processId, e.threadId, e.hookStatus)]
  {
  }

  /** A first-chance exception is continued unless its flags are exactly EXCEPTION_NONCONTINUABLE. */
  lemma FirstChanceResume(e: DebugEvent, carried: Dword)
    requires IsOtherException(e) && e.firstChance != 0
    ensures StepActions(e, carried) == [WaitForEvent, ContinueEvent(e.processId, e.threadId,
      if e.exceptionFlags != EXCEPTION_NONCONTINUABLE then DBG_CONTINUE else DBG_EXCEPTION_NOT_HANDLED)]
  {
  }

  /** A second-chance exception is reported once and passed back to the target. */
  lemma SecondChanceResume(e: DebugEvent, carried: Dword)
    requires IsOtherException(e) && e.firstChance == 0
    ensures StepActions(e, carried) == [WaitForEvent, Notify(ExceptionNotHandled),
      ContinueEvent(e.processId, e.threadId, DBG_EXCEPTION_NOT_HANDLED)]
  {
  }

  /** Process and thread creation resume with the initialiser's status and report nothing. */
  lemma CreateResume(e: DebugEvent, carried: Dword)
    requires e.code == CREATE_PROCESS_DEBUG_EVENT || e.code == CREATE_THREAD_DEBUG_EVENT
    ensures StepActions(e, carried) == [WaitForEvent, ContinueEvent(e.processId, e.threadId,
      if e.code == CREATE_PROCESS_DEBUG_EVENT then e.processInitStatus else e.threadInitStatus)]
  {
  }

  /** Any other event is continued with the status left over from the previous event. */
  lemma OtherEventResume(e: DebugEvent, carried: Dword)
    requires !SetsStatus(e)
    ensures StepActions(e, carried) == [WaitForEvent, ContinueEvent(e.processId, e.threadId, carried)]
  {
  }

  /** The status an event sets does not depend on the status it found. */
  lemma ResumeStatusIgnoresCarried(e: DebugEvent, c1: Dword, c2: Dword)
    requires SetsStatus(e)
    ensures ResumeStatus(e, c1) == ResumeStatus(e, c2)
  {
  }

  /** With no status-setting event so far, `Status` still holds its initial value. */
  lemma {:induction false} StatusWithoutSetter(start: Dword, events: seq<DebugEvent>)
    requires forall m :: 0 <= m < |events| ==> !SetsStatus(events[m])
    ensures LoopStatus(start, events) == start
  {
    if events != [] {
      var earlier := events[..|events| - 1];
      assert forall m :: 0 <= m < |earlier| ==> earlier[m] == events[m];
      StatusWithoutSetter(start, earlier);
    }
  }

  /**
   * The carried-over status: `Status` is what the last status-setting event
   * set, however many other events came after it.
   */
  lemma {:induction false} StatusFromLastSetter(start: Dword, events: seq<DebugEvent>, j: nat)
    requires j < |events| && SetsStatus(events[j])
    requires forall m :: j < m < |events| ==> !SetsStatus(events[m])
    ensures LoopStatus(start, events) == ResumeStatus(events[j], start)
  {
    var n := |events| - 1;
    var earlier := events[..n];
    if j == n {
      ResumeStatusIgnoresCarried(events[n], LoopStatus(start, earlier), start);
    } else {
      assert earlier[j] == events[j];
      assert forall m :: j < m < |earlier| ==> earlier[m] == events[m];
      StatusFromLastSetter(start, earlier, j);
    }
  }

  /** One ContinueDebugEvent per event. */
  lemma {:induction false} LoopContinueCount(start: Dword, events: seq<DebugEvent>)
    ensures |Continues(LoopActions(start, events))| == |events|
  {
    if events != [] {
      var n := |events| - 1;
      var earlier := events[..n];
      LoopContinueCount(start, earlier);
      ContinuesAppend(LoopActions(start, earlier), StepActions(events[n], LoopStatus(start, earlier)));
      StepObservations(events[n], LoopStatus(start, earlier));
    }
  }

  /** The k-th ContinueDebugEvent is for event k, with its ids and the status computed up to it. */
  lemma {:induction false} LoopContinueAt(start: Dword, events: seq<DebugEvent>, k: nat)
    requires k < |events|
    ensures |Continues(LoopActions(start, events))| == |events|
    ensures Continues(LoopActions(start, events))[k]
            == ContinueEvent(events[k].processId, events[k].threadId, LoopStatus(start, events[..k + 1]))
  {
    var n := |events| - 1;
    var earlier := events[..n];
    var carried := LoopStatus(start, earlier);
    var before := LoopActions(start, earlier);
    var step := StepActions(events[n], carried);
    assert LoopActions(start, events) == before + step;
    LoopContinueCount(start, earlier);
    ContinuesAppend(before, step);
    StepObservations(events[n], carried);
    var continues := Continues(before) + [ContinueEvent(events[n].processId, events[n].threadId, ResumeStatus(events[n], carried))];
    assert Continues(LoopActions(start, events)) == continues;
    if k == n {
      assert events[..k + 1] == events;
      assert LoopStatus(start, events) == ResumeStatus(events[n], carried);
    } else {
      LoopContinueAt(start, earlier, k);
      assert earlier[..k + 1] == events[..k + 1];
      assert continues[k] == Continues(before)[k];
    }
  }

  /** The loop's only Error notifications are one ExceptionNotHandled per second-chance exception. */
  lemma {:induction false} LoopErrors(start: Dword, events: seq<DebugEvent>)
    ensures |Errors(LoopActions(start, events))| == UnhandledCount(events)
    ensures forall s :: s in Errors(LoopActions(start, events)) ==> s == ExceptionNotHandled
  {
    if events != [] {
      var n := |events| - 1;
      var earlier := events[..n];
      LoopErrors(start, earlier);
      ErrorsAppend(LoopActions(start, earlier), StepActions(events[n], LoopStatus(start, earlier)));
      StepObservations(events[n], LoopStatus(start, earlier));
      UnhandledCountAppend(earlier, events[n]);
      assert earlier + [events[n]] == events;
    }
  }

  /** The loop never attaches, configures or reports a setup error again. */
  lemma {:induction false} LoopActionsAreEventActions(start: Dword, events: seq<DebugEvent>)
    ensures forall a :: a in LoopActions(start, events) ==> a.WaitForEvent? || a.ContinueEvent? || a == Notify(ExceptionNotHandled)
  {
    if events != [] {
      LoopActionsAreEventActions(start, events[..|events| - 1]);
    }
  }

  /** A failed attach is reported once; the thread then configures nothing and handles no event. */
  lemma AttachFailure(gameId: Dword, configOk: bool, events: seq<DebugEvent>)
    ensures
      var trace := HandlerActions(gameId, false, configOk, events);
      && Errors(trace) == [GameHookNotSet]
      && DisableKillOnExit !in trace && WaitForEvent !in trace
      && Continues(trace) == []
  {
    var trace := HandlerActions(gameId, false, configOk, events);
    assert trace == [AttachProcess(gameId), Notify(GameHookNotSet)];
    assert trace[1..] == [Notify(GameHookNotSet)] && trace[1..][1..] == [];
    assert Errors(trace[1..]) == [GameHookNotSet] && Continues(trace[1..]) == [];
  }

  /** A failed kill-on-exit configuration is reported once and no event is handled. */
  lemma ConfigFailure(gameId: Dword, events: seq<DebugEvent>)
    ensures
      var trace := HandlerActions(gameId, true, false, events);
      && Errors(trace) == [GameHookBehaviorNotSet]
      && WaitForEvent !in trace
      && Continues(trace) == []
  {
    var trace := HandlerActions(gameId, true, false, events);
    assert trace == [AttachProcess(gameId), DisableKillOnExit, Notify(GameHookBehaviorNotSet)];
    assert trace[1..][1..] == [Notify(GameHookBehaviorNotSet)] && trace[1..][1..][1..] == [];
    assert Errors(trace[1..][1..]) == [GameHookBehaviorNotSet] && Continues(trace[1..][1..]) == [];
    assert Errors(trace[1..]) == [GameHookBehaviorNotSet] && Continues(trace[1..]) == [];
  }

  /**
   * After a successful setup, every event is continued exactly once with its own
   * ids, and the only errors are the second-chance exceptions; the first event
   * that sets no status is continued with DBG_CONTINUE.
   */
  lemma HandlerAfterSetup(gameId: Dword, events: seq<DebugEvent>)
    ensures
      var trace := HandlerActions(gameId, true, true, events);
      && |Continues(trace)| == |events|
      && (forall k :: 0 <= k < |events| ==>
            Continues(trace)[k].processId == events[k].processId && Continues(trace)[k].threadId == events[k].threadId)
      && |Errors(trace)| == UnhandledCount(events)
      && (forall s :: s in Errors(trace) ==> s == ExceptionNotHandled)
      && (|events| > 0 && !SetsStatus(events[0]) ==> Continues(trace)[0].status == DBG_CONTINUE)
  {
    var setup := SetupActions(gameId, true, true);
    ContinuesAppend(setup, LoopActions(DBG_CONTINUE, events));
    ErrorsAppend(setup, LoopActions(DBG_CONTINUE, events));
    LoopContinueCount(DBG_CONTINUE, events);
    forall k | 0 <= k < |events|
      ensures Continues(LoopActions(DBG_CONTINUE, events))[k].processId == events[k].processId
      ensures Continues(LoopActions(DBG_CONTINUE, events))[k].threadId == events[k].threadId
    {
      LoopContinueAt(DBG_CONTINUE, events, k);
    }
    LoopErrors(DBG_CONTINUE, events);
    if |events| > 0 && !SetsStatus(events[0]) {
      LoopContinueAt(DBG_CONTINUE, events, 0);
      assert events[..1][..0] == [];
    }
  }

  datatype Phase = Detached | Listening | Exited

  /** The debugger thread's state: its `Status` local and what it has done so far. */
  class DebugEventHandler {
    const gameId: Dword
    var phase: Phase
    var status: Dword
    var trace: seq<Action>
    /** The events received so far. */
    ghost var received: seq<DebugEvent>

    ghost predicate Valid()
      reads this
    {
      && (phase == Detached ==> trace == [] && received == [])
      && (phase == Exited ==>
            && received == []
            && (trace == SetupActions(gameId, false, false) || trace == SetupActions(gameId, true, false)))
      && (phase == Listening ==>
            && trace == HandlerActions(gameId, true, true, received)
            && status == LoopStatus(DBG_CONTINUE, received))
    }

    constructor (gameId: Dword)
      ensures Valid() && this.gameId == gameId && phase == Detached && trace == [] && received == []
    {
      this.gameId := gameId;
      phase := Detached;
      status := DBG_CONTINUE;
      trace := [];
      received := [];
    }

    /**
     * DebugActiveProcess and DebugSetProcessKillOnExit(FALSE), whose outcomes
     * are given; the first failure is reported and ends the thread.
     */
    method Setup(attachOk: bool, configOk: bool)
      requires Valid() && phase == Detached
      modifies this
      ensures Valid()
      ensures trace == SetupActions(gameId, attachOk, configOk)
      ensures phase == if attachOk && configOk then Listening else Exited
      ensures phase == Listening ==> status == DBG_CONTINUE && received == []
    {
      trace := trace + [AttachProcess(gameId)];
      if !attachOk {
        trace := trace + [Notify(GameHookNotSet)];
        phase := Exited;
        return;
      }
      trace := trace + [DisableKillOnExit];
      if !configOk {
        trace := trace + [Notify(GameHookBehaviorNotSet)];
        phase := Exited;
        return;
      }
      status := DBG_CONTINUE;
      phase := Listening;
    }

    /** One pass of the loop body for the event WaitForDebugEvent delivered. */
    method Step(e: DebugEvent)
      requires Valid() && phase == Listening
      modifies this
      ensures Valid() && phase == Listening
      ensures received == old(received) + [e]
      ensures status == ResumeStatus(e, old(status))
      ensures trace == old(trace) + StepActions(e, old(status))
    {
      trace := trace + [WaitForEvent];
      if e.code == EXCEPTION_DEBUG_EVENT {
        status := DBG_EXCEPTION_NOT_HANDLED;
        if e.exceptionCode == EXCEPTION_SINGLE_STEP {
          status := e.hookStatus;
        } else {
          if e.firstChance != 0 {
            if e.exceptionFlags != EXCEPTION_NONCONTINUABLE {
              status := DBG_CONTINUE;
            }
          } else {
            trace := trace + [Notify(ExceptionNotHandled)];
          }
        }
      } else if e.code == CREATE_PROCESS_DEBUG_EVENT {
        status := e.processInitStatus;
      } else if e.code == CREATE_THREAD_DEBUG_EVENT {
        status := e.threadInitStatus;
      }
      trace := trace + [ContinueEvent(e.processId, e.threadId, status)];
      received := received + [e];
      assert received[..|received| - 1] == old(received);
    }

    /** The `for (;;)` loop, run over the finite sequence of events that arrive. */
    method Run(events: seq<DebugEvent>)
      requires Valid() && phase == Listening
      modifies this
      ensures Valid() && phase == Listening
      ensures received == old(received) + events
      ensures trace == HandlerActions(gameId, true, true, received)
    {
      for i := 0 to |events|
        invariant Valid() && phase == Listening
        invariant received == old(received) + events[..i]
      {
        Step(events[i]);
        assert events[..i + 1] == events[..i] + [events[i]];
      }
      assert events[..|events|] == events;
    }
  }

  /** DllDebugEventHandler over a finite run: setup, then the loop while setup succeeded. */
  method DllDebugEventHandler(gameId: Dword, attachOk: bool, configOk: bool, events: seq<DebugEvent>)
    returns (handler: DebugEventHandler)
    ensures handler.trace == HandlerActions(gameId, attachOk, configOk, events)
  {
    handler := new DebugEventHandler(gameId);
    handler.Setup(attachOk, configOk);
    if handler.phase == Listening {
      handler.Run(events);
      assert handler.received == events;
    }
  }
}
