/** What the recovery library does after a crash. */
module RecoveryDispatcher {
  import opened Options
  import opened RecoveryWindow

  const SUCCESS := 0
  const FAILURE := -1
  const OK := 0

  const MODE_DEFAULT := 0
  const MODE_NEVER_REPLY := 5
  const MODE_ALWAYS_REPLY := 7

  /** The message that was being handled, and whether it may be answered. */
  datatype Message = Message(source: int, kind: int, replyable: int)

  /** What the library is compiled with, and what the system answers when the dispatcher asks it. */
  datatype System = System(
    noRecoveryOnServiceFi: bool,         // the early success for fault injection requests is compiled in
    rehandleRequests: bool,              // requests are handled again instead of answered with an error
    rs: int,                             // the process number of the reincarnation server
    fiRequest: int,                      // the type of its fault injection requests
    einval: int,
    hasCurrentMessage: bool,             // the two library functions are linked in
    hasIsUserEndpoint: bool,
    asked: Option<Message>,              // the current message, when the dispatcher asks for it
    acted: Option<Message>,              // and when an action asks for it again
    isUserEndpoint: int,
    sent: int,                           // the result of sending the error reply
    killed: int,                         // the result of killing the source
    aborted: int)                        // the result of asking for an abort

  datatype Effect = Abort | Reply(to: int, result: int) | Kill(process: int, result: int) | Rehandle

  // ----- what the dispatcher decides -----

  /** The result of an action, and what it did to the system. */
  datatype Result = Result(status: int, log: seq<Effect>)

  function Replyable(y: System): int {
    if y.hasCurrentMessage && y.asked.Some? then y.asked.value.replyable else -1
  }

  predicate FiRequest(y: System, m: Option<Message>) {
    m.Some? && m.value.source == y.rs && m.value.kind == y.fiRequest
  }

  predicate EarlySuccess(y: System) {
    y.noRecoveryOnServiceFi && y.hasCurrentMessage && FiRequest(y, y.asked)
  }

  function SendReply(y: System, source: int): Result {
    Result(if y.sent == OK then SUCCESS else FAILURE, [Reply(source, y.sent)])
  }

  function IdempotentAction(mode: int, y: System): Result {
    if !y.hasCurrentMessage || y.acted.None? then Result(FAILURE, [])
    else if y.rehandleRequests then Result(SUCCESS, if FiRequest(y, y.acted) then [] else [Rehandle])
    else if y.acted.value.replyable == 0 && mode != MODE_ALWAYS_REPLY then Result(FAILURE, [])
    else SendReply(y, y.acted.value.source)
  }

  function ProcessSpecificAction(y: System): Result {
    if !y.hasCurrentMessage || !y.hasIsUserEndpoint || y.acted.None? then Result(FAILURE, [])
    else if y.isUserEndpoint == 1 then
      Result(if y.killed == OK || y.killed == y.einval then SUCCESS else FAILURE, [Kill(y.acted.value.source, y.killed)])
    else if y.isUserEndpoint == 0 then SendReply(y, y.acted.value.source)
    else Result(FAILURE, [])
  }

  function FailStopAction(y: System): Result {
    Result(if y.aborted == OK then SUCCESS else FAILURE, [Abort])
  }

  function Action(mask: Mask, mode: int, y: System): Result {
    if FAIL_STOP in mask then FailStopAction(y)
    else if PROCESS_SPECIFIC in mask then ProcessSpecificAction(y)
    else if REQUEST_SPECIFIC in mask || IDEMPOTENT in mask then IdempotentAction(mode, y)
    else Result(FAILURE, [])
  }

  function Answerable(mode: int, y: System): int {
    if mode == MODE_NEVER_REPLY then 0 else if mode == MODE_ALWAYS_REPLY then 1 else Replyable(y)
  }

  function Dispatch(mask: Mask, mode: int, y: System): Result {
    if EarlySuccess(y) then Result(SUCCESS, [])
    else
      var a := if Answerable(mode, y) == 1 then Action(mask, mode, y) else Result(FAILURE, []);
      var status := if mode != MODE_DEFAULT then SUCCESS else a.status;
      Result(status, if status == FAILURE then a.log + [Abort] else a.log)
  }

  // ----- every crash -----

  ghost predicate ErrorReplied(log: seq<Effect>) {
    |log| == 1 && log[0].Reply? && log[0].result == OK
  }

  ghost predicate SourceGone(y: System, log: seq<Effect>) {
    |log| == 1 && log[0].Kill? && (log[0].result == OK || log[0].result == y.einval)
  }

  /** In default mode, without request rehandling, every crash ends in exactly one of four ways: the early success, an
      abort, one error reply, or the source process killed or already invalid. A failure always ends with an abort. */
  lemma {:induction false} EveryCrashEnds(mask: Mask, y: System)
    requires !y.rehandleRequests
    ensures var r := Dispatch(mask, MODE_DEFAULT, y);
            && (EarlySuccess(y) ==> r == Result(SUCCESS, []))
            && (!EarlySuccess(y) ==> Abort in r.log || ErrorReplied(r.log) || SourceGone(y, r.log))
            && (Abort in r.log ==> !ErrorReplied(r.log) && !SourceGone(y, r.log))
            && !(ErrorReplied(r.log) && SourceGone(y, r.log))
            && (r.status == SUCCESS || r.status == FAILURE)
            && (r.status == FAILURE ==> r.log != [] && r.log[|r.log|-1] == Abort)
  {
  }

  /** The action that the mask selects can succeed without an abort. */
  predicate Recoverable(mask: Mask, y: System) {
    && y.hasCurrentMessage && y.asked.Some? && y.asked.value.replyable == 1 && y.acted.Some? && FAIL_STOP !in mask
    && if PROCESS_SPECIFIC in mask then
         && y.hasIsUserEndpoint
         && ((y.isUserEndpoint == 1 && (y.killed == OK || y.killed == y.einval)) || (y.isUserEndpoint == 0 && y.sent == OK))
       else
         && (REQUEST_SPECIFIC in mask || IDEMPOTENT in mask)
         && (y.rehandleRequests || (y.acted.value.replyable != 0 && y.sent == OK))
  }

  /** In default mode the system is not aborted exactly when the early success applies or the crash is recoverable. */
  lemma {:induction false} AbortIff(mask: Mask, y: System)
    ensures Abort !in Dispatch(mask, MODE_DEFAULT, y).log <==> EarlySuccess(y) || Recoverable(mask, y)
  {
  }

  /** Once a fail-stop site was passed, nobody is answered and nobody is killed, in any mode. */
  lemma {:induction false} FailStopOnlyAborts(mask: Mask, mode: int, y: System)
    requires FAIL_STOP in mask
    ensures forall e :: e in Dispatch(mask, mode, y).log ==> e == Abort
    ensures mode == MODE_DEFAULT && !EarlySuccess(y) ==> Abort in Dispatch(mask, mode, y).log
  {
  }

  /** At most one reply or kill is sent, to the source of the handled message: a user process is killed, any other
      process is answered, when the process-specific action runs; the idempotent action only answers. */
  lemma {:induction false} OnlyTheSource(mask: Mask, mode: int, y: System)
    ensures var log := Dispatch(mask, mode, y).log;
            && (forall i :: 0 <= i < |log| && log[i].Reply? ==>
                  i == 0 && y.acted.Some? && log[i].to == y.acted.value.source && (PROCESS_SPECIFIC in mask ==> y.isUserEndpoint == 0))
            && (forall i :: 0 <= i < |log| && log[i].Kill? ==>
                  i == 0 && y.acted.Some? && log[i].process == y.acted.value.source && PROCESS_SPECIFIC in mask && y.isUserEndpoint == 1)
  {
  }

  /** A fault injection request of the reincarnation server, which needs no recovery. */
  ghost predicate Injected(y: System) {
    && y.noRecoveryOnServiceFi && y.hasCurrentMessage && y.asked.Some?
    && y.asked.value.source == y.rs && y.asked.value.kind == y.fiRequest
  }

  /** Whether an action is taken at all: never, always, or for messages that can be answered, by the mode. */
  ghost predicate Acts(mode: int, y: System) {
    && !Injected(y) && mode != MODE_NEVER_REPLY
    && (mode == MODE_ALWAYS_REPLY || (y.hasCurrentMessage && y.asked.Some? && y.asked.value.replyable == 1))
  }

  ghost predicate Killing(y: System) {
    y.hasCurrentMessage && y.hasIsUserEndpoint && y.acted.Some? && y.isUserEndpoint == 1
  }

  ghost predicate Answering(local: bool, mode: int, y: System) {
    && y.hasCurrentMessage && y.acted.Some?
    && if local then y.hasIsUserEndpoint && y.isUserEndpoint == 0
       else !y.rehandleRequests && (y.acted.value.replyable != 0 || mode == MODE_ALWAYS_REPLY)
  }

  ghost predicate Rehandles(y: System) {
    && y.hasCurrentMessage && y.acted.Some? && y.rehandleRequests
    && !(y.acted.value.source == y.rs && y.acted.value.kind == y.fiRequest)
  }

  /** What the mask allows: fail-stop comes first, the process-specific bit next. */
  datatype Policy = Stop | Local | Answer | Nothing

  function PolicyOf(stop: bool, local: bool, answer: bool): Policy {
    if stop then Stop else if local then Local else if answer then Answer else Nothing
  }

  /** The abort, the killing or the answer works, or a request need not be handled again. */
  ghost predicate Works(policy: Policy, mode: int, y: System) {
    match policy
    case Stop => y.aborted == OK
    case Local => (Killing(y) && (y.killed == OK || y.killed == y.einval)) || (Answering(true, mode, y) && y.sent == OK)
    case Answer => (Answering(false, mode, y) && y.sent == OK) || (y.hasCurrentMessage && y.acted.Some? && y.rehandleRequests)
    case Nothing => false
  }

  /** Every crash, in every mode, with every mask: who is killed, who is answered, what is handled again,
      when the system is aborted, and what is reported. */
  ghost predicate Effects(r: Result, policy: Policy, mode: int, y: System) {
    && (forall x, k :: Kill(x, k) in r.log <==>
          Acts(mode, y) && policy.Local? && Killing(y) && x == y.acted.value.source && k == y.killed)
    && (forall x, k :: Reply(x, k) in r.log <==>
          && Acts(mode, y) && (policy.Local? || policy.Answer?) && Answering(policy.Local?, mode, y)
          && x == y.acted.value.source && k == y.sent)
    && (Rehandle in r.log <==> Acts(mode, y) && policy.Answer? && Rehandles(y))
    && (Abort in r.log <==>
          || (Acts(mode, y) && policy.Stop?)
          || (mode == MODE_DEFAULT && !Injected(y) && !(Acts(mode, y) && Works(policy, mode, y))))
    && r.status == if mode == MODE_DEFAULT && !Injected(y) && !(Acts(mode, y) && Works(policy, mode, y)) then FAILURE else SUCCESS
  }

  lemma {:induction false} CrashEffects(mask: Mask, mode: int, y: System)
    ensures var policy := PolicyOf(FAIL_STOP in mask, PROCESS_SPECIFIC in mask, IDEMPOTENT in mask || REQUEST_SPECIFIC in mask);
            Effects(Dispatch(mask, mode, y), policy, mode, y)
  {
  }

  /** By the mode: never replying does nothing at all and reports success; the modes other than the default one never
      report a failure, and abort only because of a fail-stop; always replying acts on every message. */
  lemma {:induction false} NaiveModesSucceed(mask: Mask, mode: int, y: System)
    requires mode != MODE_DEFAULT
    ensures Dispatch(mask, mode, y).status == SUCCESS
    ensures mode == MODE_NEVER_REPLY ==> Dispatch(mask, mode, y) == Result(SUCCESS, [])
    ensures mode == MODE_ALWAYS_REPLY ==> (Abort in Dispatch(mask, mode, y).log <==> FAIL_STOP in mask && !Injected(y))
    ensures mode != MODE_NEVER_REPLY && mode != MODE_ALWAYS_REPLY ==>
              (Abort in Dispatch(mask, mode, y).log <==>
                FAIL_STOP in mask && !Injected(y) && y.hasCurrentMessage && y.asked.Some? && y.asked.value.replyable == 1)
  {
  }

  /** A crash after any run of the hooks, from the events. If, since the window opened, a fail-stop site was passed outside
      the trusted compute base or the write log filled up, nobody is killed or answered. If not, and a process-local site
      was passed there, a user process that sent the message is killed and any other sender is answered; if neither, the
      sender is answered, or the request is handled again where that is compiled in. In default mode the system is aborted
      exactly when that does not work. */
  lemma {:induction false} CrashAfterRun(es: seq<Event>, mode: int, y: System)
    ensures var n := |es|;
            var policy := PolicyOf(Since(es, n, StopSite) || Since(es, n, FullLog), Since(es, n, LocalSite), true);
            Effects(Dispatch(Run(BOOT, es).mask, mode, y), policy, mode, y)
  {
    RunsRecord(es);
    CrashEffects(Run(BOOT, es).mask, mode, y);
  }

  /** The dispatcher never runs out of options. */
  lemma {:induction false} SomePolicy(es: seq<Event>)
    ensures IDEMPOTENT in Run(BOOT, es).mask
  {
    RunsRecord(es);
  }

  // ----- the dispatcher -----

  method IsMessageReplyable(y: System) returns (replyable: int, rsFi: bool)
    ensures replyable == Replyable(y) && rsFi == (y.hasCurrentMessage && FiRequest(y, y.asked))
  {
    rsFi := false;
    if !y.hasCurrentMessage {
      return -1, rsFi;
    }
    if y.asked.None? {
      return -1, rsFi;
    }
    if y.asked.value.source == y.rs && y.asked.value.kind == y.fiRequest {
      rsFi := true;
    }
    return y.asked.value.replyable, rsFi;
  }

  method RecoveryIdempotent(lib: Library, mode: int, y: System) returns (r: int, log: seq<Effect>)
    requires lib.Valid()
    modifies lib`mask
    ensures Result(r, log) == IdempotentAction(mode, y)
    ensures lib.Valid() && lib.Now() == if Rehandle in log then Step(old(lib.Now()), Activate) else old(lib.Now())
  {
    log := [];
    if !y.hasCurrentMessage {
      return FAILURE, log;
    }
    if y.acted.None? {
      return FAILURE, log;
    }
    var m := y.acted.value;
    if y.rehandleRequests {
      if m.source == y.rs && m.kind == y.fiRequest {
        return SUCCESS, log;
      }
      lib.ActivateReqRehandling();
      log := [Rehandle];
    } else {
      if m.replyable == 0 && mode != MODE_ALWAYS_REPLY {
        return FAILURE, log;
      }
      log := [Reply(m.source, y.sent)];
      if y.sent != OK {
        return FAILURE, log;
      }
    }
    return SUCCESS, log;
  }

  method RecoveryProcessSpecific(y: System) returns (r: int, log: seq<Effect>)
    ensures Result(r, log) == ProcessSpecificAction(y) && Rehandle !in log
  {
    log := [];
    if !y.hasCurrentMessage || !y.hasIsUserEndpoint {
      return FAILURE, log;
    }
    if y.acted.None? {
      return FAILURE, log;
    }
    var source := y.acted.value.source;
    if y.isUserEndpoint == 1 {
      log := [Kill(source, y.killed)];
      if y.killed != OK && y.killed != y.einval {
        return FAILURE, log;
      }
    } else if y.isUserEndpoint == 0 {
      log := [Reply(source, y.sent)];
      if y.sent != OK {
        return FAILURE, log;
      }
    } else {
      return FAILURE, log;
    }
    return SUCCESS, log;
  }

  method RecoveryDispatch(lib: Library, mode: int, y: System) returns (r: int, log: seq<Effect>)
    requires lib.Valid()
    modifies lib
    ensures Result(r, log) == Dispatch(old(lib.mask), mode, y)
    ensures lib.Valid()
    ensures var s := Step(old(lib.Now()), SetTcb(true)); lib.Now() == if Rehandle in log then Step(s, Activate) else s
  {
    r, log := FAILURE, [];
    lib.insideTcb := true;
    var replyable, rsFi := IsMessageReplyable(y);
    if y.noRecoveryOnServiceFi && rsFi {
      return SUCCESS, log;
    }
    if mode == MODE_NEVER_REPLY {
      replyable := 0;
    } else if mode == MODE_ALWAYS_REPLY {
      replyable := 1;
    }
    if replyable == 1 {
      if FAIL_STOP in lib.mask {
        r, log := if y.aborted == OK then SUCCESS else FAILURE, [Abort];
      } else if PROCESS_SPECIFIC in lib.mask {
        r, log := RecoveryProcessSpecific(y);
      } else if REQUEST_SPECIFIC in lib.mask {
        r, log := RecoveryIdempotent(lib, mode, y);
      } else if IDEMPOTENT in lib.mask {
        r, log := RecoveryIdempotent(lib, mode, y);
      }
    }
    if mode != MODE_DEFAULT {
      r := SUCCESS;
    }
    if r == FAILURE {
      log := log + [Abort];
    }
  }
}
