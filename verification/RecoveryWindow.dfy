/**
 The recovery window of a server: opened when it starts to handle a message, closed at the first call site that
 makes fail-stop the only consistent recovery. The policy hooks record what a later crash may do.
 */
module RecoveryWindow {

  /** The bits of the recovery mask. */
  datatype Bit = IDEMPOTENT | REQUEST_SPECIFIC | PROCESS_SPECIFIC | FAIL_STOP | REPROCESSING

  type Mask = set<Bit>

  /** Room for the call sites that closed the window. */
  const CALLSITES := 64

  datatype State = State(
    handled: bool,        // the server is handling a message
    prior: bool,          // what the start-of-window hook last saw
    windowOpen: bool,
    tcb: bool,            // inside the trusted compute base
    mask: Mask,
    sites: seq<nat>,      // the recorded fail-stop sites
    total: nat)           // how often a fail-stop site was passed

  const BOOT := State(false, false, false, true, {IDEMPOTENT}, [], 0)

  datatype Event =
    | Hook(handled: bool)          // the message flag changes, or not, and the start-of-window hook runs
    | SetHandled(handled: bool)    // the message flag changes without the hook
    | SetTcb(tcb: bool)            // other parts of the library enter and leave the trusted compute base
    | Leave                        // the profiling hook sees that the message flag went down
    | Close(site: nat)
    | Idempotent(site: nat)
    | RequestSpecific(site: nat)
    | ProcessLocal(site: nat)
    | FailStop(site: nat)
    | LogFull                      // a store hook wrote the last entry of the write log
    | Activate                     // request rehandling on
    | Deactivate                   // request rehandling off

  function Closed(s: State): State {
    if s.handled && s.windowOpen then s.(windowOpen := false) else s
  }

  function WithSite(sites: seq<nat>, site: nat): seq<nat> {
    if site in sites || |sites| >= CALLSITES then sites else sites + [site]
  }

  function Step(s: State, e: Event): State {
    match e
    case Hook(handled) =>
      if handled && !s.prior then State(handled, handled, true, false, {IDEMPOTENT}, [], 0)
      else if !handled && s.prior then s.(handled := handled, prior := handled, windowOpen := false)
      else s.(handled := handled, prior := handled)
    case SetHandled(handled) => s.(handled := handled)
    case SetTcb(tcb) => s.(tcb := tcb)
    case Leave => s.(windowOpen := false)
    case Close(_) => Closed(s)
    case Idempotent(_) => if s.tcb then s else s.(mask := s.mask + {IDEMPOTENT})
    case RequestSpecific(_) => if s.tcb then s else s.(mask := s.mask + {IDEMPOTENT})
    case ProcessLocal(_) => if s.tcb then s else s.(mask := s.mask + {PROCESS_SPECIFIC})
    case FailStop(site) =>
      if s.tcb then s
      else Closed(s).(mask := s.mask + {FAIL_STOP}, sites := WithSite(s.sites, site), total := s.total + 1)
    case LogFull => if s.windowOpen then s.(windowOpen := false, mask := s.mask + {FAIL_STOP}) else s
    case Activate => s.(mask := s.mask + {REPROCESSING})
    case Deactivate => s.(mask := s.mask - {REPROCESSING})
  }

  function Run(s: State, es: seq<Event>): State {
    if es == [] then s else Step(Run(s, es[..|es|-1]), es[|es|-1])
  }

  /** The different elements of a sequence, in the order of their first occurrence. */
  function Distinct(s: seq<nat>): seq<nat> {
    if s == [] then []
    else if s[|s|-1] in s[..|s|-1] then Distinct(s[..|s|-1])
    else Distinct(s[..|s|-1]) + [s[|s|-1]]
  }

  lemma {:induction false} DistinctHas(s: seq<nat>)
    ensures forall x :: x in Distinct(s) <==> x in s
    ensures forall i, j :: 0 <= i < j < |Distinct(s)| ==> Distinct(s)[i] != Distinct(s)[j]
  {
    if s != [] {
      DistinctHas(s[..|s|-1]);
      assert s == s[..|s|-1] + [s[|s|-1]];
    }
  }

  function AtMost(k: nat, s: seq<nat>): seq<nat> {
    if |s| <= k then s else s[..k]
  }

  /** Recording a site keeps the list the first 64 different sites. */
  lemma {:induction false} WithSiteKeepsFirst(passed: seq<nat>, site: nat)
    ensures WithSite(AtMost(CALLSITES, Distinct(passed)), site) == AtMost(CALLSITES, Distinct(passed + [site]))
  {
    DistinctHas(passed);
    assert (passed + [site])[..|passed|] == passed;
    var d := Distinct(passed);
    assert site in passed || Distinct(passed + [site]) == d + [site];
    if |d| >= CALLSITES {
      assert (d + [site])[..CALLSITES] == d[..CALLSITES];
    }
  }

  // ----- what the events say -----

  /** The message flag is up before the event at `n`: the last change of it was upwards. */
  ghost predicate Up(es: seq<Event>, n: nat)
    requires n <= |es|
  {
    exists i :: 0 <= i < n && UpSince(es, i, n)
  }

  ghost predicate UpSince(es: seq<Event>, i: nat, n: nat)
    requires i < n <= |es|
  {
    (es[i] == Hook(true) || es[i] == SetHandled(true)) && forall j :: i < j < n ==> !es[j].Hook? && !es[j].SetHandled?
  }

  /** The last run of the start-of-window hook saw it up. */
  ghost predicate Saw(es: seq<Event>, n: nat)
    requires n <= |es|
  {
    exists i :: 0 <= i < n && SawSince(es, i, n)
  }

  ghost predicate SawSince(es: seq<Event>, i: nat, n: nat)
    requires i < n <= |es|
  {
    es[i] == Hook(true) && forall j :: i < j < n ==> !es[j].Hook?
  }

  /** The hook sees the flag go up. */
  ghost predicate Opening(es: seq<Event>, i: nat)
    requires i < |es|
  {
    es[i] == Hook(true) && !Saw(es, i)
  }

  ghost predicate NotReopened(es: seq<Event>, i: nat, n: nat)
    requires n <= |es|
  {
    forall j :: i < j < n ==> !Opening(es, j)
  }

  /** Outside the trusted compute base, which opening the window leaves. */
  ghost predicate Outside(es: seq<Event>, n: nat)
    requires n <= |es|
  {
    exists i :: 0 <= i < n && OutsideSince(es, i, n)
  }

  ghost predicate OutsideSince(es: seq<Event>, i: nat, n: nat)
    requires i < n <= |es|
  {
    (Opening(es, i) || es[i] == SetTcb(false)) && forall j :: i < j < n ==> es[j] != SetTcb(true)
  }

  /** What closes an open window: the end of the message, a closing or fail-stop site while the flag is up, a full log. */
  ghost predicate Closing(es: seq<Event>, j: nat)
    requires j < |es|
  {
    || es[j] == Hook(false) || es[j].Leave? || es[j].LogFull?
    || (es[j].Close? && Up(es, j))
    || (es[j].FailStop? && Outside(es, j) && Up(es, j))
  }

  ghost predicate Open(es: seq<Event>, n: nat)
    requires n <= |es|
  {
    exists i :: 0 <= i < n && OpenSince(es, i, n)
  }

  ghost predicate OpenSince(es: seq<Event>, i: nat, n: nat)
    requires i < n <= |es|
  {
    Opening(es, i) && forall j :: i < j < n ==> !Closing(es, j)
  }

  /** A process-local or a fail-stop site passed outside the trusted compute base, or a write log that fills up while the
      window is open. */
  datatype Cause = LocalSite | StopSite | FullLog

  ghost predicate Causes(es: seq<Event>, i: nat, cause: Cause)
    requires i < |es|
  {
    match cause
    case LocalSite => es[i].ProcessLocal? && Outside(es, i)
    case StopSite => es[i].FailStop? && Outside(es, i)
    case FullLog => es[i].LogFull? && Open(es, i)
  }

  /** It happened since the window was last opened. */
  ghost predicate Since(es: seq<Event>, n: nat, cause: Cause)
    requires n <= |es|
  {
    exists i :: 0 <= i < n && Causes(es, i, cause) && NotReopened(es, i, n)
  }

  /** Request rehandling was switched on, and neither switched off nor forgotten at an opening. */
  ghost predicate Rehandling(es: seq<Event>, n: nat)
    requires n <= |es|
  {
    exists i :: 0 <= i < n && RehandlingSince(es, i, n)
  }

  ghost predicate RehandlingSince(es: seq<Event>, i: nat, n: nat)
    requires i < n <= |es|
  {
    es[i].Activate? && NotReopened(es, i, n) && forall j :: i < j < n ==> !es[j].Deactivate?
  }

  /** The fail-stop sites passed outside the trusted compute base since the window was last opened, in order. */
  ghost function Passed(es: seq<Event>, n: nat): seq<nat>
    requires n <= |es|
  {
    if n == 0 || Opening(es, n - 1) then []
    else if Causes(es, n - 1, StopSite) then Passed(es, n - 1) + [es[n-1].site]
    else Passed(es, n - 1)
  }

  // ----- every run -----

  lemma {:induction false} RunStep(s: State, es: seq<Event>, n: nat)
    requires n < |es|
    ensures Run(s, es[..n+1]) == Step(Run(s, es[..n]), es[n])
  {
    assert es[..n+1][..n] == es[..n];
  }

  /** The message flag, what the hook saw of it, and the trusted compute base. */
  ghost predicate FlagsFrom(s: State, es: seq<Event>, n: nat)
    requires n <= |es|
  {
    (s.handled <==> Up(es, n)) && (s.prior <==> Saw(es, n)) && (s.tcb <==> !Outside(es, n))
  }

  ghost predicate MaskFrom(s: State, es: seq<Event>, n: nat)
    requires n <= |es|
  {
    && IDEMPOTENT in s.mask && REQUEST_SPECIFIC !in s.mask
    && (PROCESS_SPECIFIC in s.mask <==> Since(es, n, LocalSite))
    && (FAIL_STOP in s.mask <==> Since(es, n, StopSite) || Since(es, n, FullLog))
    && (REPROCESSING in s.mask <==> Rehandling(es, n))
  }

  ghost predicate SitesFrom(s: State, es: seq<Event>, n: nat)
    requires n <= |es|
  {
    s.sites == AtMost(CALLSITES, Distinct(Passed(es, n))) && s.total == |Passed(es, n)|
  }

  lemma {:induction false} UpNext(es: seq<Event>, n: nat)
    requires n < |es|
    ensures Up(es, n + 1) <==> if es[n].Hook? || es[n].SetHandled? then es[n].handled else Up(es, n)
  {
    if i :| 0 <= i < n && UpSince(es, i, n) {
      assert !es[n].Hook? && !es[n].SetHandled? ==> UpSince(es, i, n + 1);
    }
    var m := n + 1;
    if i :| 0 <= i < m && UpSince(es, i, m) {
      assert i < n ==> UpSince(es, i, n);
    }
    if es[n] == Hook(true) || es[n] == SetHandled(true) {
      assert UpSince(es, n, n + 1);
    }
  }

  lemma {:induction false} SawNext(es: seq<Event>, n: nat)
    requires n < |es|
    ensures Saw(es, n + 1) <==> if es[n].Hook? then es[n].handled else Saw(es, n)
  {
    if i :| 0 <= i < n && SawSince(es, i, n) {
      assert !es[n].Hook? ==> SawSince(es, i, n + 1);
    }
    var m := n + 1;
    if i :| 0 <= i < m && SawSince(es, i, m) {
      assert i < n ==> SawSince(es, i, n);
    }
    if es[n] == Hook(true) {
      assert SawSince(es, n, n + 1);
    }
  }

  lemma {:induction false} OutsideNext(es: seq<Event>, n: nat)
    requires n < |es|
    ensures Outside(es, n + 1) <==>
            if Opening(es, n) then true else if es[n].SetTcb? then !es[n].tcb else Outside(es, n)
  {
    if i :| 0 <= i < n && OutsideSince(es, i, n) {
      assert es[n] != SetTcb(true) ==> OutsideSince(es, i, n + 1);
    }
    var m := n + 1;
    if i :| 0 <= i < m && OutsideSince(es, i, m) {
      assert i < n ==> OutsideSince(es, i, n);
    }
    if Opening(es, n) || es[n] == SetTcb(false) {
      assert OutsideSince(es, n, n + 1);
    }
  }

  lemma {:induction false} OpenNext(es: seq<Event>, n: nat)
    requires n < |es|
    ensures Open(es, n + 1) <==> Opening(es, n) || (Open(es, n) && !Closing(es, n))
  {
    if i :| 0 <= i < n && OpenSince(es, i, n) {
      assert !Closing(es, n) ==> OpenSince(es, i, n + 1);
    }
    var m := n + 1;
    if i :| 0 <= i < m && OpenSince(es, i, m) {
      assert i < n ==> OpenSince(es, i, n);
    }
    if Opening(es, n) {
      assert OpenSince(es, n, n + 1);
    }
  }

  lemma {:induction false} SinceNext(es: seq<Event>, n: nat, cause: Cause)
    requires n < |es|
    ensures Since(es, n + 1, cause) <==> Causes(es, n, cause) || (Since(es, n, cause) && !Opening(es, n))
  {
    if i :| 0 <= i < n && Causes(es, i, cause) && NotReopened(es, i, n) {
      assert !Opening(es, n) ==> NotReopened(es, i, n + 1);
    }
    var m := n + 1;
    if i :| 0 <= i < m && Causes(es, i, cause) && NotReopened(es, i, m) {
      assert i < n ==> NotReopened(es, i, n);
    }
    if Causes(es, n, cause) {
      assert NotReopened(es, n, n + 1);
    }
  }

  lemma {:induction false} RehandlingNext(es: seq<Event>, n: nat)
    requires n < |es|
    ensures Rehandling(es, n + 1) <==> es[n].Activate? || (Rehandling(es, n) && !Opening(es, n) && !es[n].Deactivate?)
  {
    if i :| 0 <= i < n && RehandlingSince(es, i, n) {
      assert !Opening(es, n) && !es[n].Deactivate? ==> RehandlingSince(es, i, n + 1);
    }
    var m := n + 1;
    if i :| 0 <= i < m && RehandlingSince(es, i, m) {
      assert i < n ==> RehandlingSince(es, i, n);
    }
    if es[n].Activate? {
      assert RehandlingSince(es, n, n + 1);
    }
  }

  lemma {:induction false} FlagsNext(s: State, es: seq<Event>, n: nat)
    requires n < |es| && FlagsFrom(s, es, n)
    ensures FlagsFrom(Step(s, es[n]), es, n + 1)
  {
    UpNext(es, n);
    SawNext(es, n);
    OutsideNext(es, n);
  }

  /** The window can only be open while the hook has last seen the flag up. */
  lemma {:induction false} OpenSaw(es: seq<Event>, n: nat)
    requires n <= |es| && Open(es, n)
    ensures Saw(es, n)
  {
    var i :| 0 <= i < n && OpenSince(es, i, n);
    var k := i;
    SawNext(es, k);
    while k + 1 < n
      invariant i <= k < n && Saw(es, k + 1)
    {
      SawNext(es, k + 1);
      assert !Closing(es, k + 1);
      k := k + 1;
    }
  }

  lemma {:induction false} WindowNext(s: State, es: seq<Event>, n: nat)
    requires n < |es| && FlagsFrom(s, es, n) && (s.windowOpen <==> Open(es, n))
    ensures Step(s, es[n]).windowOpen <==> Open(es, n + 1)
  {
    OpenNext(es, n);
    if Open(es, n) {
      OpenSaw(es, n);
    }
  }

  lemma {:induction false} LocalNext(s: State, es: seq<Event>, n: nat)
    requires n < |es| && FlagsFrom(s, es, n) && (PROCESS_SPECIFIC in s.mask <==> Since(es, n, LocalSite))
    ensures PROCESS_SPECIFIC in Step(s, es[n]).mask <==> Since(es, n + 1, LocalSite)
  {
    SinceNext(es, n, LocalSite);
  }

  lemma {:induction false} StopNext(s: State, es: seq<Event>, n: nat)
    requires n < |es| && FlagsFrom(s, es, n) && (s.windowOpen <==> Open(es, n))
    requires FAIL_STOP in s.mask <==> Since(es, n, StopSite) || Since(es, n, FullLog)
    ensures FAIL_STOP in Step(s, es[n]).mask <==> Since(es, n + 1, StopSite) || Since(es, n + 1, FullLog)
  {
    SinceNext(es, n, StopSite);
    SinceNext(es, n, FullLog);
  }

  lemma {:induction false} RestNext(s: State, es: seq<Event>, n: nat)
    requires n < |es| && FlagsFrom(s, es, n) && (REPROCESSING in s.mask <==> Rehandling(es, n))
    ensures REPROCESSING in Step(s, es[n]).mask <==> Rehandling(es, n + 1)
  {
    RehandlingNext(es, n);
  }

  /** The idempotent bit is always set, and the request-specific bit never. */
  lemma {:induction false} PolicyNext(s: State, e: Event)
    requires IDEMPOTENT in s.mask && REQUEST_SPECIFIC !in s.mask
    ensures IDEMPOTENT in Step(s, e).mask && REQUEST_SPECIFIC !in Step(s, e).mask
  {
  }

  lemma {:induction false} MaskNext(s: State, es: seq<Event>, n: nat)
    requires n < |es| && FlagsFrom(s, es, n) && (s.windowOpen <==> Open(es, n)) && MaskFrom(s, es, n)
    ensures MaskFrom(Step(s, es[n]), es, n + 1)
  {
    LocalNext(s, es, n);
    StopNext(s, es, n);
    RestNext(s, es, n);
    PolicyNext(s, es[n]);
  }

  /** What a step does to the list and the counter. */
  lemma {:induction false} StepSites(s: State, e: Event)
    ensures var t := Step(s, e);
            if e == Hook(true) && !s.prior then t.sites == [] && t.total == 0
            else if e.FailStop? && !s.tcb then t.sites == WithSite(s.sites, e.site) && t.total == s.total + 1
            else t.sites == s.sites && t.total == s.total
  {
  }

  lemma {:induction false} SitesNext(s: State, es: seq<Event>, n: nat)
    requires n < |es| && FlagsFrom(s, es, n) && SitesFrom(s, es, n)
    ensures SitesFrom(Step(s, es[n]), es, n + 1)
  {
    var passed := Passed(es, n);
    StepSites(s, es[n]);
    if Opening(es, n) {
      assert Passed(es, n + 1) == [];
    } else if Causes(es, n, StopSite) {
      WithSiteKeepsFirst(passed, es[n].site);
      assert Passed(es, n + 1) == passed + [es[n].site];
    } else {
      assert Passed(es, n + 1) == passed;
    }
  }

  lemma {:induction false} RunFrom(es: seq<Event>, n: nat)
    requires n <= |es|
    ensures var s := Run(BOOT, es[..n]);
            FlagsFrom(s, es, n) && (s.windowOpen <==> Open(es, n)) && MaskFrom(s, es, n) && SitesFrom(s, es, n)
  {
    if n > 0 {
      RunFrom(es, n - 1);
      RunStep(BOOT, es, n - 1);
      var s := Run(BOOT, es[..n-1]);
      FlagsNext(s, es, n - 1);
      WindowNext(s, es, n - 1);
      MaskNext(s, es, n - 1);
      SitesNext(s, es, n - 1);
    }
  }

  /** After every run, whoever changes the message flag, the state is what the events say. The flags have their last
      values. The window is open since the hook saw the flag go up, unless something has closed it. Since that moment: the
      process-specific bit tells whether a process-local site was passed outside the trusted compute base, the fail-stop bit
      whether a fail-stop site was or the write log filled up; the list holds the first 64 different fail-stop sites and
      the counter counts them; a full log leaves no trace in either. */
  lemma {:induction false} RunsRecord(es: seq<Event>)
    ensures var s, n := Run(BOOT, es), |es|;
            FlagsFrom(s, es, n) && (s.windowOpen <==> Open(es, n)) && MaskFrom(s, es, n) && SitesFrom(s, es, n)
  {
    RunFrom(es, |es|);
    assert es[..|es|] == es;
  }

  /** An open window means that fail-stop is not required. */
  ghost predicate WindowSafe(s: State) {
    s.windowOpen ==> FAIL_STOP !in s.mask
  }

  /** A fail-stop site is passed, outside the trusted compute base and with the window open, while the message flag is down. */
  predicate PassesUnhandled(s: State, e: Event) {
    e.FailStop? && !s.tcb && s.windowOpen && !s.handled
  }

  lemma {:induction false} StepBreaksWindowIff(s: State, e: Event)
    requires WindowSafe(s)
    ensures WindowSafe(Step(s, e)) <==> !PassesUnhandled(s, e)
  {
  }

  lemma {:induction false} PrefixSafe(es: seq<Event>, n: nat)
    requires n <= |es|
    requires forall i :: 0 <= i < n ==> !PassesUnhandled(Run(BOOT, es[..i]), es[i])
    ensures WindowSafe(Run(BOOT, es[..n]))
  {
    if n > 0 {
      PrefixSafe(es, n - 1);
      StepBreaksWindowIff(Run(BOOT, es[..n-1]), es[n-1]);
      RunStep(BOOT, es, n - 1);
    }
  }

  /** Over whole runs: the window is safe at every moment if and only if no fail-stop site is ever passed with the window
      open and the message flag down. */
  lemma {:induction false} RunSafeIff(es: seq<Event>)
    ensures (forall n :: 0 <= n <= |es| ==> WindowSafe(Run(BOOT, es[..n]))) <==>
            (forall i :: 0 <= i < |es| ==> !PassesUnhandled(Run(BOOT, es[..i]), es[i]))
  {
    if forall i :: 0 <= i < |es| ==> !PassesUnhandled(Run(BOOT, es[..i]), es[i]) {
      forall n | 0 <= n <= |es| ensures WindowSafe(Run(BOOT, es[..n])) {
        PrefixSafe(es, n);
      }
    }
    if forall n :: 0 <= n <= |es| ==> WindowSafe(Run(BOOT, es[..n])) {
      forall i | 0 <= i < |es| ensures !PassesUnhandled(Run(BOOT, es[..i]), es[i]) {
        RunStep(BOOT, es, i);
        assert WindowSafe(Run(BOOT, es[..i])) && WindowSafe(Run(BOOT, es[..i+1]));
        StepBreaksWindowIff(Run(BOOT, es[..i]), es[i]);
      }
    }
  }

  /** The message flag and the hook can get out of step. */
  lemma {:induction false} UnhookedFlagBreaksWindow(site: nat)
    ensures !WindowSafe(Run(BOOT, [Hook(true), SetHandled(false), FailStop(site)]))
  {
    var es := [Hook(true), SetHandled(false), FailStop(site)];
    assert es[..2] == [Hook(true), SetHandled(false)];
    assert [Hook(true), SetHandled(false)][..1] == [Hook(true)];
    assert [Hook(true)][..0] == [];
    assert Run(BOOT, [Hook(true)]) == Step(BOOT, Hook(true));
    assert Run(BOOT, es[..2]) == Step(Step(BOOT, Hook(true)), SetHandled(false));
    assert Run(BOOT, es) == Step(Run(BOOT, es[..2]), FailStop(site));
  }

  ghost predicate Hooked(es: seq<Event>) {
    forall e :: e in es ==> !e.SetHandled?
  }

  ghost predicate InStep(s: State) {
    WindowSafe(s) && s.prior == s.handled && (s.windowOpen ==> s.handled)
  }

  lemma {:induction false} HookedInStep(es: seq<Event>)
    requires Hooked(es)
    ensures InStep(Run(BOOT, es))
  {
    if es != [] {
      var before, e := es[..|es|-1], es[|es|-1];
      assert e in es && forall x :: x in before ==> x in es;
      HookedInStep(before);
    }
  }

  /** When the message flag changes only together with the hook, the window is open only while a message is handled, no
      fail-stop site was passed and the log has room. */
  lemma {:induction false} HookedRunsSafe(es: seq<Event>)
    requires Hooked(es)
    ensures InStep(Run(BOOT, es))
    ensures Run(BOOT, es).windowOpen ==> Up(es, |es|) && !Since(es, |es|, StopSite) && !Since(es, |es|, FullLog)
  {
    HookedInStep(es);
    RunsRecord(es);
  }

  /** Inside the trusted compute base no policy hook changes anything. */
  lemma {:induction false} TcbUntouched(s: State, e: Event)
    requires s.tcb && (e.Idempotent? || e.RequestSpecific? || e.ProcessLocal? || e.FailStop?)
    ensures Step(s, e) == s
  {
  }

  // ----- the hooks -----

  /** The globals of the recovery library. Profiling counters are not part of the model. */
  class Library {
    var haveHandledMessage: bool
    var priorHaveHandledMessage: bool
    var windowIsOpen: bool
    var insideTcb: bool
    var mask: Mask
    const callsites: array<nat>
    var callsiteCount: nat
    var totalCount: nat

    ghost predicate Valid()
      reads this, callsites
    {
      callsites.Length == CALLSITES && callsiteCount <= CALLSITES
    }

    ghost function Now(): State
      requires Valid()
      reads this, callsites
    {
      State(haveHandledMessage, priorHaveHandledMessage, windowIsOpen, insideTcb, mask, callsites[..callsiteCount], totalCount)
    }

    constructor ()
      ensures Valid() && Now() == BOOT
    {
      haveHandledMessage, priorHaveHandledMessage, windowIsOpen, insideTcb := false, false, false, true;
      mask, callsites, callsiteCount, totalCount := {IDEMPOTENT}, new nat[CALLSITES], 0, 0;
    }

    /** Runs after the message flag was set. */
    method DetectStartOfWindowHook()
      requires Valid()
      modifies this
      ensures Valid() && Now() == Step(old(Now()), Hook(haveHandledMessage))
    {
      if !priorHaveHandledMessage && haveHandledMessage {
        windowIsOpen := true;
        mask := {IDEMPOTENT};
        callsiteCount := 0;
        totalCount := 0;
        insideTcb := false;
      } else if priorHaveHandledMessage && !haveHandledMessage {
        windowIsOpen := false;
      }
      priorHaveHandledMessage := haveHandledMessage;
    }

    method CloseRWindow(site: nat) returns (closed: bool)
      requires Valid()
      modifies `windowIsOpen
      ensures Valid() && Now() == Step(old(Now()), Close(site))
      ensures closed <==> old(haveHandledMessage && windowIsOpen)
    {
      if haveHandledMessage && windowIsOpen {
        windowIsOpen := false;
        return true;
      }
      return false;
    }

    method SetIdempotentRecovery(site: nat)
      requires Valid()
      modifies `mask
      ensures Valid() && Now() == Step(old(Now()), Idempotent(site))
    {
      if insideTcb {
        return;
      }
      mask := mask + {IDEMPOTENT};
    }

    /** Sets the idempotent bit, as the code does, and not a bit of its own. */
    method SetRequestSpecificRecovery(site: nat)
      requires Valid()
      modifies `mask
      ensures Valid() && Now() == Step(old(Now()), RequestSpecific(site))
    {
      if insideTcb {
        return;
      }
      mask := mask + {IDEMPOTENT};
    }

    method SetProcessLocalRecovery(site: nat)
      requires Valid()
      modifies `mask
      ensures Valid() && Now() == Step(old(Now()), ProcessLocal(site))
    {
      if insideTcb {
        return;
      }
      mask := mask + {PROCESS_SPECIFIC};
    }

    method AddSiteId(site: nat)
      requires Valid()
      modifies `callsiteCount, callsites
      ensures Valid() && callsites[..callsiteCount] == WithSite(old(callsites[..callsiteCount]), site)
    {
      for i := 0 to callsiteCount
        invariant site !in callsites[..i]
        invariant callsites[..] == old(callsites[..])
      {
        if callsites[i] == site {
          return;
        }
      }
      if callsiteCount < CALLSITES {
        callsites[callsiteCount] := site;
        callsiteCount := callsiteCount + 1;
      }
    }

    method SetFailStopRecovery(site: nat)
      requires Valid()
      modifies this, callsites
      ensures Valid() && Now() == Step(old(Now()), FailStop(site))
    {
      if insideTcb {
        return;
      }
      var closed := CloseRWindow(site);
      mask := mask + {FAIL_STOP};
      AddSiteId(site);
      totalCount := totalCount + 1;
    }

    /** The write log is full: recovery could not undo what is written from now on. */
    method LogOverflow()
      requires Valid() && windowIsOpen
      modifies `windowIsOpen, `mask
      ensures Valid() && Now() == Step(old(Now()), LogFull)
    {
      windowIsOpen := false;
      mask := mask + {FAIL_STOP};
    }

    method ActivateReqRehandling()
      requires Valid()
      modifies `mask
      ensures Valid() && Now() == Step(old(Now()), Activate)
    {
      mask := mask + {REPROCESSING};
    }

    method DeactivateReqRehandling()
      requires Valid()
      modifies `mask
      ensures Valid() && Now() == Step(old(Now()), Deactivate)
    {
      mask := mask - {REPROCESSING};
    }
  }
}
