/**
 What the window profiler counts, from the events of a run alone: which windows were open when a block ran, and what
 closed them.
 */
module ProfiledRuns {
  import opened Options
  import opened WindowProfiler

  // ----- what the events say -----

  /** The last change of the message flag before the event at `n` was upwards. */
  ghost predicate Up(es: seq<Event>, n: nat)
    requires n <= |es|
  {
    exists i :: 0 <= i < n && UpSince(es, i, n)
  }

  ghost predicate UpSince(es: seq<Event>, i: nat, n: nat)
    requires i < n <= |es|
  {
    es[i] == SetHandled(true) && forall j :: i < j < n ==> !es[j].SetHandled?
  }

  /** The last hook saw it up. */
  ghost predicate Saw(es: seq<Event>, n: nat)
    requires n <= |es|
  {
    exists i :: 0 <= i < n && SawSince(es, i, n)
  }

  ghost predicate SawSince(es: seq<Event>, i: nat, n: nat)
    requires i < n <= |es|
  {
    es[i].Hook? && Up(es, i) && forall j :: i < j < n ==> !es[j].Hook?
  }

  /** A message starts, or ends, as the hooks see it. */
  ghost predicate Starts(es: seq<Event>, i: nat)
    requires i < |es|
  {
    es[i].Hook? && Up(es, i) && !Saw(es, i)
  }

  ghost predicate Ends(es: seq<Event>, i: nat)
    requires i < |es|
  {
    es[i].Hook? && !Up(es, i) && Saw(es, i)
  }

  predicate Sends(func: string) {
    "_ipc_send" <= func
  }

  predicate Notifies(func: string) {
    "_ipc_notify" <= func
  }

  predicate Calls(func: string) {
    "_do_kernel_call" <= func
  }

  /** A function is entered that sends, notifies or calls the kernel. */
  ghost predicate Enters(es: seq<Event>, i: nat)
    requires i < |es|
  {
    es[i].Hook? && es[i].first && (Sends(es[i].key.func) || Notifies(es[i].key.func) || Calls(es[i].key.func))
  }

  /** The pessimistic window: a message started, it has not ended, and no such function was entered since. */
  ghost predicate Pessimistic(es: seq<Event>, n: nat)
    requires n <= |es|
  {
    exists i :: 0 <= i < n && PessimisticSince(es, i, n)
  }

  ghost predicate PessimisticSince(es: seq<Event>, i: nat, n: nat)
    requires i < n <= |es|
  {
    Starts(es, i) && forall j :: i < j < n ==> !Ends(es, j) && !Enters(es, j)
  }

  /** The recovery window: opened, and not closed since, nor a message ended. */
  ghost predicate Recovery(es: seq<Event>, n: nat)
    requires n <= |es|
  {
    exists i :: 0 <= i < n && RecoverySince(es, i, n)
  }

  ghost predicate RecoverySince(es: seq<Event>, i: nat, n: nat)
    requires i < n <= |es|
  {
    es[i] == SetWindow(true) && forall j :: i < j < n ==> es[j] != SetWindow(false) && !Ends(es, j)
  }

  /** Statistics are on. */
  ghost predicate Counting(es: seq<Event>, n: nat)
    requires n <= |es|
  {
    exists i :: 0 <= i < n && CountingSince(es, i, n)
  }

  ghost predicate CountingSince(es: seq<Event>, i: nat, n: nat)
    requires i < n <= |es|
  {
    es[i] == SetCounting(true) && forall j :: i < j < n ==> !es[j].SetCounting?
  }

  // ----- one event more -----

  lemma {:induction false} UpNext(es: seq<Event>, n: nat)
    requires n < |es|
    ensures Up(es, n + 1) <==> if es[n].SetHandled? then es[n].on else Up(es, n)
  {
    var m := n + 1;
    if i :| 0 <= i < n && UpSince(es, i, n) {
      assert !es[n].SetHandled? ==> UpSince(es, i, m);
    }
    if i :| 0 <= i < m && UpSince(es, i, m) {
      assert i < n ==> UpSince(es, i, n);
    }
    if es[n] == SetHandled(true) {
      assert UpSince(es, n, m);
    }
  }

  lemma {:induction false} SawNext(es: seq<Event>, n: nat)
    requires n < |es|
    ensures Saw(es, n + 1) <==> if es[n].Hook? then Up(es, n) else Saw(es, n)
  {
    var m := n + 1;
    if i :| 0 <= i < n && SawSince(es, i, n) {
      assert !es[n].Hook? ==> SawSince(es, i, m);
    }
    if i :| 0 <= i < m && SawSince(es, i, m) {
      assert i < n ==> SawSince(es, i, n);
    }
    if es[n].Hook? && Up(es, n) {
      assert SawSince(es, n, m);
    }
  }

  lemma {:induction false} PessimisticNext(es: seq<Event>, n: nat)
    requires n < |es|
    ensures Pessimistic(es, n + 1) <==> Starts(es, n) || (Pessimistic(es, n) && !Ends(es, n) && !Enters(es, n))
  {
    var m := n + 1;
    if i :| 0 <= i < n && PessimisticSince(es, i, n) {
      assert !Ends(es, n) && !Enters(es, n) ==> PessimisticSince(es, i, m);
    }
    if i :| 0 <= i < m && PessimisticSince(es, i, m) {
      assert i < n ==> PessimisticSince(es, i, n);
    }
    if Starts(es, n) {
      assert PessimisticSince(es, n, m);
    }
  }

  lemma {:induction false} RecoveryNext(es: seq<Event>, n: nat)
    requires n < |es|
    ensures Recovery(es, n + 1) <==> if es[n].SetWindow? then es[n].on else Recovery(es, n) && !Ends(es, n)
  {
    var m := n + 1;
    if i :| 0 <= i < n && RecoverySince(es, i, n) {
      assert es[n] != SetWindow(false) && !Ends(es, n) ==> RecoverySince(es, i, m);
    }
    if i :| 0 <= i < m && RecoverySince(es, i, m) {
      assert i < n ==> RecoverySince(es, i, n);
    }
    if es[n] == SetWindow(true) {
      assert RecoverySince(es, n, m);
    }
  }

  lemma {:induction false} CountingNext(es: seq<Event>, n: nat)
    requires n < |es|
    ensures Counting(es, n + 1) <==> if es[n].SetCounting? then es[n].on else Counting(es, n)
  {
    var m := n + 1;
    if i :| 0 <= i < n && CountingSince(es, i, n) {
      assert !es[n].SetCounting? ==> CountingSince(es, i, m);
    }
    if i :| 0 <= i < m && CountingSince(es, i, m) {
      assert i < n ==> CountingSince(es, i, n);
    }
    if es[n] == SetCounting(true) {
      assert CountingSince(es, n, m);
    }
  }

  /** A pessimistic window is inside a message. */
  lemma {:induction false} PessimisticSaw(es: seq<Event>, n: nat)
    requires n <= |es| && Pessimistic(es, n)
    ensures Saw(es, n)
  {
    var i :| 0 <= i < n && PessimisticSince(es, i, n);
    SawNext(es, i);
    var k := i;
    while k + 1 < n
      invariant i <= k < n && Saw(es, k + 1)
    {
      k := k + 1;
      assert !Ends(es, k);
      SawNext(es, k);
    }
  }

  // ----- every run -----

  /** The flags and windows of the profiler are what the events say. */
  ghost predicate From(s: State, es: seq<Event>, n: nat)
    requires n <= |es|
  {
    && s.enabled && !s.aborted && (s.counting <==> Counting(es, n))
    && (s.handled <==> Up(es, n)) && (s.last <==> Saw(es, n)) && (s.dfa <==> Saw(es, n))
    && (s.pes <==> Pessimistic(es, n)) && (s.windowOpen <==> Recovery(es, n))
  }

  ghost function Which(func: string): Option<nat> {
    if Sends(func) then Some(0) else if Notifies(func) then Some(1) else if Calls(func) then Some(2) else None
  }

  /** The windows as the block at `n` sees them. */
  lemma {:induction false} Looked(s: State, es: seq<Event>, n: nat)
    requires n < |es| && From(s, es, n) && es[n].Hook?
    ensures var v := Look(s, es[n].first, es[n].key.func);
            && (v.handled <==> Up(es, n)) && (v.dfa <==> Up(es, n)) && (v.closing <==> Ends(es, n))
            && (v.pes <==> Pessimistic(es, n + 1)) && (v.windowOpen <==> Recovery(es, n + 1))
            && v.closer == if Enters(es, n) && Pessimistic(es, n) then Which(es[n].key.func) else None
  {
    PessimisticNext(es, n);
    RecoveryNext(es, n);
    if Pessimistic(es, n) {
      PessimisticSaw(es, n);
    }
  }

  lemma {:induction false} SeenFrom(s: State, es: seq<Event>, n: nat)
    requires n < |es| && From(s, es, n) && es[n].Hook?
    ensures From(Seen(s, Look(s, es[n].first, es[n].key.func)), es, n + 1)
  {
    Looked(s, es, n);
    UpNext(es, n);
    SawNext(es, n);
    CountingNext(es, n);
  }

  lemma {:induction false} SettingFrom(s: State, es: seq<Event>, n: nat)
    requires n < |es| && From(s, es, n) && !es[n].Hook? && es[n] != SetEnabled(false)
    ensures From(Step(s, es[n]), es, n + 1)
  {
    UpNext(es, n);
    SawNext(es, n);
    PessimisticNext(es, n);
    RecoveryNext(es, n);
    CountingNext(es, n);
  }

  lemma {:induction false} StepFrom(s: State, es: seq<Event>, n: nat)
    requires n < |es| && From(s, es, n) && es[n] != SetEnabled(false) && !Step(s, es[n]).aborted
    ensures From(Step(s, es[n]), es, n + 1)
  {
    if es[n].Hook? {
      var v := Look(s, es[n].first, es[n].key.func);
      SeenFrom(s, es, n);
      CountedGlobal(Seen(s, v), v, es[n].key, es[n].insts);
    } else {
      SettingFrom(s, es, n);
    }
  }

  lemma {:induction false} RunNext(es: seq<Event>, n: nat)
    requires n < |es|
    ensures Run(INIT, es[..n+1]) == Step(Run(INIT, es[..n]), es[n])
    ensures !Run(INIT, es[..n+1]).aborted ==> !Run(INIT, es[..n]).aborted
  {
    assert es[..n+1][..n] == es[..n];
  }

  /** Over every run that stays enabled and has slots: the pessimistic window is open exactly since a message started, up
      to its end or the first entry of a function that sends, notifies or calls the kernel. The other windows and the
      flags are what the events say too. */
  lemma {:induction false} WindowsFromEvents(es: seq<Event>, n: nat)
    requires n <= |es| && StaysEnabled(es) && !Run(INIT, es[..n]).aborted
    ensures From(Run(INIT, es[..n]), es, n)
  {
    if n > 0 {
      RunNext(es, n - 1);
      WindowsFromEvents(es, n - 1);
      assert es[n-1] in es;
      StepFrom(Run(INIT, es[..n-1]), es, n - 1);
    }
  }

  // ----- running out of slots -----

  /** The functions and callers that were counted. */
  ghost function Keys(es: seq<Event>, n: nat): set<Key>
    requires n <= |es|
  {
    set i | 0 <= i < n && es[i].Hook? && Counting(es, i) :: es[i].key
  }

  lemma {:induction false} KeysNext(es: seq<Event>, n: nat)
    requires n < |es|
    ensures Keys(es, n + 1) == if es[n].Hook? && Counting(es, n) then Keys(es, n) + {es[n].key} else Keys(es, n)
  {
  }

  /** One slot for each. */
  ghost predicate Slots(funcs: seq<Scope>, keys: set<Key>) {
    && |funcs| == |keys| && (forall k :: k in keys <==> IndexOf(funcs, k) < |funcs|)
  }

  lemma {:induction false} SlotTaken(funcs: seq<Scope>, keys: set<Key>, key: Key, d: Stats)
    requires Slots(funcs, keys)
    ensures Slots(Grow(WithKey(funcs, key), IndexOf(funcs, key), d), keys + {key})
  {
    var with, i := WithKey(funcs, key), IndexOf(funcs, key);
    forall k ensures IndexOf(Grow(with, i, d), k) == IndexOf(with, k) && (IndexOf(with, k) < |with| <==> k in keys + {key}) {
      IndexOfAppend(funcs, Scope(key, NONE), k);
      SameKeys(with, i, Add(with[i].stats, d));
    }
    if key in keys {
      assert keys + {key} == keys;
    }
  }

  ghost predicate Fits(s: State, keys: set<Key>) {
    (s.aborted <==> |keys| > MAXFUNCS) && (!s.aborted ==> Slots(s.funcs, keys))
  }

  lemma {:induction false} More(keys: set<Key>, key: Key)
    ensures |keys + {key}| == if key in keys then |keys| else |keys| + 1
  {
    if key in keys {
      assert keys + {key} == keys;
    }
  }

  /** A step runs out of slots in one way only. */
  lemma {:induction false} StepAborts(s: State, e: Event)
    requires s.enabled && !s.aborted
    ensures Step(s, e).aborted <==> e.Hook? && s.counting && IndexOf(s.funcs, e.key) >= MAXFUNCS
    ensures e != SetEnabled(false) ==> Step(s, e).enabled
  {
    if e.Hook? {
      var v := Look(s, e.first, e.key.func);
      CountedGlobal(Seen(s, v), v, e.key, e.insts);
    }
  }

  lemma {:induction false} HookFits(s: State, e: Event, keys: set<Key>)
    requires Fits(s, keys) && s.enabled && !s.aborted && e.Hook? && s.counting
    ensures Fits(Step(s, e), keys + {e.key})
  {
    More(keys, e.key);
    StepAborts(s, e);
    if !Step(s, e).aborted {
      StepCounters(s, e);
      SlotTaken(s.funcs, keys, e.key, FunctionDelta(Look(s, e.first, e.key.func), e.insts));
    }
  }

  lemma {:induction false} OtherFits(s: State, e: Event, keys: set<Key>)
    requires Fits(s, keys) && s.enabled && !s.aborted && !(e.Hook? && s.counting)
    ensures Fits(Step(s, e), keys)
  {
    StepAborts(s, e);
    StepCounters(s, e);
  }

  lemma {:induction false} StepFits(s: State, es: seq<Event>, n: nat)
    requires n < |es| && Fits(s, Keys(es, n)) && s.enabled && (!s.aborted ==> (s.counting <==> Counting(es, n)))
    ensures Fits(Step(s, es[n]), Keys(es, n + 1))
  {
    KeysNext(es, n);
    if s.aborted {
      if es[n].Hook? {
        More(Keys(es, n), es[n].key);
      }
    } else if es[n].Hook? && s.counting {
      HookFits(s, es[n], Keys(es, n));
    } else {
      OtherFits(s, es[n], Keys(es, n));
    }
  }

  lemma {:induction false} StaysOn(es: seq<Event>, n: nat)
    requires n <= |es| && StaysEnabled(es)
    ensures Run(INIT, es[..n]).enabled
  {
    if n > 0 {
      StaysOn(es, n - 1);
      RunNext(es, n - 1);
      assert es[n-1] in es;
      var s := Run(INIT, es[..n-1]);
      if !s.aborted {
        StepAborts(s, es[n-1]);
      }
    }
  }

  /** Over every run that stays enabled: the profiler runs out of slots exactly when it has counted more than 8000
      different functions with their callers. */
  lemma {:induction false} AbortedIff(es: seq<Event>, n: nat)
    requires n <= |es| && StaysEnabled(es)
    ensures Fits(Run(INIT, es[..n]), Keys(es, n))
  {
    if n == 0 {
      assert es[..0] == [] && Keys(es, 0) == {};
    } else {
      AbortedIff(es, n - 1);
      RunNext(es, n - 1);
      StaysOn(es, n - 1);
      var s := Run(INIT, es[..n-1]);
      if !s.aborted {
        WindowsFromEvents(es, n - 1);
      }
      StepFits(s, es, n - 1);
    }
  }

  // ----- what is counted -----

  /** A block was counted inside or outside, and nothing else. */
  ghost predicate Grew(a: Policy, b: Policy, inside: bool, n: nat) {
    b.bbIn == a.bbIn + (if inside then n else 0) && b.bbOut == a.bbOut + if inside then 0 else n
  }

  /** Closings were counted, in all and by kind. */
  ghost predicate Closed(a: Policy, b: Policy, all: nat, kernel: bool, send: bool, notify: bool) {
    && b.end == a.end + all && b.endK == a.endK + (if kernel then 1 else 0)
    && b.endS == a.endS + (if send then 1 else 0) && b.endN == a.endN + if notify then 1 else 0
  }

  /** The counters of a function and its callers. */
  ghost function StatsOf(funcs: seq<Scope>, key: Key): Stats {
    if IndexOf(funcs, key) < |funcs| then funcs[IndexOf(funcs, key)].stats else NONE
  }

  /** The hook at `n` closes the pessimistic window by entering a function. */
  ghost predicate Cuts(es: seq<Event>, n: nat)
    requires n < |es|
  {
    Enters(es, n) && Pessimistic(es, n)
  }

  ghost predicate CountedGlobally(a: Stats, b: Stats, es: seq<Event>, n: nat)
    requires n < |es| && es[n].Hook?
  {
    var insts, func := es[n].insts, es[n].key.func;
    && Grew(a.pes, b.pes, Pessimistic(es, n + 1), insts) && Grew(a.dfa, b.dfa, Up(es, n), insts)
    && Grew(a.opt, b.opt, Up(es, n), insts) && Grew(a.rwindow, b.rwindow, Recovery(es, n + 1), insts)
    && Closed(a.pes, b.pes, if Cuts(es, n) then 1 else 0, Cuts(es, n) && Calls(func), Cuts(es, n) && Sends(func), Cuts(es, n) && Notifies(func))
    && Closed(a.opt, b.opt, if Ends(es, n) then 1 else 0, Ends(es, n), false, false)
    && Closed(a.dfa, b.dfa, 0, false, false, false) && Closed(a.rwindow, b.rwindow, 0, false, false, false)
  }

  /** For a function: a pessimistic closing goes to its optimistic closings, as the code does it. */
  ghost predicate CountedFor(a: Stats, b: Stats, es: seq<Event>, n: nat)
    requires n < |es| && es[n].Hook?
  {
    var insts := es[n].insts;
    && Grew(a.pes, b.pes, Pessimistic(es, n + 1), insts) && Grew(a.dfa, b.dfa, Up(es, n), insts)
    && Grew(a.opt, b.opt, Up(es, n), insts) && b.rwindow == a.rwindow
    && Closed(a.opt, b.opt, (if Cuts(es, n) then 1 else 0) + (if Ends(es, n) then 1 else 0), false, false, false)
    && Closed(a.pes, b.pes, 0, false, false, false) && Closed(a.dfa, b.dfa, 0, false, false, false)
  }

  lemma {:induction false} OneKind(func: string)
    ensures !(Sends(func) && Notifies(func)) && !(Sends(func) && Calls(func)) && !(Notifies(func) && Calls(func))
  {
    if Sends(func) {
      assert func[5] == 's' && func[1] == 'i';
    }
    if Notifies(func) {
      assert func[5] == 'n' && func[1] == 'i';
    }
    if Calls(func) {
      assert func[1] == 'd';
    }
  }

  lemma {:induction false} GlobalCounted(s: State, es: seq<Event>, n: nat, a: Stats)
    requires n < |es| && From(s, es, n) && es[n].Hook?
    ensures CountedGlobally(a, Add(a, GlobalDelta(Look(s, es[n].first, es[n].key.func), es[n].insts)), es, n)
  {
    Looked(s, es, n);
    OneKind(es[n].key.func);
  }

  lemma {:induction false} FunctionCounted(s: State, es: seq<Event>, n: nat, a: Stats)
    requires n < |es| && From(s, es, n) && es[n].Hook?
    ensures CountedFor(a, Add(a, FunctionDelta(Look(s, es[n].first, es[n].key.func), es[n].insts)), es, n)
  {
    Looked(s, es, n);
  }

  /** The counters after a hook, and after any other event. */
  lemma {:induction false} StepCounters(s: State, e: Event)
    requires s.enabled && !s.aborted && !Step(s, e).aborted
    ensures var t := Step(s, e);
            if e.Hook? && s.counting then
              var v := Look(s, e.first, e.key.func);
              && t.glo == Add(s.glo, GlobalDelta(v, e.insts))
              && t.funcs == Grow(WithKey(s.funcs, e.key), IndexOf(s.funcs, e.key), FunctionDelta(v, e.insts))
            else t.glo == s.glo && t.funcs == s.funcs
  {
  }

  lemma {:induction false} StatsOfGrown(funcs: seq<Scope>, key: Key, d: Stats, k: Key)
    ensures StatsOf(Grow(WithKey(funcs, key), IndexOf(funcs, key), d), k) ==
            if k == key then Add(StatsOf(funcs, key), d) else StatsOf(funcs, k)
  {
    var with, i := WithKey(funcs, key), IndexOf(funcs, key);
    IndexOfAppend(funcs, Scope(key, NONE), k);
    IndexOfAppend(funcs, Scope(key, NONE), key);
    SameKeys(with, i, Add(with[i].stats, d));
  }

  ghost predicate CountedHook(s: State, t: State, es: seq<Event>, n: nat)
    requires n < |es| && es[n].Hook?
  {
    && CountedGlobally(s.glo, t.glo, es, n) && CountedFor(StatsOf(s.funcs, es[n].key), StatsOf(t.funcs, es[n].key), es, n)
    && forall k :: k != es[n].key ==> StatsOf(t.funcs, k) == StatsOf(s.funcs, k)
  }

  lemma {:induction false} StepCounts(s: State, es: seq<Event>, n: nat)
    requires n < |es| && From(s, es, n) && es[n].Hook? && s.counting && !Step(s, es[n]).aborted
    ensures CountedHook(s, Step(s, es[n]), es, n)
  {
    var e, t := es[n], Step(s, es[n]);
    var d := FunctionDelta(Look(s, e.first, e.key.func), e.insts);
    StepCounters(s, e);
    GlobalCounted(s, es, n, s.glo);
    FunctionCounted(s, es, n, StatsOf(s.funcs, e.key));
    forall k ensures StatsOf(t.funcs, k) == if k == e.key then Add(StatsOf(s.funcs, e.key), d) else StatsOf(s.funcs, k) {
      StatsOfGrown(s.funcs, e.key, d, k);
    }
  }

  /** Over every run that stays enabled and has slots, event by event: a hook with statistics on counts its block for each
      policy inside exactly when the window of the policy is open by the events, globally and for its own function only;
      a closing is counted exactly when it happens, by its kind; and no other event changes a counter. */
  lemma {:induction false} CountersFromEvents(es: seq<Event>, n: nat)
    requires n < |es| && StaysEnabled(es) && !Run(INIT, es[..n+1]).aborted
    ensures var s, t := Run(INIT, es[..n]), Run(INIT, es[..n+1]);
            if es[n].Hook? && Counting(es, n) then CountedHook(s, t, es, n) else t.glo == s.glo && t.funcs == s.funcs
  {
    RunNext(es, n);
    WindowsFromEvents(es, n);
    StepCounters(Run(INIT, es[..n]), es[n]);
    if es[n].Hook? && Counting(es, n) {
      StepCounts(Run(INIT, es[..n]), es, n);
    }
  }
}
