/**
 Switching the fault injection flag around calls: an instrumented function saves the flag and its version on entry, sets
 the flag to its own value, and on return restores the flag unless the version says that injection was started or
 stopped in between. The version is a 32-bit counter.
 */
module FlagSwitching {

  const WRAP := 0x1_0000_0000

  datatype Flags = Flags(flag: int, version: nat)

  /** The functions that are given this value are not instrumented. */
  const LEAVE_ALONE := -1

  /** What a function does with the flag: starts, stops, and calls of functions with a switch value and a body. The flag is
      restored in the last block of a function. A call that leaves by another exit is `early`: the exits of most functions
      are unified first, but not those of the library's own section. */
  datatype Acts =
    | Return
    | Start(rest: Acts)
    | Stop(rest: Acts)
    | Call(value: int, body: Acts, early: bool, rest: Acts)

  /** The counter after `n` more increments. */
  function Advance(version: nat, n: nat): nat {
    (version + n) % WRAP
  }

  lemma {:induction false} AdvanceTwice(version: nat, a: nat, b: nat)
    ensures Advance(Advance(version, a), b) == Advance(version, a + b)
  {
  }

  lemma {:induction false} AdvanceReturns(version: nat, n: nat)
    requires version < WRAP
    ensures Advance(version, n) == version <==> n % WRAP == 0
  {
  }

  function Bump(flag: int, s: Flags): Flags {
    Flags(flag, Advance(s.version, 1))
  }

  /** The end of an instrumented function: restore the flag if the version is the one that was saved. */
  function Leave(saved: Flags, s: Flags): Flags {
    if saved.version == s.version then Flags(saved.flag, s.version) else s
  }

  function Run(s: Flags, a: Acts): Flags
    decreases a, 0
  {
    match a
    case Return => s
    case Start(rest) => Run(Bump(1, s), rest)
    case Stop(rest) => Run(Bump(0, s), rest)
    case Call(value, body, early, rest) => Run(Returned(s, value, body, early), rest)
  }

  /** The flag and its version when a call returns. */
  function Returned(s: Flags, value: int, body: Acts, early: bool): Flags
    decreases body, 1
  {
    if value == LEAVE_ALONE then Run(s, body)
    else if early then Run(Flags(value, s.version), body)
    else Leave(s, Run(Flags(value, s.version), body))
  }

  /** How often injection is started or stopped, in nested calls too. */
  function Switches(a: Acts): nat {
    match a
    case Return => 0
    case Start(rest) => 1 + Switches(rest)
    case Stop(rest) => 1 + Switches(rest)
    case Call(_, body, _, rest) => Switches(body) + Switches(rest)
  }

  /** The value of the last start or stop, in nested calls too, or the given value if there is none. */
  function Last(a: Acts, entry: int): int {
    match a
    case Return => entry
    case Start(rest) => Last(rest, 1)
    case Stop(rest) => Last(rest, 0)
    case Call(_, body, _, rest) => Last(rest, Last(body, entry))
  }

  /** Where injection is switched at all, the counter has not come round to the same version. */
  predicate Fresh(switches: nat) {
    switches == 0 || switches % WRAP != 0
  }

  /** Whether the flag can be told on return: after an early exit only what was switched in between remains. */
  predicate Settled(early: bool, switches: nat) {
    if early then switches > 0 else Fresh(switches)
  }

  /** Every instrumented call in the tree returns with a flag that can be told. */
  predicate AllFresh(a: Acts) {
    match a
    case Return => true
    case Start(rest) => AllFresh(rest)
    case Stop(rest) => AllFresh(rest)
    case Call(value, body, early, rest) =>
      (value == LEAVE_ALONE || Settled(early, Switches(body))) && AllFresh(body) && AllFresh(rest)
  }

  lemma {:induction false} LastWithoutSwitches(a: Acts, entry: int)
    requires Switches(a) == 0
    ensures Last(a, entry) == entry
  {
    if a.Call? {
      LastWithoutSwitches(a.body, entry);
      LastWithoutSwitches(a.rest, entry);
    }
  }

  lemma {:induction false} LastWithSwitches(a: Acts, e1: int, e2: int)
    requires Switches(a) > 0
    ensures Last(a, e1) == Last(a, e2)
  {
    if a.Call? {
      if Switches(a.body) > 0 {
        LastWithSwitches(a.body, e1, e2);
      } else {
        LastWithSwitches(a.rest, Last(a.body, e1), Last(a.body, e2));
      }
    }
  }

  lemma {:induction false} VersionCounts(s: Flags, a: Acts)
    requires s.version < WRAP
    ensures Run(s, a).version == Advance(s.version, Switches(a))
    decreases a
  {
    match a
    case Return =>
    case Start(rest) =>
      VersionCounts(Bump(1, s), rest);
      AdvanceTwice(s.version, 1, Switches(rest));
    case Stop(rest) =>
      VersionCounts(Bump(0, s), rest);
      AdvanceTwice(s.version, 1, Switches(rest));
    case Call(value, body, early, rest) =>
      var inner := Returned(s, value, body, early);
      VersionCounts(s, body);
      VersionCounts(Flags(value, s.version), body);
      VersionCounts(inner, rest);
      AdvanceTwice(s.version, Switches(body), Switches(rest));
  }

  /** For every tree of calls with fresh versions: the flag on return is the value of the last start or stop during the
      call, or the value on entry if there was none, whatever values the instrumented functions set in between. */
  lemma {:induction false} FlagOnReturn(s: Flags, a: Acts)
    requires s.version < WRAP && AllFresh(a)
    ensures Run(s, a).flag == Last(a, s.flag)
    decreases a
  {
    match a
    case Return =>
    case Start(rest) => FlagOnReturn(Bump(1, s), rest);
    case Stop(rest) => FlagOnReturn(Bump(0, s), rest);
    case Call(value, body, early, rest) =>
      var inner := Returned(s, value, body, early);
      VersionCounts(s, body);
      VersionCounts(Flags(value, s.version), body);
      AdvanceReturns(s.version, Switches(body));
      if value == LEAVE_ALONE {
        FlagOnReturn(s, body);
      } else {
        FlagOnReturn(Flags(value, s.version), body);
        if Switches(body) == 0 {
          LastWithoutSwitches(body, s.flag);
        } else {
          LastWithSwitches(body, value, s.flag);
        }
      }
      FlagOnReturn(inner, rest);
  }

  /** One instrumented call, with settled calls below it: the flag on return is right for every entry value, if and only
      if the number of starts and stops during the call is zero or not a multiple of 2^32, and not zero after an early exit. */
  lemma {:induction false} FlagOnReturnIff(value: int, body: Acts, early: bool, version: nat)
    requires version < WRAP && AllFresh(body) && value != LEAVE_ALONE
    ensures (forall entry :: Run(Flags(entry, version), Call(value, body, early, Return)).flag == Last(body, entry)) <==> Settled(early, Switches(body))
  {
    var a := Call(value, body, early, Return);
    if Settled(early, Switches(body)) {
      forall entry ensures Run(Flags(entry, version), a).flag == Last(body, entry) {
        FlagOnReturn(Flags(entry, version), a);
        assert Last(a, entry) == Last(body, entry);
      }
    } else if early {
      var entry := value + 1;
      FlagOnReturn(Flags(value, version), body);
      LastWithoutSwitches(body, value);
      LastWithoutSwitches(body, entry);
      assert Run(Flags(entry, version), a) == Run(Flags(value, version), body);
    } else {
      var entry := Last(body, 0) + 1;
      var s := Flags(entry, version);
      VersionCounts(Flags(value, version), body);
      AdvanceReturns(version, Switches(body));
      LastWithSwitches(body, 0, entry);
      assert Run(s, a) == Leave(s, Run(Flags(value, version), body));
      assert Run(s, a).flag == entry != Last(body, entry);
    }
  }

  /** A call returns with the right flag, whatever flag and version it is entered with. */
  ghost predicate RightCall(value: int, body: Acts, early: bool) {
    forall s: Flags :: s.version < WRAP ==> Run(s, Call(value, body, early, Return)).flag == Last(body, s.flag)
  }

  ghost predicate AllRight(a: Acts) {
    match a
    case Return => true
    case Start(rest) => AllRight(rest)
    case Stop(rest) => AllRight(rest)
    case Call(value, body, early, rest) => RightCall(value, body, early) && AllRight(body) && AllRight(rest)
  }

  /** Over whole trees: every call in the tree returns with the right flag if and only if no instrumented call in it
      starts and stops injection a positive multiple of 2^32 times, or leaves early without starting or stopping it. */
  lemma {:induction false} AllRightIff(a: Acts)
    ensures AllRight(a) <==> AllFresh(a)
  {
    match a
    case Return =>
    case Start(rest) => AllRightIff(rest);
    case Stop(rest) => AllRightIff(rest);
    case Call(value, body, early, rest) =>
      AllRightIff(body);
      AllRightIff(rest);
      if AllFresh(a) {
        forall s: Flags | s.version < WRAP ensures Run(s, Call(value, body, early, Return)).flag == Last(body, s.flag) {
          FlagOnReturn(s, Call(value, body, early, Return));
        }
      } else if AllFresh(body) && value != LEAVE_ALONE {
        FlagOnReturnIff(value, body, early, 0);
        assert RightCall(value, body, early) ==>
          forall entry :: Run(Flags(entry, 0), Call(value, body, early, Return)).flag == Last(body, Flags(entry, 0).flag);
      }
  }

  function Stops(n: nat): Acts {
    if n == 0 then Return else Stop(Stops(n - 1))
  }

  lemma {:induction false} StopsSpec(n: nat, entry: int)
    ensures Switches(Stops(n)) == n && AllFresh(Stops(n)) && (n > 0 ==> Last(Stops(n), entry) == 0)
  {
    if n > 0 {
      StopsSpec(n - 1, 0);
    }
  }

  /** With 2^32 stops during a call, injection is on again on return. */
  lemma {:induction false} VersionComesRound(value: int, version: nat)
    requires version < WRAP && value != LEAVE_ALONE
    ensures Run(Flags(1, version), Call(value, Stops(WRAP), false, Return)).flag == 1 && Last(Stops(WRAP), 1) == 0
  {
    StopsSpec(WRAP, 1);
    VersionCounts(Flags(value, version), Stops(WRAP));
    AdvanceReturns(version, WRAP);
    var s := Flags(1, version);
    assert Run(s, Call(value, Stops(WRAP), false, Return)) == Leave(s, Run(Flags(value, version), Stops(WRAP)));
  }

  /** A function that leaves by another exit than its last block leaves its own flag value behind. */
  lemma {:induction false} EarlyExitKeepsValue(value: int, s: Flags)
    requires value != LEAVE_ALONE
    ensures Run(s, Call(value, Return, true, Return)).flag == value
  {
  }
}
