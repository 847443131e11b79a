/**
 Periodic crash injection: a site attempts a crash after a number of eligible transits that grows by half each time.
 */
module PeriodicCrash {
  import opened RecoveryWindow

  /** The counters of a site, both zero at the start. */
  datatype Slot = Slot(transits: nat, period: nat)

  const START := Slot(0, 0)

  /** The number of sites that have counters. */
  const BOARD := 1000

  const IPC_END := 1024

  function AtLeastOne(period: nat): nat {
    if period < 1 then 1 else period
  }

  function Grown(period: nat): nat {
    (period + 1) * 3 / 2
  }

  /** The remainder of a division, by repeated subtraction. */
  function Remainder(a: nat, p: nat): nat
    requires p > 0
  {
    if a < p then a else Remainder(a - p, p)
  }

  lemma {:induction false} RemainderIsModulo(a: nat, p: nat)
    requires p > 0
    ensures Remainder(a, p) == a % p
  {
    if a >= p {
      RemainderIsModulo(a - p, p);
      ModuloLess(a, p);
    }
  }

  lemma {:induction false} ModuloLess(a: int, p: int)
    requires 0 < p
    ensures (a - p) % p == a % p
  {
    var d := a / p - (a - p) / p - 1;
    assert p * d == (a - p) % p - a % p;
    assert (d >= 1 ==> p * d >= p) && (d <= -1 ==> p * d <= -p);
  }

  predicate Attempts(s: Slot) {
    Remainder(s.transits + 1, AtLeastOne(s.period)) == 0
  }

  function Transit(s: Slot): Slot {
    var period := AtLeastOne(s.period);
    if Attempts(s) then Slot(0, Grown(period)) else Slot(s.transits + 1, period)
  }

  // ----- every run of eligible transits -----

  /** The counters of a site, and how many attempts it made. */
  datatype Count = Count(slot: Slot, attempts: nat)

  function Next(c: Count): Count {
    Count(Transit(c.slot), c.attempts + if Attempts(c.slot) then 1 else 0)
  }

  /** After `n` eligible transits. */
  function After(n: nat): Count {
    if n == 0 then Count(START, 0) else Next(After(n - 1))
  }

  /** The number of transits from the k-th attempt (or the start) to the next. */
  function Period(k: nat): nat {
    if k == 0 then 1 else Grown(Period(k - 1))
  }

  /** The number of transits up to the k-th attempt. */
  function Total(k: nat): nat {
    if k == 0 then 0 else Total(k - 1) + Period(k - 1)
  }

  /** `k` attempts were made, the last of them `t` transits ago. */
  function Between(k: nat, t: nat): Count {
    Count(Slot(t, if k == 0 then 0 else Period(k)), k)
  }

  lemma {:induction false} NextTransit(k: nat, t: nat)
    requires t < Period(k)
    ensures Next(Between(k, t)) == if t + 1 < Period(k) then Between(k, t + 1) else Between(k + 1, 0)
  {
    var s := Between(k, t).slot;
    assert AtLeastOne(s.period) == Period(k);
    assert t + 1 == Period(k) ==> Remainder(t + 1, Period(k)) == Remainder(0, Period(k));
    assert Attempts(s) <==> t + 1 == Period(k);
  }

  /** Exactly `Period(k)` eligible transits separate the k-th attempt from the next one: after `t` of them, fewer than
      that, there have been `k` attempts and the counter stands at `t`. */
  lemma {:induction false} BetweenAttempts(k: nat, t: nat) returns (n: nat)
    requires t < Period(k)
    ensures n == Total(k) + t && After(n) == Between(k, t)
    decreases k, t
  {
    n := 0;
    if t > 0 {
      var m := BetweenAttempts(k, t - 1);
      n := OneMore(k, t - 1, m);
    } else if k > 0 {
      var m := BetweenAttempts(k - 1, Period(k - 1) - 1);
      n := OneMore(k - 1, Period(k - 1) - 1, m);
    }
  }

  lemma {:induction false} OneMore(k: nat, t: nat, m: nat) returns (n: nat)
    requires t < Period(k) && After(m) == Between(k, t)
    ensures n == m + 1 && After(n) == if t + 1 < Period(k) then Between(k, t + 1) else Between(k + 1, 0)
  {
    NextTransit(k, t);
    n := m + 1;
  }

  // ----- how fast the periods grow -----

  function Pow(b: nat, e: nat): nat {
    if e == 0 then 1 else b * Pow(b, e - 1)
  }

  lemma {:induction false} Scaled(a: int, b: int, x: int, y: int, c: nat)
    requires a * x <= b * y
    ensures a * (x * c) <= b * (y * c)
  {
  }

  lemma {:induction false} Doubled(x: int, c: nat)
    ensures x * (2 * c) == 2 * (x * c)
  {
  }

  /** 3 (3/2)^k - 2 <= Period(k) <= 4 (3/2)^k - 3. */
  lemma {:induction false} PeriodBounds(k: nat)
    ensures 3 * Pow(3, k) <= (Period(k) + 2) * Pow(2, k)
    ensures (Period(k) + 3) * Pow(2, k) <= 4 * Pow(3, k)
  {
    if k > 0 {
      PeriodBounds(k - 1);
      var p, q, two := Period(k - 1), Period(k), Pow(2, k - 1);
      Scaled(3, 2, p + 2, q + 2, two);
      Scaled(2, 3, q + 3, p + 3, two);
      Doubled(q + 2, two);
      Doubled(q + 3, two);
    }
  }

  lemma {:induction false} Distributed(x: int, y: int, c: nat)
    ensures (x + y) * c == x * c + y * c
  {
  }

  /** 6 (3/2)^k - 2 k - 6 <= Total(k) <= 8 (3/2)^k - 3 k - 8: attempts grow only with the logarithm of the transits. */
  lemma {:induction false} TotalBounds(k: nat)
    ensures 6 * Pow(3, k) <= (Total(k) + 2 * k + 6) * Pow(2, k)
    ensures (Total(k) + 3 * k + 8) * Pow(2, k) <= 8 * Pow(3, k)
  {
    if k > 0 {
      TotalBounds(k - 1);
      PeriodBounds(k - 1);
      var two := Pow(2, k - 1);
      var low, high := Total(k - 1) + 2 * (k - 1) + 6, Total(k - 1) + 3 * (k - 1) + 8;
      Distributed(low, Period(k - 1) + 2, two);
      Distributed(high, Period(k - 1) + 3, two);
      Doubled(low + (Period(k - 1) + 2), two);
      Doubled(high + (Period(k - 1) + 3), two);
      assert Total(k) + 2 * k + 6 == low + (Period(k - 1) + 2);
      assert Total(k) + 3 * k + 8 == high + (Period(k - 1) + 3);
    }
  }

  // ----- the hook -----

  /** What the hook asks the system before it counts a transit, in this order. */
  datatype System = System(
    initDone: bool,
    hasCurrentMessage: bool,
    armed: bool,              // the switch of the site is on, and crashes on window close are enabled
    message: bool,            // the current message can be fetched
    fromRs: bool,             // it comes from the reincarnation server
    rsReady: bool,
    onlyWhenRecoverable: bool,
    replyable: int)

  /** Whether a site has a switch: the first sites, and the kernel call sites behind them. */
  predicate OnBoard(site: nat, ipcSites: nat, kernelCallSites: nat) {
    if site <= IPC_END then site < ipcSites else site <= IPC_END + kernelCallSites
  }

  /** The sites with a switch but without counters would be counted outside the board: they are left to the caller. */
  method DoSuicidePerSite(lib: Library, board: array<Slot>, site: nat, ipcSites: nat, kernelCallSites: nat, y: System)
    returns (attempt: bool)
    requires board.Length == BOARD && site < BOARD
    modifies lib`insideTcb, board
    ensures OnBoard(site, ipcSites, kernelCallSites) && !old(lib.insideTcb) && !y.initDone ==> lib.insideTcb
    ensures !(OnBoard(site, ipcSites, kernelCallSites) && !y.initDone) ==> lib.insideTcb == old(lib.insideTcb)
    ensures var counted :=
              && OnBoard(site, ipcSites, kernelCallSites) && !old(lib.insideTcb) && lib.windowIsOpen
              && y.initDone && y.hasCurrentMessage && y.armed && y.message && !y.fromRs && y.rsReady
              && (y.onlyWhenRecoverable ==> y.replyable == 1);
            && board[..] == (if counted then old(board[..])[site := Transit(old(board[site]))] else old(board[..]))
            && (attempt <==> counted && Attempts(old(board[site])))
  {
    attempt := false;
    if (site >= ipcSites && site <= IPC_END) || (site > IPC_END && site > IPC_END + kernelCallSites) {
      return;
    }
    if lib.insideTcb {
      return;
    }
    if !y.initDone {
      lib.insideTcb := true;
      return;
    }
    if !y.hasCurrentMessage {
      return;
    }
    if lib.windowIsOpen && y.armed {
      if !y.message || y.fromRs || !y.rsReady {
        return;
      }
      if y.onlyWhenRecoverable && y.replyable != 1 {
        return;
      }
      var transits, period := board[site].transits + 1, board[site].period;
      if period < 1 {
        period := 1;
      }
      RemainderIsModulo(transits, period);
      if transits % period != 0 {
        board[site] := Slot(transits, period);
        return;
      }
      period := period + 1;
      period := period * 3;
      period := period / 2;
      board[site] := Slot(0, period);
      attempt := true;
    }
  }
}
