/**
 The leave-balance ledger: which counter a leave type draws on, and the
 debit an approval applies.
 */
module Ledger {
  import opened Wrappers
  import opened Types

  /** The five entitlement counters of a balance. */
  datatype Counter = Al | Ml | Cl | Rh | Comoff

  function Get(b: LeaveBalance, c: Counter): int {
    match c
    case Al => b.al
    case Ml => b.ml
    case Cl => b.cl
    case Rh => b.rh
    case Comoff => b.comoff
  }

  /** The counter a leave type draws on; unpaid leave draws on none. */
  function CounterOf(t: LeaveType): (r: Option<Counter>)
    ensures r.None? <==> t == UNPAID
  {
    match t
    case AL => Some(Al)
    case ML => Some(Ml)
    case CL => Some(Cl)
    case RH => Some(Rh)
    case COMOFF => Some(Comoff)
    case UNPAID => None
  }

  /** What a debit of `days` of leave type `t` takes from counter `c`. */
  function Charge(t: LeaveType, c: Counter, days: int): int {
    if CounterOf(t) == Some(c) then days else 0
  }

  /** The balance after approving `days` days of leave of type `t`: the
      matching counter drops by `days` (without any floor), `used` rises by
      `days`, and nothing else changes. */
  function Debit(b: LeaveBalance, t: LeaveType, days: int): (r: LeaveBalance)
    ensures r.userId == b.userId
    ensures r.used == b.used + days
    ensures forall c :: Get(r, c) == Get(b, c) - Charge(t, c, days)
  {
    match t
    case AL => b.(al := b.al - days, used := b.used + days)
    case ML => b.(ml := b.ml - days, used := b.used + days)
    case CL => b.(cl := b.cl - days, used := b.used + days)
    case RH => b.(rh := b.rh - days, used := b.used + days)
    case COMOFF => b.(comoff := b.comoff - days, used := b.used + days)
    case UNPAID => b.(used := b.used + days)
  }

  /** Balances are determined by their user id, five counters and `used`. */
  lemma BalanceExtensional(a: LeaveBalance, b: LeaveBalance)
    requires a.userId == b.userId && a.used == b.used
    requires forall c :: Get(a, c) == Get(b, c)
    ensures a == b
  {
    assert Get(a, Al) == Get(b, Al) && Get(a, Ml) == Get(b, Ml) && Get(a, Cl) == Get(b, Cl);
    assert Get(a, Rh) == Get(b, Rh) && Get(a, Comoff) == Get(b, Comoff);
  }

  /** Two debits of the same type add up. */
  lemma DebitTwice(b: LeaveBalance, t: LeaveType, d1: int, d2: int)
    ensures Debit(Debit(b, t, d1), t, d2) == Debit(b, t, d1 + d2)
  {
    BalanceExtensional(Debit(Debit(b, t, d1), t, d2), Debit(b, t, d1 + d2));
  }

  /** Unpaid leave leaves every counter alone but still counts as used. */
  lemma UnpaidDrawsNoCounter(b: LeaveBalance, days: int)
    ensures forall c :: Get(Debit(b, UNPAID, days), c) == Get(b, c)
    ensures Debit(b, UNPAID, days).used == b.used + days
  {
  }
}
