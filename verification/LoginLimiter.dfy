/** The sign-in budget of internal/api/auth.go: a fixed one-minute window per process. */
module LoginLimiter {
  import opened Bytes

  type Addr = string

  const ATTEMPTS_PER_MINUTE := 5

  /** Times and waits are in nanoseconds. */
  const MINUTE := 60_000_000_000

  /** `count` is `None` until the first attempt. */
  datatype Limiter = Limiter(start: int, count: Option<map<Addr, nat>>)

  const NEW := Limiter(0, None)

  datatype Verdict = Verdict(allowed: bool, wait: int)

  function Tries(l: Limiter, addr: Addr): nat {
    if l.count.Some? && addr in l.count.value then l.count.value[addr] else 0
  }

  /** The window an attempt at `now` is counted in. */
  function Window(l: Limiter, now: int): Limiter {
    if l.count.None? || now - l.start >= MINUTE then Limiter(now, Some(map[])) else l
  }

  function AllowSpec(l: Limiter, addr: Addr, now: int): (r: (Limiter, Verdict))
    ensures r.0.count.Some?
  {
    var w := Window(l, now);
    var n := Tries(w, addr) + 1;
    (w.(count := Some(w.count.value[addr := n])),
     Verdict(n <= ATTEMPTS_PER_MINUTE, w.start + MINUTE - now))
  }

  function ClearSpec(l: Limiter, addr: Addr): Limiter {
    if l.count.None? then l else l.(count := Some(l.count.value - {addr}))
  }

  // ----------------------------------------------------------- runs of requests

  /** A sign-in attempt, or a success that forgets an address. */
  datatype Request = Attempt(addr: Addr, now: int) | Success(addr: Addr)

  function Apply(l: Limiter, q: Request): Limiter {
    match q
    case Attempt(addr, now) => AllowSpec(l, addr, now).0
    case Success(addr) => ClearSpec(l, addr)
  }

  /** The clock does not run backwards, and `addr` itself never signs in. */
  ghost predicate Orderly(qs: seq<Request>, addr: Addr, clock: int) {
    if qs == [] then true
    else match qs[0]
      case Attempt(_, now) => clock <= now && Orderly(qs[1..], addr, now)
      case Success(a) => a != addr && Orderly(qs[1..], addr, clock)
  }

  /** How many attempts by `addr` at times in [lo, hi) are let through. */
  function Allowed(l: Limiter, qs: seq<Request>, addr: Addr, lo: int, hi: int): nat
    decreases qs
  {
    if qs == [] then 0
    else
      var q := qs[0];
      var mine := q.Attempt? && q.addr == addr && lo <= q.now < hi;
      (if mine && AllowSpec(l, addr, q.now).1.allowed then 1 else 0) + Allowed(Apply(l, q), qs[1..], addr, lo, hi)
  }

  /** What is left of `addr`'s budget in the open window. */
  function Left(l: Limiter, addr: Addr): nat {
    if Tries(l, addr) >= ATTEMPTS_PER_MINUTE then 0 else ATTEMPTS_PER_MINUTE - Tries(l, addr)
  }

  lemma {:induction false} NoneAllowedLater(l: Limiter, qs: seq<Request>, addr: Addr, lo: int, hi: int, clock: int)
    requires Orderly(qs, addr, clock) && clock >= hi
    ensures Allowed(l, qs, addr, lo, hi) == 0
    decreases qs
  {
    if qs != [] {
      var q := qs[0];
      NoneAllowedLater(Apply(l, q), qs[1..], addr, lo, hi, if q.Attempt? then q.now else clock);
    }
  }

  /** No interval that ends with the open window sees more than what is left in it. */
  lemma {:induction false} BudgetOfOpenWindow(l: Limiter, qs: seq<Request>, addr: Addr, lo: int, hi: int, clock: int)
    requires Orderly(qs, addr, clock) && l.count.Some? && hi <= l.start + MINUTE
    ensures Allowed(l, qs, addr, lo, hi) <= Left(l, addr)
    decreases qs
  {
    if qs != [] {
      var q, m := qs[0], Apply(l, qs[0]);
      match q
      case Success(_) => BudgetOfOpenWindow(m, qs[1..], addr, lo, hi, clock);
      case Attempt(_, now) =>
        if now - l.start >= MINUTE {
          NoneAllowedLater(m, qs[1..], addr, lo, hi, now);
        } else {
          BudgetOfOpenWindow(m, qs[1..], addr, lo, hi, now);
        }
    }
  }

  /** Once the minute has begun, at most one more window opens inside it. */
  lemma {:induction false} BudgetFromInside(l: Limiter, qs: seq<Request>, addr: Addr, lo: int, clock: int)
    requires Orderly(qs, addr, clock) && lo <= clock
    ensures Allowed(l, qs, addr, lo, lo + MINUTE) <= Left(l, addr) + ATTEMPTS_PER_MINUTE
    decreases qs
  {
    if qs != [] {
      var q, m := qs[0], Apply(l, qs[0]);
      match q
      case Success(_) => BudgetFromInside(m, qs[1..], addr, lo, clock);
      case Attempt(_, now) =>
        if l.count.None? || now - l.start >= MINUTE {
          BudgetOfOpenWindow(m, qs[1..], addr, lo, lo + MINUTE, now);
        } else {
          BudgetFromInside(m, qs[1..], addr, lo, now);
        }
    }
  }

  /** Over any run, an address gets at most ten attempts in any half-open minute. */
  lemma {:induction false} TenInAnyMinute(l: Limiter, qs: seq<Request>, addr: Addr, lo: int, clock: int)
    requires Orderly(qs, addr, clock)
    ensures Allowed(l, qs, addr, lo, lo + 60_000_000_000) <= 10
    decreases qs
  {
    if lo <= clock {
      BudgetFromInside(l, qs, addr, lo, clock);
    } else if qs != [] {
      var q, m := qs[0], Apply(l, qs[0]);
      match q
      case Success(_) => TenInAnyMinute(m, qs[1..], addr, lo, clock);
      case Attempt(_, now) =>
        if now < lo {
          TenInAnyMinute(m, qs[1..], addr, lo, now);
        } else if l.count.None? || now - l.start >= MINUTE {
          BudgetOfOpenWindow(m, qs[1..], addr, lo, lo + MINUTE, now);
        } else {
          BudgetFromInside(m, qs[1..], addr, lo, now);
        }
    }
  }

  /** Over any run, an address gets at most five attempts in one window. */
  lemma FiveInOneWindow(l: Limiter, qs: seq<Request>, addr: Addr, clock: int)
    requires Orderly(qs, addr, clock) && l.count.Some?
    ensures Allowed(l, qs, addr, l.start, l.start + 60_000_000_000) <= Left(l, addr) <= 5
  {
    BudgetOfOpenWindow(l, qs, addr, l.start, l.start + MINUTE, clock);
  }

  /**
   What an answer means: an attempt is let through if and only if fewer than five were
   counted in its window, and one that waits as long as it is told opens a new window.
   */
  lemma AnswerMeans(l: Limiter, addr: Addr, now: int)
    ensures
      var (after, v) := AllowSpec(l, addr, now);
      var again := AllowSpec(after, addr, now + v.wait);
      && (v.allowed <==> Tries(Window(l, now), addr) < 5)
      && Tries(after, addr) == Tries(Window(l, now), addr) + 1
      && (l.count.None? || now - l.start >= 60_000_000_000 ==> Tries(Window(l, now), addr) == 0)
      && (l.count.Some? && now - l.start < 60_000_000_000 ==> Window(l, now) == l)
      && again.1.allowed && again.0.start == now + v.wait && Tries(again.0, addr) == 1
  {
  }

  /** `n` attempts by one address at one time. */
  function Burst(addr: Addr, now: int, n: nat): seq<Request> {
    if n == 0 then [] else [Attempt(addr, now)] + Burst(addr, now, n - 1)
  }

  lemma {:induction false} BurstIsOrderly(addr: Addr, other: Addr, now: int, n: nat, more: seq<Request>, clock: int)
    requires clock <= now && Orderly(more, other, now)
    ensures Orderly(Burst(addr, now, n) + more, other, clock)
    decreases n
  {
    var qs := Burst(addr, now, n) + more;
    if n == 0 {
      assert qs == more;
      LaterClock(more, other, clock, now);
    } else {
      assert qs[0] == Attempt(addr, now) && qs[1..] == Burst(addr, now, n - 1) + more;
      BurstIsOrderly(addr, other, now, n - 1, more, now);
    }
  }

  lemma {:induction false} LaterClock(qs: seq<Request>, addr: Addr, clock: int, later: int)
    requires clock <= later && Orderly(qs, addr, later)
    ensures Orderly(qs, addr, clock)
    decreases qs
  {
    if qs != [] && qs[0].Success? { LaterClock(qs[1..], addr, clock, later); }
  }

  /** A burst that fits the open window's budget is let through whole. */
  lemma {:induction false} BurstAllowed(l: Limiter, addr: Addr, now: int, n: nat, more: seq<Request>, lo: int, hi: int)
    requires l.count.Some? && now - l.start < MINUTE && lo <= now < hi && n <= Left(l, addr)
    ensures exists m: Limiter ::
              && m.start == l.start && m.count.Some? && Left(m, addr) == Left(l, addr) - n
              && Allowed(l, Burst(addr, now, n) + more, addr, lo, hi) == n + Allowed(m, more, addr, lo, hi)
    decreases n
  {
    var qs := Burst(addr, now, n) + more;
    if n == 0 {
      assert qs == more;
    } else {
      assert qs[0] == Attempt(addr, now) && qs[1..] == Burst(addr, now, n - 1) + more;
      var next := Apply(l, qs[0]);
      assert Left(next, addr) == Left(l, addr) - 1;
      BurstAllowed(next, addr, now, n - 1, more, lo, hi);
    }
  }

  /** A burst that starts when the window is over gets a whole budget. */
  lemma NewWindowAllows(l: Limiter, addr: Addr, lo: int, hi: int)
    requires l.count.Some? && l.start == 0 && lo <= MINUTE < hi
    ensures Allowed(l, Burst(addr, MINUTE, 5), addr, lo, hi) == 5
  {
    var burst, rest := Burst(addr, MINUTE, 5), Burst(addr, MINUTE, 4);
    assert burst[0] == Attempt(addr, MINUTE) && burst[1..] == rest;
    var next := Apply(l, burst[0]);
    assert Tries(next, addr) == 1;
    BurstAllowed(next, addr, MINUTE, 4, [], lo, hi);
    assert rest + [] == rest;
    assert Allowed(next, rest, addr, lo, hi) == 4;
  }

  /** Ten is reached: five attempts end one window and five begin the next. */
  lemma TenIsReached(addr: Addr)
    ensures exists qs ::
              Orderly(qs, addr, 0) && Allowed(NEW, qs, addr, 59_999_999_999, 119_999_999_999) == 10
  {
    var lo, hi := MINUTE - 1, 2 * MINUTE - 1;
    var second := Burst(addr, MINUTE, 5);
    var first := Burst(addr, lo, 5);
    var other := addr + "x";
    var opener := Attempt(other, 0);
    var qs := [opener] + (first + second);
    BurstIsOrderly(addr, addr, MINUTE, 5, [], lo);
    assert second + [] == second;
    BurstIsOrderly(addr, addr, lo, 5, second, 0);
    assert qs[1..] == first + second;
    assert Orderly(qs, addr, 0);
    var l0 := Apply(NEW, opener);
    assert Tries(l0, addr) == 0 by { assert |other| != |addr|; }
    BurstAllowed(l0, addr, lo, 5, second, lo, hi);
    var l1: Limiter :| l1.start == l0.start && l1.count.Some? && Left(l1, addr) == Left(l0, addr) - 5
                       && Allowed(l0, first + second, addr, lo, hi) == 5 + Allowed(l1, second, addr, lo, hi);
    NewWindowAllows(l1, addr, lo, hi);
  }

  // --------------------------------------------------------- the imperative form

  /** internal/api/auth.go: `loginLimiter`; the clock is passed in. */
  class LoginLimiter {
    var start: int
    var count: Option<map<Addr, nat>>
    /** The latest time the window was looked at. */
    ghost var clock: int

    constructor ()
      ensures Value() == NEW && clock == 0
    {
      start, count, clock := 0, None, 0;
    }

    ghost function Value(): Limiter
      reads this
    {
      Limiter(start, count)
    }

    /** Records an attempt; the wait until the window resets is positive and at most a minute. */
    method Allow(addr: Addr, now: int) returns (allowed: bool, wait: int)
      requires count.Some? ==> start <= clock <= now
      modifies this
      ensures (Value(), Verdict(allowed, wait)) == AllowSpec(old(Value()), addr, now)
      ensures 0 < wait <= 60_000_000_000
      ensures count.Some? && start <= clock == now
    {
      if count.None? || now - start >= MINUTE {
        start, count := now, Some(map[]);
      }
      var n := if addr in count.value then count.value[addr] else 0;
      count := Some(count.value[addr := n + 1]);
      clock := now;
      return count.value[addr] <= ATTEMPTS_PER_MINUTE, start + MINUTE - now;
    }

    method Clear(addr: Addr)
      modifies this`count
      ensures Value() == ClearSpec(old(Value()), addr)
      ensures Left(Value(), addr) == 5 && Tries(Value(), addr) == 0
      ensures forall a :: a != addr ==> Left(Value(), a) == old(Left(Value(), a))
    {
      if count.Some? {
        count := Some(count.value - {addr});
      }
    }
  }
}
