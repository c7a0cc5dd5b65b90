/** The sliding session deadline of internal/store/users.go. */
module Sessions {
  import opened Bytes

  type Token = string
  type UserId = int

  /** Times are in nanoseconds. */
  const HOUR := 3_600_000_000_000
  const IDLE_TTL := 24 * HOUR
  const MAX_TTL := 7 * 24 * HOUR
  /** A stored deadline this far off the wanted one is left alone. */
  const SLACK := IDLE_TTL / 2

  /** A day, a week and half a day, in nanoseconds. */
  lemma Durations()
    ensures IDLE_TTL == 86_400_000_000_000 && MAX_TTL == 604_800_000_000_000 && SLACK == 43_200_000_000_000
  {
  }

  datatype Session = Session(user: UserId, created: int, expires: int)

  /** The deadline a request at `t` asks for. */
  function Deadline(created: int, t: int): int {
    Min(t + IDLE_TTL, created + MAX_TTL)
  }

  /** A request at `t`: `None` drops the session, otherwise the row it leaves. */
  function Lookup(s: Session, t: int): Option<Session> {
    if s.expires < t || s.created + MAX_TTL < t then None
    else
      var want := Deadline(s.created, t);
      if s.expires < want - SLACK || s.expires > want + SLACK then Some(s.(expires := want)) else Some(s)
  }

  // ------------------------------------------------------------- whole lifetimes

  /** Requests at these times, the earliest first; a dropped session stays dropped. */
  function Use(s: Option<Session>, ts: seq<int>): Option<Session>
    decreases ts
  {
    if ts == [] || s.None? then s else Use(Lookup(s.value, ts[0]), ts[1..])
  }

  ghost predicate Ordered(last: int, ts: seq<int>)
    decreases ts
  {
    if ts == [] then true else last <= ts[0] && Ordered(ts[0], ts[1..])
  }

  /** Consecutive requests are at most `gap` apart. */
  ghost predicate Within(gap: int, last: int, ts: seq<int>)
    decreases ts
  {
    if ts == [] then true else ts[0] <= last + gap && Within(gap, ts[0], ts[1..])
  }

  function Last(last: int, ts: seq<int>): int {
    if ts == [] then last else ts[|ts| - 1]
  }

  /** After a request at `last` the deadline is at most half an idle window early, never late. */
  ghost predicate InWindow(s: Session, last: int) {
    && s.created <= last
    && Deadline(s.created, last) - SLACK <= s.expires <= Deadline(s.created, last)
  }

  lemma LookupKeepsWindow(s: Session, last: int, t: int)
    requires InWindow(s, last) && last <= t
    ensures Lookup(s, t).Some? ==> Lookup(s, t).value.created == s.created && InWindow(Lookup(s, t).value, t)
    ensures t > Deadline(s.created, last) ==> Lookup(s, t).None?
    ensures t <= Deadline(s.created, last) - SLACK ==> Lookup(s, t).Some?
  {
  }

  /** Over any run of requests on a new session, the deadline stays in the window. */
  lemma {:induction false} WindowOverRuns(s: Session, last: int, ts: seq<int>)
    requires InWindow(s, last) && Ordered(last, ts)
    ensures Use(Some(s), ts).Some? ==>
              && Use(Some(s), ts).value.created == s.created
              && InWindow(Use(Some(s), ts).value, Last(last, ts))
    decreases ts
  {
    if ts != [] {
      LookupKeepsWindow(s, last, ts[0]);
      var next := Lookup(s, ts[0]);
      if next.Some? {
        WindowOverRuns(next.value, ts[0], ts[1..]);
        assert Last(last, ts) == Last(ts[0], ts[1..]);
      } else {
        assert Use(next, ts[1..]).None?;
      }
    }
  }

  /** The next request is accepted up to half a window before the deadline, and never after it. */
  lemma NextRequest(s: Session, ts: seq<int>, t: int)
    requires s.expires == s.created + IDLE_TTL && Ordered(s.created, ts)
    requires Last(s.created, ts) <= t
    ensures
      var w := Deadline(s.created, Last(s.created, ts));
      var now := Use(Some(s), ts);
      now.Some? ==>
        && (t > w ==> Lookup(now.value, t).None?)
        && (t <= w - SLACK ==> Lookup(now.value, t).Some?)
  {
    WindowOverRuns(s, s.created, ts);
    var now := Use(Some(s), ts);
    if now.Some? { LookupKeepsWindow(now.value, Last(s.created, ts), t); }
  }

  /** Requests at most twelve hours apart keep a session alive to within twelve hours of a week. */
  lemma {:induction false} ActiveSessionLives(s: Session, last: int, ts: seq<int>)
    requires InWindow(s, last) && Ordered(last, ts) && Within(SLACK, last, ts)
    requires Last(last, ts) <= s.created + MAX_TTL - SLACK
    ensures Use(Some(s), ts).Some?
    decreases ts
  {
    if ts != [] {
      OrderedUpToLast(last, ts);
      LookupKeepsWindow(s, last, ts[0]);
      assert Last(last, ts) == Last(ts[0], ts[1..]);
      ActiveSessionLives(Lookup(s, ts[0]).value, ts[0], ts[1..]);
    }
  }

  lemma {:induction false} OrderedUpToLast(last: int, ts: seq<int>)
    requires Ordered(last, ts)
    ensures last <= Last(last, ts) && (ts != [] ==> ts[0] <= Last(last, ts))
    decreases ts
  {
    if ts != [] { OrderedUpToLast(ts[0], ts[1..]); }
  }

  /** No session outlives a week, or an idle day, however it is used. */
  lemma DeadSessionStaysDead(s: Session, ts: seq<int>, t: int, more: seq<int>)
    requires s.expires == s.created + IDLE_TTL && Ordered(s.created, ts)
    requires t > s.created + MAX_TTL || t > Last(s.created, ts) + IDLE_TTL
    requires Last(s.created, ts) <= t
    ensures Use(Use(Some(s), ts), [t] + more).None?
  {
    NextRequest(s, ts, t);
    assert ([t] + more)[1..] == more;
  }

  // ------------------------------------------- what the slack costs an idle session

  /**
   The idle window is documented as how long a session survives without a request. Any
   row, one issued with a longer life included, survives that long exactly when this
   request found the stored deadline late enough already, or early enough to be rewritten.
   */
  lemma FullIdleWindow(s: Session, t: int)
    requires Lookup(s, t).Some?
    ensures
      var w := Deadline(s.created, t);
      (forall u :: t <= u <= w ==> Lookup(Lookup(s, t).value, u).Some?)
      <==> s.expires >= w || s.expires < w - SLACK
  {
    var w, next := Deadline(s.created, t), Lookup(s, t).value;
    assert t <= w;
    if w - SLACK <= s.expires < w {
      assert Lookup(next, w).None?;
    }
  }

  /**
   A row that was issued with another life is corrected by its first request, in both
   directions: after any requests its deadline is within half a window of the wanted one.
   */
  lemma {:induction false} CorrectedOverRuns(s: Session, ts: seq<int>)
    requires ts != [] && Use(Some(s), ts).Some?
    ensures
      var w, now := Deadline(s.created, ts[|ts| - 1]), Use(Some(s), ts).value;
      now.created == s.created && w - SLACK <= now.expires <= w + SLACK
    decreases ts
  {
    var next := Lookup(s, ts[0]);
    if |ts| == 1 {
      assert Use(next, ts[1..]) == next;
    } else {
      assert next.Some?;
      CorrectedOverRuns(next.value, ts[1..]);
    }
  }

  /** So any row in use dies at most half a window late, and never lives past its week. */
  lemma AnyRowExpires(s: Session, ts: seq<int>, t: int)
    requires ts != []
    requires t > Deadline(s.created, ts[|ts| - 1]) + SLACK || t > s.created + MAX_TTL
    ensures Use(Some(s), ts).Some? ==> Lookup(Use(Some(s), ts).value, t).None?
  {
    if Use(Some(s), ts).Some? { CorrectedOverRuns(s, ts); }
  }

  const EARLY_END := 13 * SLACK + 2

  /** Some requests at most twelve hours apart lead from `s` to a rejection at `EARLY_END`. */
  ghost predicate Dies(s: Session, last: int) {
    exists ts :: Ordered(last, ts) && Within(SLACK, last, ts) && Last(last, ts) == EARLY_END && Use(Some(s), ts).None?
  }

  lemma DiesAfter(s: Session, last: int, t: int)
    requires last <= t <= last + SLACK && Lookup(s, t).Some? && Dies(Lookup(s, t).value, t)
    ensures Dies(s, last)
  {
    var next := Lookup(s, t).value;
    var ts :| Ordered(t, ts) && Within(SLACK, t, ts) && Last(t, ts) == EARLY_END && Use(Some(next), ts).None?;
    var all := [t] + ts;
    assert all[1..] == ts;
    assert Last(last, all) == Last(t, ts);
    assert Ordered(last, all) && Within(SLACK, last, all) && Use(Some(s), all).None?;
  }

  /** A day of two requests moves the deadline a day on. */
  lemma DiesAfterADay(day: int)
    requires 0 <= day <= 4 * IDLE_TTL
    requires Dies(Session(1, 0, day + 2 * IDLE_TTL), day + IDLE_TTL)
    ensures Dies(Session(1, 0, day + IDLE_TTL), day)
  {
    var s := Session(1, 0, day + IDLE_TTL);
    DiesAfter(s, day + SLACK, day + IDLE_TTL);
    DiesAfter(s, day, day + SLACK);
  }

  /** The last half day of an active session, up to the request that is refused. */
  lemma DiesInTheLastHours()
    ensures Dies(Session(1, 0, 13 * SLACK + 1), 12 * SLACK + 1)
  {
    var late := Session(1, 0, 13 * SLACK + 1);
    var end := [EARLY_END];
    assert end[1..] == [] && Ordered(13 * SLACK + 1, end) && Within(SLACK, 13 * SLACK + 1, end);
    assert Last(13 * SLACK + 1, end) == EARLY_END && Use(Some(late), end).None?;
    DiesAfter(late, 12 * SLACK + 1, 13 * SLACK + 1);
  }

  /** The last day and a half. */
  lemma DiesInTheLastDays()
    ensures Dies(Session(1, 0, 12 * SLACK), 10 * SLACK)
  {
    var s, late := Session(1, 0, 12 * SLACK), Session(1, 0, 13 * SLACK + 1);
    DiesInTheLastHours();
    DiesAfter(late, 11 * SLACK + 1, 12 * SLACK + 1);
    DiesAfter(s, 11 * SLACK, 11 * SLACK + 1);
    DiesAfter(s, 10 * SLACK, 11 * SLACK);
  }

  /** In use at least every twelve hours, and still dropped well before the week is over. */
  lemma ActiveSessionDroppedEarly()
    ensures EARLY_END < MAX_TTL && Dies(Session(1, 0, IDLE_TTL), 0)
  {
    DiesInTheLastDays();
    DiesAfterADay(4 * IDLE_TTL);
    DiesAfterADay(3 * IDLE_TTL);
    DiesAfterADay(2 * IDLE_TTL);
    DiesAfterADay(IDLE_TTL);
    DiesAfterADay(0);
  }

  // --------------------------------------------------------- the imperative form

  /** The sessions table; a row is keyed by its token, and the clock is passed in. */
  class SessionStore {
    var users: set<UserId>
    var sessions: map<Token, Session>

    constructor (users: set<UserId>)
      ensures this.users == users && sessions == map[]
    {
      this.users := users;
      sessions := map[];
    }

    /** A new session is in its window, with the whole idle time ahead of it. */
    method CreateSession(user: UserId, token: Token, now: int) returns (expires: int)
      modifies this`sessions
      ensures sessions == old(sessions)[token := Session(user, now, expires)]
      ensures expires == now + 86_400_000_000_000 && InWindow(sessions[token], now)
    {
      expires := now + IDLE_TTL;
      sessions := sessions[token := Session(user, now, expires)];
    }

    method UserBySession(token: Token, now: int) returns (user: Option<UserId>)
      modifies this`sessions
      ensures token == "" || token !in old(sessions) || old(sessions)[token].user !in users ==>
                user == None && sessions == old(sessions)
      ensures token != "" && token in old(sessions) && old(sessions)[token].user in users ==>
                var s := old(sessions)[token];
                match Lookup(s, now)
                case None => user == None && sessions == old(sessions) - {token}
                case Some(next) => user == Some(s.user) && sessions == old(sessions)[token := next]
    {
      if token == "" || token !in sessions || sessions[token].user !in users {
        return None;
      }
      var s := sessions[token];
      var idleEnds := s.expires;
      var hardEnds := s.created + MAX_TTL;
      if idleEnds < now || hardEnds < now {
        DeleteSession(token);
        return None;
      }
      var want := now + IDLE_TTL;
      if want > hardEnds {
        want := hardEnds;
      }
      if idleEnds < want - SLACK || idleEnds > want + SLACK {
        sessions := sessions[token := s.(expires := want)];
      }
      user := Some(s.user);
    }

    method DeleteSession(token: Token)
      modifies this`sessions
      ensures sessions == old(sessions) - {token}
    {
      sessions := sessions - {token};
    }
  }
}
