/** The client-side session of the dashboard (src/utils/sessionManager.js):
    a key-value store holding the signed-in user and the time the session
    started, one pending expiry timer, and an inactivity watchdog that offers
    to extend the session shortly before it runs out.

    The browser is replaced by explicit values: the clock is the argument
    `now` (milliseconds since the epoch), `localStorage` is a map from keys
    to strings, a timer is the deadline at which it will fire together with
    the callback it will run, and the answer to `confirm` is a boolean. */
module Session {
  import opened Results
  import opened Text

  /** SESSION_TIMEOUT: a session lasts 30 minutes. */
  const SessionTimeout: nat := 30 * 60 * 1000

  /** The inactivity watchdog fires after 25 minutes without interaction. */
  const IdlePeriod: nat := 25 * 60 * 1000

  const MinuteMs: nat := 60 * 1000

  /** The warning is offered when at most this many minutes remain. */
  const WarningMinutes: nat := 5

  const UserKey := "user"
  const LoginTimeKey := "loginTime"
  const LastLoginKey := "lastLoginAt"

  const ExpiredAlert := "Your session has expired. Please log in again."

  /** The browser's `localStorage`. */
  type Store = map<string, string>

  /** The caller-supplied function a timer runs (in the dashboard, a
      redirect to the login page), identified by a number. */
  type Callback = nat

  /** A pending `setTimeout`: when it fires and what it runs. */
  datatype Timer = Timer(deadline: int, onTimeout: Callback)

  /** The session manager: the store and the one timer handle it owns. */
  datatype Manager = Manager(store: Store, timer: Option<Timer>)

  /** What the session code does to the outside world, in order. */
  datatype Effect = Alerted(message: string) | Called(callback: Callback)

  /** The user as handed to `setUser`: its JSON text, and its `lastLoginAt`
      field ("" when missing or otherwise falsy). */
  datatype User = User(json: string, lastLoginAt: string)

  /** `localStorage.getItem(key)` is truthy: stored and not "". */
  predicate Has(store: Store, key: string) {
    key in store && store[key] != ""
  }

  /** The stored `loginTime`, when there is one, is a decimal number, as
      every value the session code writes there is. */
  predicate WellFormed(store: Store) {
    LoginTimeKey in store ==> AllDigits(store[LoginTimeKey])
  }

  /** `parseInt(localStorage.getItem('loginTime'))`. */
  function LoginTime(store: Store): nat
    requires WellFormed(store) && Has(store, LoginTimeKey)
  {
    ParseDecimal(store[LoginTimeKey])
  }

  /** `isSessionValid`: a user and a start time are stored and fewer than
      SESSION_TIMEOUT milliseconds have passed since that start. A session
      that is valid at some moment was valid at every earlier one, so
      validity can only end as time passes. */
  predicate IsSessionValid(store: Store, now: nat)
    requires WellFormed(store)
    ensures IsSessionValid(store, now) ==> Has(store, UserKey) && Has(store, LoginTimeKey)
    ensures IsSessionValid(store, now) ==> forall earlier: nat :: earlier <= now ==> IsSessionValid(store, earlier)
  {
    && Has(store, UserKey)
    && Has(store, LoginTimeKey)
    && now - LoginTime(store) < SessionTimeout
  }

  /** `getRemainingTime`: milliseconds left before the session runs out,
      never negative, and 0 when no start time is stored. */
  function GetRemainingTime(store: Store, now: nat): (r: nat)
    requires WellFormed(store)
    ensures !Has(store, LoginTimeKey) ==> r == 0
    ensures r > 0 <==> Has(store, LoginTimeKey) && now - LoginTime(store) < SessionTimeout
    ensures r > 0 ==> r == LoginTime(store) + SessionTimeout - now
    ensures Has(store, LoginTimeKey) && LoginTime(store) <= now ==> r <= SessionTimeout
  {
    if !Has(store, LoginTimeKey) then 0
    else
      var remaining := SessionTimeout - (now - LoginTime(store));
      if remaining < 0 then 0 else remaining
  }

  /** With a user stored, the session is valid exactly while some time
      remains. */
  lemma ValidIffTimeRemains(store: Store, now: nat)
    requires WellFormed(store)
    ensures IsSessionValid(store, now) <==> Has(store, UserKey) && GetRemainingTime(store, now) > 0
  {
  }

  /** `clearSession`: forget the user, the start time and the last-login
      stamp, and cancel the pending timer. Every other key is kept. */
  function ClearSession(m: Manager): (r: Manager)
    ensures r.timer == None
    ensures WellFormed(r.store)
    ensures forall now: nat :: !IsSessionValid(r.store, now)
    ensures UserKey !in r.store && LoginTimeKey !in r.store && LastLoginKey !in r.store
    ensures forall k :: k != UserKey && k != LoginTimeKey && k != LastLoginKey ==>
      (k in r.store <==> k in m.store) && (k in r.store ==> r.store[k] == m.store[k])
  {
    Manager(m.store - {UserKey, LastLoginKey, LoginTimeKey}, None)
  }

  /** `setUser`: store the user and start the session at `now`. The stored
      last-login stamp is replaced only when the user carries one. The
      pending timer is not touched. */
  function SetUser(m: Manager, now: nat, user: User): (r: Manager)
    ensures WellFormed(r.store)
    ensures UserKey in r.store && r.store[UserKey] == user.json
    ensures Has(r.store, LoginTimeKey) && LoginTime(r.store) == now
    ensures user.lastLoginAt != "" ==> LastLoginKey in r.store && r.store[LastLoginKey] == user.lastLoginAt
    ensures user.lastLoginAt == "" ==>
      (LastLoginKey in r.store <==> LastLoginKey in m.store)
      && (LastLoginKey in m.store ==> r.store[LastLoginKey] == m.store[LastLoginKey])
    ensures forall k :: k != UserKey && k != LoginTimeKey && k != LastLoginKey ==>
      (k in r.store <==> k in m.store) && (k in r.store ==> r.store[k] == m.store[k])
    ensures r.timer == m.timer
  {
    ParseNatToString(now);
    var stamped := m.store[UserKey := user.json][LoginTimeKey := NatToString(now)];
    var store := if user.lastLoginAt != "" then stamped[LastLoginKey := user.lastLoginAt] else stamped;
    Manager(store, m.timer)
  }

  /** A session started at `t0` is valid `d` milliseconds later exactly when
      `d` is under SESSION_TIMEOUT (the user's JSON text is never empty). */
  lemma SetUserValidWindow(m: Manager, user: User, t0: nat, d: int)
    requires user.json != "" && t0 + d >= 0
    ensures IsSessionValid(SetUser(m, t0, user).store, t0 + d) <==> d < SessionTimeout
  {
  }

  /** `extendSession`: a valid session restarts at `now` and the answer is
      true; otherwise nothing changes and the answer is false. */
  function ExtendSession(store: Store, now: nat): (r: (Store, bool))
    requires WellFormed(store)
    ensures WellFormed(r.0)
    ensures r.1 <==> IsSessionValid(store, now)
    ensures r.1 ==> (IsSessionValid(r.0, now) && LoginTime(r.0) == now
      && r.0 == store[LoginTimeKey := NatToString(now)])
    ensures !r.1 ==> r.0 == store
  {
    if Has(store, UserKey) && IsSessionValid(store, now) then
      ParseNatToString(now);
      (store[LoginTimeKey := NatToString(now)], true)
    else
      (store, false)
  }

  /** An extended session gets a full new window: valid for every moment
      less than SESSION_TIMEOUT after the extension. */
  lemma ExtendGivesFullWindow(store: Store, now: nat, d: int)
    requires WellFormed(store) && IsSessionValid(store, now) && now + d >= 0
    ensures IsSessionValid(ExtendSession(store, now).0, now + d) <==> d < SessionTimeout
  {
  }

  /** `getUser`: the parsed stored user while the session is valid; nothing
      when it is not, or when the stored text does not parse. */
  function GetUser<U>(store: Store, now: nat, parse: string -> Option<U>): (r: Option<U>)
    requires WellFormed(store)
    ensures !IsSessionValid(store, now) ==> r == None
    ensures IsSessionValid(store, now) ==> r == parse(store[UserKey])
  {
    if !IsSessionValid(store, now) then None else parse(store[UserKey])
  }

  /** Reading the user back right after signing in yields whatever the
      stored text parses to; after clearing there is no user at all. */
  lemma GetUserRoundTrip<U>(m: Manager, user: User, now: nat, later: nat, parse: string -> Option<U>)
    requires user.json != "" && now <= later < now + SessionTimeout
    ensures GetUser(SetUser(m, now, user).store, later, parse) == parse(user.json)
    ensures GetUser(ClearSession(m).store, later, parse) == None
  {
    SetUserValidWindow(m, user, now, later - now);
  }

  /** A stored user that does not parse does not end the session: while a
      start time within the window is stored the session still counts as
      valid, and reading the user yields nothing without touching the
      store. */
  lemma CorruptUserKeepsSessionValid<U>(store: Store, now: nat, parse: string -> Option<U>)
    requires WellFormed(store) && IsSessionValid(store, now)
    requires parse(store[UserKey]).None?
    ensures GetUser(store, now, parse).None?
    ensures IsSessionValid(store, now)
  {
  }

  /** `setupTimeout`: cancel the pending timer; if no time remains, run the
      callback at once and schedule nothing (the store is left as it is);
      otherwise schedule the callback for the moment the session expires. */
  function SetupTimeout(m: Manager, now: nat, onTimeout: Callback): (r: (Manager, seq<Effect>))
    requires WellFormed(m.store)
    ensures r.0.store == m.store
    ensures GetRemainingTime(m.store, now) == 0 ==> r.0.timer == None && r.1 == [Called(onTimeout)]
    ensures GetRemainingTime(m.store, now) > 0 ==>
      && r.1 == []
      && r.0.timer == Some(Timer(LoginTime(m.store) + SessionTimeout, onTimeout))
      && now < r.0.timer.value.deadline
  {
    var remaining := GetRemainingTime(m.store, now);
    if remaining <= 0 then
      (Manager(m.store, None), [Called(onTimeout)])
    else
      (Manager(m.store, Some(Timer(now + remaining, onTimeout))), [])
  }

  /** Arming twice leaves at most one timer, and it is the second one: the
      first callback can no longer fire. */
  lemma RearmReplacesTimer(m: Manager, t1: nat, t2: nat, first: Callback, second: Callback)
    requires WellFormed(m.store)
    ensures var m1 := SetupTimeout(m, t1, first).0;
      var m2 := SetupTimeout(m1, t2, second).0;
      m2.timer == None || m2.timer.value.onTimeout == second
  {
  }

  /** `handleTimeout`: tell the user, clear the session, then run the
      callback (which therefore sees the cleared session). */
  function HandleTimeout(m: Manager, onTimeout: Callback): (r: (Manager, seq<Effect>))
    ensures r.0 == ClearSession(m)
    ensures r.1 == [Alerted(ExpiredAlert), Called(onTimeout)]
  {
    (ClearSession(m), [Alerted(ExpiredAlert), Called(onTimeout)])
  }

  /** The event loop at time `now`: a pending timer whose deadline has come
      fires and runs `handleTimeout`; otherwise nothing happens. */
  function FireDueTimer(m: Manager, now: int): (r: (Manager, seq<Effect>))
    ensures m.timer.Some? && m.timer.value.deadline <= now ==>
      && r.0 == ClearSession(m)
      && r.0.timer == None
      && WellFormed(r.0.store)
      && (forall t: nat :: !IsSessionValid(r.0.store, t))
      && r.1 == [Alerted(ExpiredAlert), Called(m.timer.value.onTimeout)]
    ensures !(m.timer.Some? && m.timer.value.deadline <= now) ==> r == (m, [])
  {
    match m.timer
    case Some(t) => if t.deadline <= now then HandleTimeout(m, t.onTimeout) else (m, [])
    case None => (m, [])
  }

  /** A timer armed while the session is valid fires exactly when the
      session stops being valid: the session is valid at every moment
      before the deadline and at none from it on. */
  lemma TimerDeadlineIsExpiry(m: Manager, now: nat, cb: Callback, t: nat)
    requires WellFormed(m.store) && IsSessionValid(m.store, now)
    ensures var armed := SetupTimeout(m, now, cb).0;
      armed.timer.Some? && (IsSessionValid(m.store, t) <==> t < armed.timer.value.deadline)
  {
  }

  /** The inactivity warning: with the session valid and at most five whole
      minutes (rounded up) left, the number of minutes to announce. */
  function Warning(store: Store, now: nat): (r: Option<nat>)
    requires WellFormed(store)
    ensures r.Some? <==> IsSessionValid(store, now) && GetRemainingTime(store, now) <= WarningMinutes * MinuteMs
    ensures r.Some? ==> 1 <= r.value <= WarningMinutes
    ensures r.Some? ==> (r.value - 1) * MinuteMs < GetRemainingTime(store, now) <= r.value * MinuteMs
  {
    if IsSessionValid(store, now) then
      var remaining := GetRemainingTime(store, now);
      var minutes := CeilDiv(remaining, MinuteMs);
      CeilDivBound(remaining, MinuteMs, WarningMinutes);
      CeilDivBrackets(remaining, MinuteMs);
      if minutes <= WarningMinutes then Some(minutes) else None
    else None
  }

  /** `Math.ceil(a / b)` for a non-negative `a` and positive `b`. */
  function CeilDiv(a: nat, b: nat): nat
    requires b > 0
  {
    (a + b - 1) / b
  }

  /** Rounding up stays within `n` exactly when `a` does not exceed `n * b`,
      and it is at least one for any positive `a`. */
  lemma CeilDivBound(a: nat, b: nat, n: nat)
    requires b > 0
    ensures CeilDiv(a, b) <= n <==> a <= n * b
    ensures a > 0 ==> CeilDiv(a, b) >= 1
  {
    var q := CeilDiv(a, b);
    assert (a + b - 1) == q * b + (a + b - 1) % b;
    if q <= n {
      assert q * b <= n * b by { MulMonotone(q, n, b); }
    } else {
      assert (n + 1) * b <= q * b by { MulMonotone(n + 1, q, b); }
    }
  }

  /** For a positive `a`, the rounded-up quotient `q` is the one whole
      number with `(q - 1) * b < a <= q * b`. */
  lemma CeilDivBrackets(a: nat, b: nat)
    requires a > 0 && b > 0
    ensures (CeilDiv(a, b) - 1) * b < a <= CeilDiv(a, b) * b
  {
    var q := CeilDiv(a, b);
    var rest := (a + b - 1) % b;
    assert a + b - 1 == q * b + rest;
    assert (q - 1) * b == q * b - b;
  }

  lemma MulMonotone(x: nat, y: nat, b: nat)
    requires x <= y
    ensures x * b <= y * b
  {
  }

  /** The activity monitor: whether its listeners are attached, and the
      deadline of the inactivity watchdog if one is pending. */
  datatype Monitor = Monitor(listening: bool, watchdog: Option<int>)

  /** `setupActivityMonitoring`: attach the listeners and start the watchdog
      (replacing any earlier one). */
  function StartMonitoring(now: int): (r: Monitor)
    ensures r.listening && r.watchdog == Some(now + IdlePeriod)
  {
    Monitor(true, Some(now + IdlePeriod))
  }

  /** Signing in and starting the monitor together: if the user then does
      nothing, the watchdog fires with exactly five minutes of the session
      left, and the warning it shows announces five minutes. */
  lemma IdleAfterLoginWarnsAtFiveMinutes(m: Manager, user: User, t0: nat)
    requires user.json != ""
    ensures var fires := StartMonitoring(t0).watchdog.value;
      var store := SetUser(m, t0, user).store;
      && fires == t0 + IdlePeriod
      && GetRemainingTime(store, fires) == WarningMinutes * MinuteMs
      && Warning(store, fires) == Some(WarningMinutes)
  {
    var store := SetUser(m, t0, user).store;
    SetUserValidWindow(m, user, t0, IdlePeriod);
    var w := Warning(store, t0 + IdlePeriod);
    assert w.Some?;
    if w.value < WarningMinutes {
      MulMonotone(w.value, WarningMinutes - 1, MinuteMs);
    }
  }

  /** An interaction event: while listening, restart the watchdog's
      countdown; once stopped, events are no longer heard. */
  function Activity(mon: Monitor, now: int): (r: Monitor)
    ensures mon.listening ==> r == Monitor(true, Some(now + IdlePeriod))
    ensures !mon.listening ==> r == mon
  {
    if mon.listening then Monitor(true, Some(now + IdlePeriod)) else mon
  }

  /** The clean-up function: detach the listeners and cancel the watchdog. */
  function StopMonitoring(mon: Monitor): (r: Monitor)
    ensures !r.listening && r.watchdog == None
  {
    Monitor(false, None)
  }

  /** After the monitor is stopped, no sequence of interaction events brings
      a watchdog back, so no warning can ever be shown. */
  lemma {:induction false} StoppedMonitorStaysSilent(mon: Monitor, events: seq<int>)
    ensures Replay(StopMonitoring(mon), events) == Monitor(false, None)
    decreases |events|
  {
    if |events| > 0 {
      StoppedMonitorStaysSilent(mon, events[1..]);
    }
  }

  /** The monitor after a series of interaction events at the given times. */
  function Replay(mon: Monitor, events: seq<int>): Monitor
    decreases |events|
  {
    if |events| == 0 then mon else Replay(Activity(mon, events[0]), events[1..])
  }

  /** Interaction keeps postponing the warning past the end of the session:
      once an event comes more than five minutes after the session began,
      the watchdog it sets cannot fire before the session has expired, and
      from then on no warning is due. Activity itself never extends the
      session. */
  lemma LateActivityPreventsWarning(mon: Monitor, store: Store, e: nat, t: nat)
    requires WellFormed(store) && Has(store, LoginTimeKey) && mon.listening
    requires e >= LoginTime(store) + (SessionTimeout - IdlePeriod)
    requires Activity(mon, e).watchdog.Some? && t >= Activity(mon, e).watchdog.value
    ensures !IsSessionValid(store, t)
    ensures Warning(store, t).None?
  {
  }

  /** What happens when the watchdog fires: the state afterwards, the
      number of minutes the prompt announced (if one was shown) and the
      effects of re-arming the expiry timer. */
  datatype WatchdogStep = WatchdogStep(monitor: Monitor, manager: Manager, prompt: Option<nat>, effects: seq<Effect>)

  /** The watchdog's callback, firing at `now`. If the session is valid and
      the warning is due, the user is asked, and `confirm` blocks until the
      answer at time `answered`; nothing else runs meanwhile, so the expiry
      timer cannot fire before it. On consent the code extends the session
      and re-arms the expiry timer, both reading the clock afresh: answered
      in time, the session restarts at `answered` with a timer for its new
      end; answered after expiry, the extension is refused and re-arming
      finds no time left, so the callback runs at once, without the alert
      and without clearing the store. The watchdog is spent either way. */
  function WatchdogFires(mon: Monitor, m: Manager, now: nat, consent: bool, answered: nat, onTimeout: Callback): (r: WatchdogStep)
    requires WellFormed(m.store)
    requires mon.watchdog.Some? && mon.watchdog.value <= now <= answered
    ensures r.monitor == Monitor(mon.listening, None)
    ensures WellFormed(r.manager.store)
    ensures r.prompt == Warning(m.store, now)
    ensures r.prompt.Some? ==> IsSessionValid(m.store, now) && 1 <= r.prompt.value <= WarningMinutes
    ensures r.prompt.Some? && consent && IsSessionValid(m.store, answered) ==>
      && r.manager.store == m.store[LoginTimeKey := NatToString(answered)]
      && IsSessionValid(r.manager.store, answered)
      && LoginTime(r.manager.store) == answered
      && r.manager.timer == Some(Timer(answered + SessionTimeout, onTimeout))
      && r.effects == []
    ensures r.prompt.Some? && consent && !IsSessionValid(m.store, answered) ==>
      && r.manager == Manager(m.store, None)
      && r.effects == [Called(onTimeout)]
    ensures !(r.prompt.Some? && consent) ==> r.manager == m && r.effects == []
  {
    var spent := Monitor(mon.listening, None);
    var warning := Warning(m.store, now);
    if warning.Some? && consent then
      var extended := ExtendSession(m.store, answered).0;
      var (armed, effects) := SetupTimeout(Manager(extended, m.timer), answered, onTimeout);
      WatchdogStep(spent, armed, warning, effects)
    else
      WatchdogStep(spent, m, warning, [])
  }

  /** Saying yes in time buys a full new window: the session is valid for
      exactly the next 30 minutes after the answer, and the re-armed timer
      fires exactly when it stops being valid. */
  lemma TimelyConsentGivesFullWindow(mon: Monitor, m: Manager, now: nat, answered: nat, onTimeout: Callback, d: int)
    requires WellFormed(m.store)
    requires mon.watchdog.Some? && mon.watchdog.value <= now <= answered
    requires Warning(m.store, now).Some? && IsSessionValid(m.store, answered) && answered + d >= 0
    ensures var r := WatchdogFires(mon, m, now, true, answered, onTimeout);
      && (IsSessionValid(r.manager.store, answered + d) <==> d < SessionTimeout)
      && r.manager.timer.Some?
      && (IsSessionValid(r.manager.store, answered + d) <==> answered + d < r.manager.timer.value.deadline)
  {
    ExtendGivesFullWindow(m.store, answered, d);
  }

  /** Saying yes too late signs the user out without a word: the prompt
      was shown, but once the answer comes after the end of the window the
      callback runs at once, no alert precedes it, no timer is left, and
      the stored user is still there, in a session that no longer counts
      as valid. */
  lemma LateConsentSkipsAlert(mon: Monitor, m: Manager, now: nat, onTimeout: Callback)
    requires WellFormed(m.store)
    requires mon.watchdog.Some? && mon.watchdog.value <= now
    requires Warning(m.store, now).Some?
    ensures var late := LoginTime(m.store) + SessionTimeout;
      var r := WatchdogFires(mon, m, now, true, late, onTimeout);
      && now < late
      && r.effects == [Called(onTimeout)]
      && Alerted(ExpiredAlert) !in r.effects
      && r.manager.timer.None?
      && r.manager.store[UserKey] == m.store[UserKey]
      && !IsSessionValid(r.manager.store, late)
  {
  }

  /** A session started at 0 and extended at 1,700,000 ms is still valid at
      3,400,000 ms, which lies past the end of its original window. */
  lemma ExtendScenario(m: Manager, user: User)
    requires user.json != ""
    ensures var started := SetUser(m, 0, user).store;
      && !IsSessionValid(started, 3400000)
      && IsSessionValid(ExtendSession(started, 1700000).0, 3400000)
  {
    SetUserValidWindow(m, user, 0, 3400000);
    SetUserValidWindow(m, user, 0, 1700000);
    var started := SetUser(m, 0, user).store;
    ExtendGivesFullWindow(started, 1700000, 1700000);
  }

  /** Clearing ends the session; signing in again starts a new one. */
  lemma ClearThenSetUser(m: Manager, user: User, now: nat)
    requires user.json != ""
    ensures !IsSessionValid(ClearSession(m).store, now)
    ensures IsSessionValid(SetUser(ClearSession(m), now, user).store, now)
  {
    SetUserValidWindow(ClearSession(m), user, now, 0);
  }
}
