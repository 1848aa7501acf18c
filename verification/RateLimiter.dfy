/** The login rate limiter: one record per client key, updated in place.
    Times are nanoseconds since Go's zero time, so 0 is `time.Time{}`. */
module RateLimiter {
  import opened Int64
  import opened Wrappers
  import Lockout

  datatype Config = Config(maxAttempts: int, window: int, base: int) {
    predicate Enabled() { maxAttempts > 0 }

    function MaxLockout(): int { Wrap(base * 16) }

    function Retention(): int { if window > MaxLockout() then window else MaxLockout() }

    /** The settings under which the documentation's promises are stated. */
    ghost predicate Sane() {
      && Enabled() && window > 0
      && Lockout.Representable(base) && Lockout.Saturates(base)
    }

    /** The shortest time after which a client gets a fresh allowance. */
    function Gap(): int { if window < base then window else base }
  }

  /** The value of one client's record. */
  datatype Entry = Entry(failures: int, windowStart: int, lockedUntil: int, level: nat, lastSeen: int)

  const BLANK := Entry(0, 0, 0, 0, 0)

  predicate Locked(o: Option<Entry>, now: int) {
    o.Some? && now < o.value.lockedUntil
  }

  /** The counting window is unset or has run out. */
  predicate Restarts(c: Config, e: Entry, now: int) {
    e.windowStart == 0 || now - e.windowStart > c.window
  }

  /** One failed attempt against a client's record. */
  function Record(c: Config, e: Entry, now: int): (e': Entry) {
    if now < e.lockedUntil then
      e.(lastSeen := now)
    else
      var restart := Restarts(c, e, now);
      var n := if restart then 1 else e.failures + 1;
      if n >= c.maxAttempts then
        Entry(0, 0, now + Lockout.Duration(c.base, e.level + 1), e.level + 1, now)
      else
        Entry(n, if restart then now else e.windowStart, e.lockedUntil, e.level, now)
  }

  predicate Removable(c: Config, e: Entry, now: int) {
    now > e.lockedUntil && now - e.lastSeen > c.Retention()
  }

  /** A record is dropped once it is unlocked and has not been seen for longer than the window and the longest
      lockout. */
  lemma RemovableIffIdle(c: Config, e: Entry, now: int)
    requires Lockout.Representable(c.base)
    ensures Removable(c, e, now) <==>
            now > e.lockedUntil && now - e.lastSeen > c.window && now - e.lastSeen > 16 * c.base
  {
  }

  class RlEntry {
    var failures: int
    var windowStart: int
    var lockedUntil: int
    var level: nat
    var lastSeen: int

    constructor ()
      ensures Value() == BLANK
    {
      failures, windowStart, lockedUntil, level, lastSeen := 0, 0, 0, 0, 0;
    }

    function Value(): Entry
      reads this
    {
      Entry(failures, windowStart, lockedUntil, level, lastSeen)
    }

    /** The part of RecordFailure that updates the client's record in place. */
    method Fail(cfg: Config, maxLockout: int, now: int)
      requires maxLockout == cfg.MaxLockout()
      modifies this
      ensures Value() == Record(cfg, old(Value()), now) && lastSeen == now
      ensures now < old(lockedUntil) ==>
                && failures == old(failures) && windowStart == old(windowStart)
                && lockedUntil == old(lockedUntil) && level == old(level)
      ensures now >= old(lockedUntil) ==>
                var restart := old(windowStart) == 0 || now - old(windowStart) > cfg.window;
                var n := if restart then 1 else old(failures) + 1;
                if n >= cfg.maxAttempts
                then failures == 0 && windowStart == 0 && level == old(level) + 1
                     && lockedUntil == now + Lockout.Duration(cfg.base, level)
                else failures == n && windowStart == (if restart then now else old(windowStart))
                     && lockedUntil == old(lockedUntil) && level == old(level)
    {
      lastSeen := now;
      if now < lockedUntil {
        return;
      }
      if windowStart == 0 || now - windowStart > cfg.window {
        windowStart := now;
        failures := 0;
      }
      failures := failures + 1;
      if failures >= cfg.maxAttempts {
        level := level + 1;
        var d := Shl(cfg.base, level - 1);
        if d > maxLockout || d <= 0 {
          d := maxLockout;
        }
        lockedUntil := now + d;
        failures := 0;
        windowStart := 0;
      }
    }
  }

  class RateLimiter {
    var entries: map<string, RlEntry>
    const cfg: Config
    const maxLockout: int

    /** Every key has a record of its own. */
    ghost predicate Valid()
      reads this
    {
      && maxLockout == cfg.MaxLockout()
      && forall j, k :: j in entries && k in entries && j != k ==> entries[j] != entries[k]
    }

    ghost function View(): (v: map<string, Entry>)
      reads this, entries.Values
    {
      map k | k in entries :: entries[k].Value()
    }

    constructor (maxAttempts: int, window: int, baseLockout: int)
      ensures Valid() && cfg == Config(maxAttempts, window, baseLockout) && maxLockout == Wrap(baseLockout * 16)
      ensures View() == map[] && entries == map[]
    {
      entries := map[];
      cfg := Config(maxAttempts, window, baseLockout);
      maxLockout := Wrap(baseLockout * 16);
    }

    method Allowed(key: string, now: int) returns (ok: bool, retryAfter: int)
      requires Valid()
      ensures ok == !(cfg.Enabled() && Locked(Lookup(View(), key), now))
      ensures ok == !(cfg.maxAttempts > 0 && key in View() && now < View()[key].lockedUntil)
      ensures !ok ==> key in View() && now + retryAfter == View()[key].lockedUntil && retryAfter > 0
      ensures ok ==> retryAfter == 0
    {
      if !cfg.Enabled() || key !in entries {
        return true, 0;
      }
      var e := entries[key];
      if now < e.lockedUntil {
        return false, e.lockedUntil - now;
      }
      return true, 0;
    }

    method RecordFailure(key: string, now: int)
      requires Valid()
      modifies this, entries.Values
      ensures Valid() && fresh(entries.Values - old(entries.Values))
      ensures View() == if cfg.Enabled()
                        then old(View())[key := Record(cfg, Lookup(old(View()), key).GetOr(BLANK), now)]
                        else old(View())
      ensures cfg.maxAttempts <= 0 ==> View() == old(View())
    {
      if !cfg.Enabled() {
        return;
      }
      if key !in entries {
        var blank := new RlEntry();
        entries := entries[key := blank];
      }
      entries[key].Fail(cfg, maxLockout, now);
    }

    method Reset(key: string)
      requires Valid()
      modifies this
      ensures Valid() && entries.Values <= old(entries.Values)
      ensures View() == if cfg.maxAttempts > 0 then old(View()) - {key} else old(View())
    {
      if cfg.Enabled() {
        entries := entries - {key};
      }
    }

    /** One tick of the background cleanup. */
    method Cleanup(now: int)
      requires Valid()
      modifies this
      ensures Valid() && entries.Values <= old(entries.Values)
      ensures View() == map k | k in old(View()) && !Removable(cfg, old(View())[k], now) :: old(View())[k]
    {
      var retention := maxLockout;
      if cfg.window > retention {
        retention := cfg.window;
      }
      var todo := entries.Keys;
      while todo != {}
        invariant Valid() && todo <= entries.Keys <= old(entries.Keys)
        invariant forall k :: k in entries ==> entries[k] == old(entries[k])
        invariant forall k :: k in todo ==> k in entries
        invariant forall k :: k in old(entries) - todo ==>
          (k in entries <==> !Removable(cfg, old(entries[k].Value()), now))
        decreases todo
      {
        var key :| key in todo;
        var e := entries[key];
        if now > e.lockedUntil && now - e.lastSeen > retention {
          entries := entries - {key};
        }
        todo := todo - {key};
      }
    }
  }
}
