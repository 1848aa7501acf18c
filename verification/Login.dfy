/** The login endpoint: how it drives the rate limiter and the token store. */
module Login {
  import opened Wrappers
  import opened Int64
  import opened RateLimiter
  import opened LimiterRuns
  import TokenStore

  datatype Response = Throttled(retrySecs: int) | BadRequest | Unauthorized | ServerError | Success(token: string)

  /** `int(retryAfter.Seconds()) + 1` for a positive duration. */
  function RetrySeconds(retryAfter: int): int {
    retryAfter / SECOND + 1
  }

  /** body is the decoded password (None if the JSON is malformed), right the bcrypt verdict on it,
      token the generated session token (None if the random source fails); the clock is read on
      arrival, when a rejection is recorded and when a token is stored. */
  method HandleLogin(limiter: RateLimiter, store: TokenStore.SessionStore, ip: string, body: Option<string>,
                     right: bool, token: Option<string>, sessionTimeout: int,
                     arrive: int, decided: int, granted: int)
    returns (resp: Response)
    requires limiter.Valid()
    modifies limiter, limiter.entries.Values, store
    ensures limiter.Valid()
    ensures var c, o := limiter.cfg, Lookup(old(limiter.View()), ip);
            && resp == Outcome(c, o, Attempt(body, right, token, arrive, decided))
            && limiter.View() == (if c.Enabled() && resp.Unauthorized?
                                  then old(limiter.View())[ip := Record(c, o.GetOr(BLANK), decided)]
                                  else if c.Enabled() && (resp.Success? || resp.ServerError?)
                                  then old(limiter.View()) - {ip}
                                  else old(limiter.View()))
            && store.sessions == (if resp.Success?
                                  then old(store.sessions)[resp.token := granted + sessionTimeout]
                                  else old(store.sessions))
    ensures var refused := limiter.cfg.maxAttempts > 0 && ip in old(limiter.View())
                           && arrive < old(limiter.View())[ip].lockedUntil;
            && (resp.Throttled? <==> refused)
            && (resp.BadRequest? <==> !refused && body.None?)
            && (resp.Unauthorized? <==> !refused && body.Some? && !right)
            && (resp.ServerError? <==> !refused && body.Some? && right && token.None?)
            && (!refused && body.Some? && right && token.Some? ==>
                  && resp == Success(token.value)
                  && forall u :: TokenStore.Accepts(store.sessions, token.value, u) <==> u < granted + sessionTimeout)
            && (resp.Throttled? ==>
                  resp.retrySecs == (old(limiter.View())[ip].lockedUntil - arrive) / 1_000_000_000 + 1)
  {
    var ok, retryAfter := limiter.Allowed(ip, arrive);
    if !ok {
      return Throttled(RetrySeconds(retryAfter));
    }
    if body.None? {
      return BadRequest;
    }
    if !right {
      limiter.RecordFailure(ip, decided);
      return Unauthorized;
    }
    limiter.Reset(ip);
    if token.None? {
      return ServerError;
    }
    store.Add(token.value, sessionTimeout, granted);
    return Success(token.value);
  }

  datatype Attempt = Attempt(body: Option<string>, right: bool, token: Option<string>, arrive: int, decided: int)

  function Outcome(c: Config, o: Option<Entry>, a: Attempt): Response {
    if c.Enabled() && Locked(o, a.arrive) then Throttled(RetrySeconds(o.value.lockedUntil - a.arrive))
    else if a.body.None? then BadRequest
    else if !a.right then Unauthorized
    else if a.token.None? then ServerError
    else Success(a.token.value)
  }

  /** Retry-After is enough: however often the client tries meanwhile, a request that waits as long
      as it was told is admitted, and the header never asks for more than a second too much. */
  lemma RetryAfterSuffices(c: Config, o: Option<Entry>, a: Attempt, evs: seq<Event>, t: int)
    requires c.Enabled() && Outcome(c, o, a).Throttled? && Ordered(a.arrive, evs) && NoReset(evs)
    requires forall i :: 0 <= i < |evs| ==> evs[i].t < o.value.lockedUntil
    ensures var secs := Outcome(c, o, a).retrySecs;
            && (t >= a.arrive + secs * SECOND ==> !Locked(Run(c, o, evs), t))
            && (t < a.arrive + (secs - 1) * SECOND ==> Locked(Run(c, o, evs), t))
  {
    LockoutStands(c, o.value, a.arrive, evs);
  }
}
