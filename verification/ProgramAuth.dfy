/**
  The exchange of a signed assertion for a program token (src/programs/program-auth.service.ts).

  What the assertion says once parsed, the candidate key, and whether its signature verifies
  are parameters of a request; the replay register is the table of db/schema/013.
 */
module ProgramTokens {
  import opened Wrappers
  import opened LoginThrottles

  type ClientId = nat

  const ASSERTION_AUDIENCE := "user-core"

  datatype Parsed = Parsed(iss: string, kid: string, jti: string, exp: int, aud: string)

  /** The ACTIVE key of an ACTIVE client under the announced kid, and whether it verifies. */
  datatype Candidate = Candidate(client: ClientId, program: nat, authentic: bool)

  datatype Request = Request(
    parsed: Option<Parsed>,
    clientIp: string,
    candidate: Option<Candidate>,
    ipMs: int,
    idMs: int,
    nowSeconds: int)

  datatype Outcome = Throttled | Refused | Replayed | Granted(program: nat)

  /** The counters, and the (client, jti) pairs the register holds. */
  datatype State = State(counters: Counters, spent: set<(ClientId, string)>)

  /** The throttle call a request makes: one address budget for both forms of assertion. */
  function CallOf(req: Request): Call {
    match req.parsed
    case None => AllowAddress(req.clientIp, req.ipMs)
    case Some(p) => Allow(req.clientIp, p.iss, req.ipMs, req.idMs)
  }

  predicate InWindow(p: Parsed, nowSeconds: int, maxTtl: int) {
    nowSeconds < p.exp <= nowSeconds + maxTtl && p.aud == ASSERTION_AUDIENCE
  }

  function TokenTx(s: State, req: Request, maxTtl: int, lim: Limits): (State, Outcome) {
    var (counters, admitted) := Answer(s.counters, CallOf(req), lim);
    var s' := s.(counters := counters);
    if !admitted then (s', Throttled)
    else if req.parsed.None? then (s', Refused)
    else
      var p := req.parsed.value;
      if !InWindow(p, req.nowSeconds, maxTtl) || req.candidate.None? || !req.candidate.value.authentic then (s', Refused)
      else
        var pair := (req.candidate.value.client, p.jti);
        if pair in s.spent then (s', Replayed)
        else (s'.(spent := s.spent + {pair}), Granted(req.candidate.value.program))
  }

  class ProgramAuthService {
    const assertionMaxTtlSeconds: int
    const throttle: LoginThrottle
    var spent: set<(ClientId, string)>

    function Current(): State
      reads this, throttle
    {
      State(throttle.counters, spent)
    }

    constructor (assertionMaxTtlSeconds: int, throttle: LoginThrottle)
      ensures this.assertionMaxTtlSeconds == assertionMaxTtlSeconds && this.throttle == throttle && spent == {}
    {
      this.assertionMaxTtlSeconds, this.throttle := assertionMaxTtlSeconds, throttle;
      spent := {};
    }

    method Token(req: Request) returns (out: Outcome)
      modifies `spent, throttle`counters
      ensures (Current(), out) == TokenTx(old(Current()), req, assertionMaxTtlSeconds, throttle.Lim())
    {
      if req.parsed.None? {
        var ok := throttle.AllowAddress(req.clientIp, req.ipMs);
        if !ok { return Throttled; }
        return Refused;
      }
      var p := req.parsed.value;
      var ok := throttle.Allow(req.clientIp, p.iss, req.ipMs, req.idMs);
      if !ok { return Throttled; }
      if p.exp <= req.nowSeconds || p.exp > req.nowSeconds + assertionMaxTtlSeconds || p.aud != ASSERTION_AUDIENCE {
        return Refused;
      }
      if req.candidate.None? { return Refused; }
      if !req.candidate.value.authentic { return Refused; }
      var inserted := InsertAssertion(req.candidate.value.client, p.jti);
      if !inserted { return Replayed; }
      return Granted(req.candidate.value.program);
    }

    /** The INSERT is the replay verdict: the table's uniqueness decides. */
    method InsertAssertion(client: ClientId, jti: string) returns (inserted: bool)
      modifies `spent
      ensures inserted <==> (client, jti) !in old(spent)
      ensures spent == if inserted then old(spent) + {(client, jti)} else old(spent)
    {
      if (client, jti) in spent { return false; }
      spent := spent + {(client, jti)};
      return true;
    }
  }

  // ---------------------------------------------------------------------------
  // Over runs of requests
  // ---------------------------------------------------------------------------

  function After(reqs: seq<Request>, maxTtl: int, lim: Limits): State {
    if reqs == [] then State(map[], {})
    else TokenTx(After(reqs[..|reqs| - 1], maxTtl, lim), reqs[|reqs| - 1], maxTtl, lim).0
  }

  predicate Grants(s: State, req: Request, client: ClientId, jti: string, maxTtl: int, lim: Limits) {
    && TokenTx(s, req, maxTtl, lim).1.Granted?
    && req.candidate.Some? && req.candidate.value.client == client
    && req.parsed.Some? && req.parsed.value.jti == jti
  }

  /**
    A token is granted exactly for an admitted, readable assertion in its window, verified under
    the announced key, and not yet spent; only then is the pair spent, so a forged assertion
    burns nothing.
   */
  lemma GrantedIff(s: State, req: Request, maxTtl: int, lim: Limits)
    ensures
      var (after, out) := TokenTx(s, req, maxTtl, lim);
      var honest :=
        && Answer(s.counters, CallOf(req), lim).1 && req.parsed.Some?
        && req.parsed.value.aud == ASSERTION_AUDIENCE
        && req.nowSeconds < req.parsed.value.exp && req.parsed.value.exp - req.nowSeconds <= maxTtl
        && req.candidate.Some? && req.candidate.value.authentic;
      && (out.Granted? <==> honest && (req.candidate.value.client, req.parsed.value.jti) !in s.spent)
      && (out.Replayed? <==> honest && (req.candidate.value.client, req.parsed.value.jti) in s.spent)
      && (out.Granted? ==> out.program == req.candidate.value.program)
      && after.spent == s.spent + if out.Granted? then {(req.candidate.value.client, req.parsed.value.jti)} else {}
  {
  }

  /** How many requests of a run obtained a token for (client, jti). */
  function Grantings(reqs: seq<Request>, client: ClientId, jti: string, maxTtl: int, lim: Limits): nat {
    if reqs == [] then 0
    else
      var before := reqs[..|reqs| - 1];
      Grantings(before, client, jti, maxTtl, lim)
      + (if Grants(After(before, maxTtl, lim), reqs[|reqs| - 1], client, jti, maxTtl, lim) then 1 else 0)
  }

  /** An assertion identifier is worth one token, ever; it is in the register exactly when spent. */
  lemma {:induction false} ReplayIsNotRepresentable(reqs: seq<Request>, client: ClientId, jti: string, maxTtl: int, lim: Limits)
    ensures Grantings(reqs, client, jti, maxTtl, lim) == if (client, jti) in After(reqs, maxTtl, lim).spent then 1 else 0
  {
    if reqs != [] {
      var before, last := reqs[..|reqs| - 1], reqs[|reqs| - 1];
      ReplayIsNotRepresentable(before, client, jti, maxTtl, lim);
      GrantedIff(After(before, maxTtl, lim), last, maxTtl, lim);
    }
  }

  function Calls(reqs: seq<Request>): seq<Call> {
    if reqs == [] then [] else Calls(reqs[..|reqs| - 1]) + [CallOf(reqs[|reqs| - 1])]
  }

  /** Requests of an address answered anything but THROTTLED at instants of [from, to). */
  function Served(reqs: seq<Request>, ip: string, from: int, to: int, maxTtl: int, lim: Limits): nat {
    if reqs == [] then 0
    else
      var before, r := reqs[..|reqs| - 1], reqs[|reqs| - 1];
      Served(before, ip, from, to, maxTtl, lim)
      + (if r.clientIp == ip && from <= r.ipMs < to && TokenTx(After(before, maxTtl, lim), r, maxTtl, lim).1 != Throttled
         then 1 else 0)
  }

  lemma CallsSnoc(reqs: seq<Request>)
    requires reqs != []
    ensures Calls(reqs) == Calls(reqs[..|reqs| - 1]) + [CallOf(reqs[|reqs| - 1])]
    ensures Calls(reqs)[..|Calls(reqs)| - 1] == Calls(reqs[..|reqs| - 1])
  {
  }

  lemma {:induction false} CountersAreCalls(reqs: seq<Request>, maxTtl: int, lim: Limits)
    ensures After(reqs, maxTtl, lim).counters == CallsAfter(Calls(reqs), lim)
  {
    if reqs != [] {
      CountersAreCalls(reqs[..|reqs| - 1], maxTtl, lim);
      CallsSnoc(reqs);
    }
  }

  /** A request is throttled exactly when its call is not admitted. */
  lemma ThrottledIff(s: State, r: Request, maxTtl: int, lim: Limits)
    ensures TokenTx(s, r, maxTtl, lim).1 == Throttled <==> !Answer(s.counters, CallOf(r), lim).1
  {
  }

  lemma {:induction false} ServedAreAdmittedCalls(reqs: seq<Request>, ip: string, from: int, to: int, maxTtl: int, lim: Limits)
    ensures Served(reqs, ip, from, to, maxTtl, lim) == AdmittedCalls(Calls(reqs), ip, from, to, lim)
  {
    if reqs != [] {
      var before, r := reqs[..|reqs| - 1], reqs[|reqs| - 1];
      ServedAreAdmittedCalls(before, ip, from, to, maxTtl, lim);
      assert After(before, maxTtl, lim).counters == CallsAfter(Calls(before), lim) by { CountersAreCalls(before, maxTtl, lim); }
      CallsSnoc(reqs);
      ThrottledIff(After(before, maxTtl, lim), r, maxTtl, lim);
    }
  }

  lemma ServedWithin(reqs: seq<Request>, ip: string, from: int, to: int, maxTtl: int, lim: Limits, bound: int)
    requires AdmittedCalls(Calls(reqs), ip, from, to, lim) <= bound
    ensures Served(reqs, ip, from, to, maxTtl, lim) <= bound
  {
    ServedAreAdmittedCalls(reqs, ip, from, to, maxTtl, lim);
  }

  /** Readable and malformed assertions of one address share one budget. */
  lemma {:induction false} OneBudgetForBothForms(reqs: seq<Request>, ip: string, from: int, maxTtl: int, lim: Limits)
    requires ClockForward(Uses(Calls(reqs))) && lim.windowMs > 0
    ensures Served(reqs, ip, from, from + lim.windowMs, maxTtl, lim) <= 2 * lim.Cap()
  {
    AddressBudget(Calls(reqs), ip, from, lim);
    ServedWithin(reqs, ip, from, from + lim.windowMs, maxTtl, lim, 2 * lim.Cap());
  }

  /** Readable assertions of an announced issuer answered anything but THROTTLED at instants of [from, to). */
  function ServedNaming(reqs: seq<Request>, iss: string, from: int, to: int, maxTtl: int, lim: Limits): nat {
    if reqs == [] then 0
    else
      var before, r := reqs[..|reqs| - 1], reqs[|reqs| - 1];
      ServedNaming(before, iss, from, to, maxTtl, lim)
      + (if r.parsed.Some? && r.parsed.value.iss == iss && from <= r.idMs < to
            && TokenTx(After(before, maxTtl, lim), r, maxTtl, lim).1 != Throttled
         then 1 else 0)
  }

  lemma {:induction false} ServedAreAdmittedNaming(reqs: seq<Request>, iss: string, from: int, to: int, maxTtl: int, lim: Limits)
    ensures ServedNaming(reqs, iss, from, to, maxTtl, lim) == AdmittedNaming(Calls(reqs), iss, from, to, lim)
  {
    if reqs != [] {
      var before, r := reqs[..|reqs| - 1], reqs[|reqs| - 1];
      ServedAreAdmittedNaming(before, iss, from, to, maxTtl, lim);
      assert After(before, maxTtl, lim).counters == CallsAfter(Calls(before), lim) by { CountersAreCalls(before, maxTtl, lim); }
      CallsSnoc(reqs);
      ThrottledIff(After(before, maxTtl, lim), r, maxTtl, lim);
    }
  }

  /** One announced issuer, from whatever addresses, is served at most twice the cap in any half-open window. */
  lemma IssuerBudget(reqs: seq<Request>, iss: string, from: int, maxTtl: int, lim: Limits)
    requires ClockForward(Uses(Calls(reqs))) && lim.windowMs > 0
    ensures ServedNaming(reqs, iss, from, from + lim.windowMs, maxTtl, lim) <= 2 * lim.Cap()
  {
    var to, calls := from + lim.windowMs, Calls(reqs);
    assert ServedNaming(reqs, iss, from, to, maxTtl, lim) == AdmittedNaming(calls, iss, from, to, lim) by {
      ServedAreAdmittedNaming(reqs, iss, from, to, maxTtl, lim);
    }
    assert AdmittedNaming(calls, iss, from, to, lim) <= 2 * lim.Cap() by { IdentifierBudget(calls, iss, from, lim); }
  }
}
