/**
  The fixed-window throttle of src/auth/login-throttle.ts: a map of counters, swept in place
  once it holds more than 10 000 keys.  `Consume` is the counter as it would be if nothing
  were ever swept; the class is tied to its swept form, and the two are proved to agree.
 */
module LoginThrottles {
  import opened Arithmetic

  datatype WindowCounter = WindowCounter(windowStartMs: int, count: int)

  type Counters = map<string, WindowCounter>

  const SWEEP_THRESHOLD := 10_000

  /** `maxAttempts` as configured; a window always admits the call that opens it. */
  datatype Limits = Limits(maxAttempts: int, windowMs: int)
  {
    function Cap(): int { if maxAttempts < 1 then 1 else maxAttempts }
  }

  predicate Expired(c: WindowCounter, now: int, lim: Limits) {
    now - c.windowStartMs >= lim.windowMs
  }

  /** One attempt on one key, with no sweep. */
  function Consume(m: Counters, key: string, now: int, lim: Limits): (Counters, bool) {
    if key !in m || Expired(m[key], now, lim) then
      (m[key := WindowCounter(now, 1)], true)
    else
      var c := m[key].count + 1;
      (m[key := m[key].(count := c)], c <= lim.maxAttempts)
  }

  function Sweep(m: Counters, now: int, lim: Limits): Counters {
    map k | k in m && !Expired(m[k], now, lim) :: m[k]
  }

  /** One attempt on one key, the map swept first when it has grown past the threshold. */
  function SweptConsume(m: Counters, key: string, now: int, lim: Limits): (Counters, bool) {
    Consume(if |m| > SWEEP_THRESHOLD then Sweep(m, now, lim) else m, key, now, lim)
  }

  /** A call of the public surface; each counter it touches reads the clock for itself. */
  datatype Call =
    | Allow(clientIp: string, identifier: string, ipMs: int, idMs: int)
    | AllowAddress(clientIp: string, ipMs: int)
    | AllowByKey(key: string, keyMs: int)

  function IpKey(ip: string): string { "ip:" + ip }
  function IdKey(id: string): string { "id:" + id }
  function OwnKey(key: string): string { "k:" + key }

  function Answer(m: Counters, call: Call, lim: Limits): (Counters, bool) {
    match call
    case Allow(ip, id, t, u) =>
      var (m1, ipAllowed) := SweptConsume(m, IpKey(ip), t, lim);
      var (m2, idAllowed) := SweptConsume(m1, IdKey(id), u, lim);
      (m2, ipAllowed && idAllowed)
    case AllowAddress(ip, t) => SweptConsume(m, IpKey(ip), t, lim)
    case AllowByKey(k, t) => SweptConsume(m, OwnKey(k), t, lim)
  }

  class LoginThrottle {
    const maxAttempts: int
    const windowSeconds: int
    var counters: Counters

    function Lim(): Limits { Limits(maxAttempts, windowSeconds * 1000) }

    constructor (maxAttempts: int, windowSeconds: int)
      ensures this.maxAttempts == maxAttempts && this.windowSeconds == windowSeconds && counters == map[]
    {
      this.maxAttempts, this.windowSeconds := maxAttempts, windowSeconds;
      counters := map[];
    }

    /** Consumes an attempt on both counters; false = refuse. */
    method Allow(clientIp: string, identifier: string, ipMs: int, idMs: int) returns (ok: bool)
      modifies `counters
      ensures (counters, ok) == Answer(old(counters), Call.Allow(clientIp, identifier, ipMs, idMs), Lim())
    {
      var ipAllowed := AllowAddress(clientIp, ipMs);
      var idAllowed := Consume("id:" + identifier, idMs);
      return ipAllowed && idAllowed;
    }

    method AllowAddress(clientIp: string, ipMs: int) returns (ok: bool)
      modifies `counters
      ensures (counters, ok) == Answer(old(counters), Call.AllowAddress(clientIp, ipMs), Lim())
    {
      ok := Consume("ip:" + clientIp, ipMs);
    }

    method AllowByKey(key: string, keyMs: int) returns (ok: bool)
      modifies `counters
      ensures (counters, ok) == Answer(old(counters), Call.AllowByKey(key, keyMs), Lim())
    {
      ok := Consume("k:" + key, keyMs);
    }

    method Consume(key: string, now: int) returns (ok: bool)
      modifies `counters
      ensures (counters, ok) == SweptConsume(old(counters), key, now, Lim())
    {
      var windowMs := windowSeconds * 1000;
      if |counters| > SWEEP_THRESHOLD {
        SweepExpired(now, windowMs);
      }
      if key !in counters || now - counters[key].windowStartMs >= windowMs {
        counters := counters[key := WindowCounter(now, 1)];
        return true;
      }
      counters := counters[key := counters[key].(count := counters[key].count + 1)];
      return counters[key].count <= maxAttempts;
    }

    /** Visits every key once and deletes the expired ones from the map being visited. */
    method SweepExpired(now: int, windowMs: int)
      requires windowMs == Lim().windowMs
      modifies `counters
      ensures counters == Sweep(old(counters), now, Lim())
    {
      var todo := counters.Keys;
      while todo != {}
        invariant todo <= counters.Keys <= old(counters).Keys
        invariant forall k <- old(counters) ::
                    k in counters <==> k in todo || !Expired(old(counters)[k], now, Lim())
        invariant forall k <- counters :: counters[k] == old(counters)[k]
        decreases todo
      {
        var k :| k in todo;
        if now - counters[k].windowStartMs >= windowMs {
          counters := counters - {k};
        }
        todo := todo - {k};
      }
    }
  }

  // ---------------------------------------------------------------------------
  // Attempts, one by one
  // ---------------------------------------------------------------------------

  /** An attempt on a counter at an instant. */
  datatype Use = Use(key: string, now: int)

  ghost predicate ClockForward(uses: seq<Use>) {
    forall i, j :: 0 <= i < j < |uses| ==> uses[i].now <= uses[j].now
  }

  function After(m: Counters, uses: seq<Use>, lim: Limits): Counters {
    if uses == [] then m
    else var u := uses[|uses| - 1]; Consume(After(m, uses[..|uses| - 1], lim), u.key, u.now, lim).0
  }

  function Answers(m: Counters, uses: seq<Use>, lim: Limits): seq<bool> {
    if uses == [] then []
    else
      var u, before := uses[|uses| - 1], uses[..|uses| - 1];
      Answers(m, before, lim) + [Consume(After(m, before, lim), u.key, u.now, lim).1]
  }

  function SweptAfter(m: Counters, uses: seq<Use>, lim: Limits): Counters {
    if uses == [] then m
    else var u := uses[|uses| - 1]; SweptConsume(SweptAfter(m, uses[..|uses| - 1], lim), u.key, u.now, lim).0
  }

  function SweptAnswers(m: Counters, uses: seq<Use>, lim: Limits): seq<bool> {
    if uses == [] then []
    else
      var u, before := uses[|uses| - 1], uses[..|uses| - 1];
      SweptAnswers(m, before, lim) + [SweptConsume(SweptAfter(m, before, lim), u.key, u.now, lim).1]
  }

  // ---------------------------------------------------------------------------
  // The sweep is invisible
  // ---------------------------------------------------------------------------

  /** The swept map lacks only keys that the unswept one holds expired. */
  ghost predicate SweptOf(swept: Counters, m: Counters, now: int, lim: Limits) {
    && (forall k <- swept :: k in m && m[k] == swept[k])
    && (forall k <- m :: k !in swept ==> Expired(m[k], now, lim))
  }

  lemma SweepIsInvisible(swept: Counters, m: Counters, key: string, before: int, now: int, lim: Limits)
    requires SweptOf(swept, m, before, lim) && before <= now
    ensures SweptConsume(swept, key, now, lim).1 == Consume(m, key, now, lim).1
    ensures SweptOf(SweptConsume(swept, key, now, lim).0, Consume(m, key, now, lim).0, now, lim)
  {
    var s := if |swept| > SWEEP_THRESHOLD then Sweep(swept, now, lim) else swept;
    assert SweptOf(s, m, now, lim);
  }

  /**
    Under a clock that never goes back, the throttle answers every sequence of attempts as one
    that never forgets a counter, including when the sweep deletes the key being consumed.
   */
  lemma {:induction false} SweptRefinesNeverSwept(uses: seq<Use>, start: int, lim: Limits)
    requires ClockForward(uses) && (uses != [] ==> start <= uses[0].now)
    ensures SweptAnswers(map[], uses, lim) == Answers(map[], uses, lim)
    ensures
      SweptOf(SweptAfter(map[], uses, lim), After(map[], uses, lim),
              if uses == [] then start else uses[|uses| - 1].now, lim)
  {
    if uses != [] {
      var before, u := uses[..|uses| - 1], uses[|uses| - 1];
      SweptRefinesNeverSwept(before, start, lim);
      SweepIsInvisible(SweptAfter(map[], before, lim), After(map[], before, lim), u.key,
                       if before == [] then start else before[|before| - 1].now, u.now, lim);
    }
  }

  // ---------------------------------------------------------------------------
  // How many attempts pass
  // ---------------------------------------------------------------------------

  /** Attempts on `key` admitted at instants of [from, to). */
  function Admitted(uses: seq<Use>, key: string, from: int, to: int, lim: Limits): nat {
    if uses == [] then 0
    else
      var before, u := uses[..|uses| - 1], uses[|uses| - 1];
      Admitted(before, key, from, to, lim)
      + (if u.key == key && from <= u.now < to && Consume(After(map[], before, lim), key, u.now, lim).1 then 1 else 0)
  }

  lemma {:induction false} NoneAdmittedBefore(uses: seq<Use>, key: string, from: int, to: int, lim: Limits)
    requires forall u <- uses :: u.now < from || u.key != key
    ensures Admitted(uses, key, from, to, lim) == 0
  {
    if uses != [] {
      assert uses[|uses| - 1] in uses;
      forall u <- uses[..|uses| - 1] ensures u in uses {}
      NoneAdmittedBefore(uses[..|uses| - 1], key, from, to, lim);
    }
  }

  /** A counter's window covers every attempt on its key so far, and opened at one of them. */
  ghost predicate Covers(m: Counters, uses: seq<Use>, key: string, lim: Limits) {
    if key in m then
      && m[key].count >= 1
      && (forall u <- uses :: u.key == key ==> u.now < m[key].windowStartMs + lim.windowMs)
      && (exists u <- uses :: u.now == m[key].windowStartMs)
    else forall u <- uses :: u.key != key
  }

  lemma CoversStep(m: Counters, before: seq<Use>, last: Use, key: string, lim: Limits)
    requires Covers(m, before, key, lim) && lim.windowMs > 0
    requires forall u <- before :: u.now <= last.now
    ensures Covers(Consume(m, last.key, last.now, lim).0, before + [last], key, lim)
  {
    var uses := before + [last];
    assert last in uses;
    if key in m {
      var u :| u in before && u.now == m[key].windowStartMs;
      assert u in uses;
    }
  }

  lemma {:induction false} WindowCovers(uses: seq<Use>, key: string, lim: Limits)
    requires ClockForward(uses) && lim.windowMs > 0
    ensures Covers(After(map[], uses, lim), uses, key, lim)
  {
    if uses != [] {
      var before, last := uses[..|uses| - 1], uses[|uses| - 1];
      WindowCovers(before, key, lim);
      CoversStep(After(map[], before, lim), before, last, key, lim);
      assert uses == before + [last];
    }
  }

  /** In the window that is open, exactly min(count, cap) attempts have been admitted. */
  lemma {:induction false} AtMostCapPerWindow(uses: seq<Use>, key: string, lim: Limits)
    requires ClockForward(uses) && lim.windowMs > 0
    requires key in After(map[], uses, lim)
    ensures
      var c := After(map[], uses, lim)[key];
      Admitted(uses, key, c.windowStartMs, c.windowStartMs + lim.windowMs, lim) == Min(c.count, lim.Cap())
  {
    var before, u := uses[..|uses| - 1], uses[|uses| - 1];
    var m := After(map[], before, lim);
    WindowCovers(before, key, lim);
    if u.key == key && (key !in m || Expired(m[key], u.now, lim)) {
      NoneAdmittedBefore(before, key, u.now, u.now + lim.windowMs, lim);
    } else {
      AtMostCapPerWindow(before, key, lim);
    }
  }

  /** What may have been admitted in [from, from + window), given the counter as it stands. */
  function Ceiling(m: Counters, key: string, from: int, lim: Limits): int {
    if key !in m then 0
    else if m[key].windowStartMs < from then Min(m[key].count, lim.Cap())
    else if m[key].windowStartMs < from + lim.windowMs then lim.Cap() + Min(m[key].count, lim.Cap())
    else 2 * lim.Cap()
  }

  /** One attempt raises what was admitted no faster than its ceiling. */
  lemma CeilingStep(m: Counters, u: Use, key: string, from: int, lim: Limits, n: nat)
    requires lim.windowMs > 0
    requires key in m ==> m[key].windowStartMs <= u.now && m[key].count >= 1
    requires n <= Ceiling(m, key, from, lim) && (u.now < from ==> n == 0)
    ensures
      var (m', ok) := Consume(m, u.key, u.now, lim);
      n + (if u.key == key && from <= u.now < from + lim.windowMs && ok then 1 else 0) <= Ceiling(m', key, from, lim)
  {
  }

  lemma {:induction false} AdmittedUnderCeiling(uses: seq<Use>, key: string, from: int, lim: Limits)
    requires ClockForward(uses) && lim.windowMs > 0
    ensures Admitted(uses, key, from, from + lim.windowMs, lim) <= Ceiling(After(map[], uses, lim), key, from, lim)
  {
    if uses != [] {
      var before, u := uses[..|uses| - 1], uses[|uses| - 1];
      var m := After(map[], before, lim);
      AdmittedUnderCeiling(before, key, from, lim);
      WindowCovers(before, key, lim);
      if u.now < from { NoneAdmittedBefore(before, key, from, from + lim.windowMs, lim); }
      CeilingStep(m, u, key, from, lim, Admitted(before, key, from, from + lim.windowMs, lim));
    }
  }

  /** Any half-open interval of one window length admits at most twice the cap on one key. */
  lemma AtMostTwiceTheCap(uses: seq<Use>, key: string, from: int, lim: Limits)
    requires ClockForward(uses) && lim.windowMs > 0
    ensures Admitted(uses, key, from, from + lim.windowMs, lim) <= 2 * lim.Cap()
  {
    AdmittedUnderCeiling(uses, key, from, lim);
    WindowCovers(uses, key, lim);
  }

  /** Attempts on other keys change nothing for a key: counters never interfere. */
  function Only(uses: seq<Use>, key: string): seq<Use> {
    if uses == [] then []
    else
      var before, u := uses[..|uses| - 1], uses[|uses| - 1];
      if u.key == key then Only(before, key) + [u] else Only(before, key)
  }

  lemma {:induction false} CountersNeverInterfere(uses: seq<Use>, key: string, from: int, to: int, lim: Limits)
    ensures key in After(map[], uses, lim) <==> key in After(map[], Only(uses, key), lim)
    ensures key in After(map[], uses, lim) ==>
              After(map[], uses, lim)[key] == After(map[], Only(uses, key), lim)[key]
    ensures Admitted(uses, key, from, to, lim) == Admitted(Only(uses, key), key, from, to, lim)
  {
    if uses != [] {
      var before, u := uses[..|uses| - 1], uses[|uses| - 1];
      CountersNeverInterfere(before, key, from, to, lim);
      if u.key == key {
        var own := Only(uses, key);
        assert own[..|own| - 1] == Only(before, key) && own[|own| - 1] == u;
      }
    }
  }

  // ---------------------------------------------------------------------------
  // The public surface
  // ---------------------------------------------------------------------------

  lemma KeyFamiliesApart(x: string, y: string)
    ensures IpKey(x) != IdKey(y) && IpKey(x) != OwnKey(y) && IdKey(x) != OwnKey(y)
    ensures IpKey(x) == IpKey(y) ==> x == y
    ensures IdKey(x) == IdKey(y) ==> x == y
    ensures OwnKey(x) == OwnKey(y) ==> x == y
  {
    assert IpKey(x)[1] == 'p' && IdKey(y)[1] == 'd' && OwnKey(y)[1] == ':' && IdKey(x)[1] == 'd';
    assert x == IpKey(x)[3..] && x == IdKey(x)[3..] && x == OwnKey(x)[2..];
    assert y == IpKey(y)[3..] && y == IdKey(y)[3..] && y == OwnKey(y)[2..];
  }

  function UsesOf(call: Call): seq<Use> {
    match call
    case Allow(ip, id, t, u) => [Use(IpKey(ip), t), Use(IdKey(id), u)]
    case AllowAddress(ip, t) => [Use(IpKey(ip), t)]
    case AllowByKey(k, t) => [Use(OwnKey(k), t)]
  }

  function Uses(calls: seq<Call>): seq<Use> {
    if calls == [] then [] else Uses(calls[..|calls| - 1]) + UsesOf(calls[|calls| - 1])
  }

  function CallsAfter(calls: seq<Call>, lim: Limits): Counters {
    if calls == [] then map[] else Answer(CallsAfter(calls[..|calls| - 1], lim), calls[|calls| - 1], lim).0
  }

  /** Whether a counter that was never swept admits one more attempt at `now`. */
  predicate Admits(m: Counters, key: string, now: int, lim: Limits) {
    key !in m || now - m[key].windowStartMs >= lim.windowMs || m[key].count < lim.maxAttempts
  }

  lemma ClockForwardPrefix(a: seq<Use>, b: seq<Use>)
    requires ClockForward(a + b)
    ensures ClockForward(a)
  {
    assert forall i :: 0 <= i < |a| ==> (a + b)[i] == a[i];
  }

  lemma UsesSnoc(us: seq<Use>, x: Use, lim: Limits)
    ensures SweptAfter(map[], us + [x], lim) == SweptConsume(SweptAfter(map[], us, lim), x.key, x.now, lim).0
    ensures After(map[], us + [x], lim) == Consume(After(map[], us, lim), x.key, x.now, lim).0
  {
    assert (us + [x])[..|us|] == us && (us + [x])[|us|] == x;
  }

  /** One attempt after others is answered as the unswept counter would. */
  lemma AttemptAnswer(us: seq<Use>, x: Use, lim: Limits)
    requires ClockForward(us + [x])
    ensures SweptConsume(SweptAfter(map[], us, lim), x.key, x.now, lim).1 <==> Admits(After(map[], us, lim), x.key, x.now, lim)
  {
    var all := us + [x];
    assert all[..|us|] == us && all[|us|] == x;
    SweptRefinesNeverSwept(all, all[0].now, lim);
    assert SweptAnswers(map[], all, lim)[|SweptAnswers(map[], all, lim)| - 1]
        == Answers(map[], all, lim)[|Answers(map[], all, lim)| - 1];
  }

  lemma TwoUses(us: seq<Use>, x: Use, y: Use, lim: Limits)
    ensures us + [x, y] == us + [x] + [y]
    ensures
      var m1 := SweptConsume(SweptAfter(map[], us, lim), x.key, x.now, lim).0;
      SweptAfter(map[], us + [x, y], lim) == SweptConsume(m1, y.key, y.now, lim).0
  {
    assert us + [x, y] == us + [x] + [y];
    UsesSnoc(us, x, lim);
    UsesSnoc(us + [x], y, lim);
  }

  /** A call leaves the counters of its attempts. */
  lemma CallIsUses(us: seq<Use>, c: Call, lim: Limits)
    ensures Answer(SweptAfter(map[], us, lim), c, lim).0 == SweptAfter(map[], us + UsesOf(c), lim)
  {
    match c
    case Allow(ip, id, t, u) => TwoUses(us, Use(IpKey(ip), t), Use(IdKey(id), u), lim);
    case AllowAddress(ip, t) => UsesSnoc(us, Use(IpKey(ip), t), lim);
    case AllowByKey(k, t) => UsesSnoc(us, Use(OwnKey(k), t), lim);
  }

  lemma {:induction false} CallsAreUses(calls: seq<Call>, lim: Limits)
    ensures CallsAfter(calls, lim) == SweptAfter(map[], Uses(calls), lim)
  {
    if calls != [] {
      CallsAreUses(calls[..|calls| - 1], lim);
      CallIsUses(Uses(calls[..|calls| - 1]), calls[|calls| - 1], lim);
    }
  }

  /** `allow` hears both counters, the second whatever the first answers. */
  lemma AllowHearsBoth(m: Counters, ip: string, id: string, t: int, u: int, lim: Limits)
    ensures
      var m1 := SweptConsume(m, IpKey(ip), t, lim).0;
      Answer(m, Call.Allow(ip, id, t, u), lim).1 <==>
        SweptConsume(m, IpKey(ip), t, lim).1 && SweptConsume(m1, IdKey(id), u, lim).1
  {
  }

  /**
    After any calls, `allow` is answered true exactly when the counter of the address and the
    counter of the identifier both admit, `allowAddress` and `allowByKey` exactly when their one
    counter does: counters that forget nothing, whatever the sweep did.
   */
  lemma AnsweredIff(before: seq<Call>, c: Call, lim: Limits)
    requires ClockForward(Uses(before) + UsesOf(c))
    ensures
      var m, answered := After(map[], Uses(before), lim), Answer(CallsAfter(before, lim), c, lim).1;
      match c
      case Allow(ip, id, t, u) => answered <==> Admits(m, "ip:" + ip, t, lim) && Admits(m, "id:" + id, u, lim)
      case AllowAddress(ip, t) => answered <==> Admits(m, "ip:" + ip, t, lim)
      case AllowByKey(k, t) => answered <==> Admits(m, "k:" + k, t, lim)
  {
    var us := Uses(before);
    CallsAreUses(before, lim);
    var x := UsesOf(c)[0];
    if c.Allow? {
      var y := UsesOf(c)[1];
      assert us + UsesOf(c) == (us + [x]) + [y];
      ClockForwardPrefix(us + [x], [y]);
      UsesSnoc(us, x, lim);
      AttemptAnswer(us, x, lim);
      AttemptAnswer(us + [x], y, lim);
      KeyFamiliesApart(c.clientIp, c.identifier);
      AllowHearsBoth(CallsAfter(before, lim), c.clientIp, c.identifier, c.ipMs, c.idMs, lim);
    } else {
      AttemptAnswer(us, x, lim);
    }
  }

  // ---------------------------------------------------------------------------
  // Budgets
  // ---------------------------------------------------------------------------

  /** Whether a call consumes an attempt of the key at an instant of [from, to). */
  predicate Touches(call: Call, key: string, from: int, to: int) {
    exists u <- UsesOf(call) :: u.key == key && from <= u.now < to
  }

  /** Calls that consume an attempt of the key in [from, to) and are answered true. */
  function AdmittedTouching(calls: seq<Call>, key: string, from: int, to: int, lim: Limits): nat {
    if calls == [] then 0
    else
      var before, c := calls[..|calls| - 1], calls[|calls| - 1];
      AdmittedTouching(before, key, from, to, lim)
      + (if Touches(c, key, from, to) && Answer(CallsAfter(before, lim), c, lim).1 then 1 else 0)
  }

  predicate Falls(u: Use, key: string, from: int, to: int) { u.key == key && from <= u.now < to }

  lemma AdmittedSnoc(us: seq<Use>, x: Use, key: string, from: int, to: int, lim: Limits)
    ensures
      Admitted(us + [x], key, from, to, lim) == Admitted(us, key, from, to, lim)
        + (if Falls(x, key, from, to) && Admits(After(map[], us, lim), x.key, x.now, lim) then 1 else 0)
  {
    assert (us + [x])[..|us|] == us && (us + [x])[|us|] == x;
  }

  /** An attempt on one key changes nothing for another. */
  lemma OtherKeyStays(us: seq<Use>, x: Use, y: Use, lim: Limits)
    requires x.key != y.key
    ensures Admits(After(map[], us + [x], lim), y.key, y.now, lim) <==> Admits(After(map[], us, lim), y.key, y.now, lim)
  {
    UsesSnoc(us, x, lim);
  }

  /** Two attempts on two keys, both admitted: the one on the key is counted. */
  lemma BothAdmitted(us: seq<Use>, x: Use, y: Use, key: string, from: int, to: int, lim: Limits)
    requires x.key != y.key
    requires Admits(After(map[], us, lim), x.key, x.now, lim) && Admits(After(map[], us, lim), y.key, y.now, lim)
    ensures Admitted(us + [x, y], key, from, to, lim) ==
            Admitted(us, key, from, to, lim) + (if Falls(x, key, from, to) || Falls(y, key, from, to) then 1 else 0)
  {
    var n0, n1, n2 := Admitted(us, key, from, to, lim), Admitted(us + [x], key, from, to, lim), Admitted(us + [x, y], key, from, to, lim);
    assert n1 == n0 + (if Falls(x, key, from, to) then 1 else 0) by { AdmittedSnoc(us, x, key, from, to, lim); }
    assert n2 == n1 + (if Falls(y, key, from, to) then 1 else 0) by {
      assert us + [x, y] == us + [x] + [y];
      AdmittedSnoc(us + [x], y, key, from, to, lim);
      OtherKeyStays(us, x, y, lim);
    }
  }

  lemma NeverFewer(us: seq<Use>, more: seq<Use>, key: string, from: int, to: int, lim: Limits)
    requires 1 <= |more| <= 2
    ensures Admitted(us + more, key, from, to, lim) >= Admitted(us, key, from, to, lim)
  {
    AdmittedSnoc(us, more[0], key, from, to, lim);
    if |more| == 1 {
      assert us + more == us + [more[0]];
    } else {
      assert us + more == us + [more[0]] + [more[1]];
      AdmittedSnoc(us + [more[0]], more[1], key, from, to, lim);
    }
  }

  lemma TouchesIff(c: Call, key: string, from: int, to: int)
    ensures
      match c
      case Allow(ip, id, t, u) =>
        Touches(c, key, from, to) <==> Falls(Use(IpKey(ip), t), key, from, to) || Falls(Use(IdKey(id), u), key, from, to)
      case AllowAddress(ip, t) => Touches(c, key, from, to) <==> Falls(Use(IpKey(ip), t), key, from, to)
      case AllowByKey(k, t) => Touches(c, key, from, to) <==> Falls(Use(OwnKey(k), t), key, from, to)
  {
    assert UsesOf(c)[0] in UsesOf(c);
    if c.Allow? { assert UsesOf(c)[1] in UsesOf(c); }
  }

  /** An answered call has had every one of its attempts admitted. */
  lemma AnsweredIsAdmitted(before: seq<Call>, c: Call, key: string, from: int, to: int, lim: Limits)
    requires ClockForward(Uses(before) + UsesOf(c))
    ensures
      Admitted(Uses(before) + UsesOf(c), key, from, to, lim)
      >= Admitted(Uses(before), key, from, to, lim)
         + (if Touches(c, key, from, to) && Answer(CallsAfter(before, lim), c, lim).1 then 1 else 0)
  {
    var us := Uses(before);
    NeverFewer(us, UsesOf(c), key, from, to, lim);
    if Answer(CallsAfter(before, lim), c, lim).1 {
      AnsweredIff(before, c, lim);
      TouchesIff(c, key, from, to);
      match c
      case Allow(ip, id, t, u) =>
        KeyFamiliesApart(ip, id);
        BothAdmitted(us, Use(IpKey(ip), t), Use(IdKey(id), u), key, from, to, lim);
      case AllowAddress(ip, t) => AdmittedSnoc(us, Use(IpKey(ip), t), key, from, to, lim);
      case AllowByKey(k, t) => AdmittedSnoc(us, Use(OwnKey(k), t), key, from, to, lim);
    }
  }

  lemma {:induction false} TouchingIsAdmitted(calls: seq<Call>, key: string, from: int, to: int, lim: Limits)
    requires ClockForward(Uses(calls))
    ensures AdmittedTouching(calls, key, from, to, lim) <= Admitted(Uses(calls), key, from, to, lim)
  {
    if calls != [] {
      var before, c := calls[..|calls| - 1], calls[|calls| - 1];
      ClockForwardPrefix(Uses(before), UsesOf(c));
      TouchingIsAdmitted(before, key, from, to, lim);
      AnsweredIsAdmitted(before, c, key, from, to, lim);
    }
  }

  /** Whatever calls touch a key, at most twice the cap of them are answered true in any half-open window. */
  lemma KeyBudget(calls: seq<Call>, key: string, from: int, lim: Limits)
    requires ClockForward(Uses(calls)) && lim.windowMs > 0
    ensures AdmittedTouching(calls, key, from, from + lim.windowMs, lim) <= 2 * lim.Cap()
  {
    var to, uses := from + lim.windowMs, Uses(calls);
    var n := Admitted(uses, key, from, to, lim);
    assert AdmittedTouching(calls, key, from, to, lim) <= n by { TouchingIsAdmitted(calls, key, from, to, lim); }
    assert n <= 2 * lim.Cap() by { AtMostTwiceTheCap(uses, key, from, lim); }
  }

  predicate FromAddress(call: Call, ip: string, from: int, to: int) {
    !call.AllowByKey? && call.clientIp == ip && from <= call.ipMs < to
  }

  /** Calls of `ip`, by either form, admitted at instants of [from, to). */
  function AdmittedCalls(calls: seq<Call>, ip: string, from: int, to: int, lim: Limits): nat {
    if calls == [] then 0
    else
      var before, c := calls[..|calls| - 1], calls[|calls| - 1];
      AdmittedCalls(before, ip, from, to, lim)
      + (if FromAddress(c, ip, from, to) && Answer(CallsAfter(before, lim), c, lim).1 then 1 else 0)
  }

  lemma AddressTouches(c: Call, ip: string, from: int, to: int)
    requires FromAddress(c, ip, from, to)
    ensures Touches(c, IpKey(ip), from, to)
  {
    assert UsesOf(c)[0] in UsesOf(c);
  }

  lemma {:induction false} AddressCallsTouch(calls: seq<Call>, ip: string, from: int, to: int, lim: Limits)
    ensures AdmittedCalls(calls, ip, from, to, lim) <= AdmittedTouching(calls, IpKey(ip), from, to, lim)
  {
    if calls != [] {
      AddressCallsTouch(calls[..|calls| - 1], ip, from, to, lim);
      if FromAddress(calls[|calls| - 1], ip, from, to) { AddressTouches(calls[|calls| - 1], ip, from, to); }
    }
  }

  /**
    Whatever mix of `allow` and `allowAddress` an address uses, in any half-open interval of one
    window length it is admitted at most twice the cap.
   */
  lemma {:induction false} AddressBudget(calls: seq<Call>, ip: string, from: int, lim: Limits)
    requires ClockForward(Uses(calls)) && lim.windowMs > 0
    ensures AdmittedCalls(calls, ip, from, from + lim.windowMs, lim) <= 2 * lim.Cap()
  {
    AddressCallsTouch(calls, ip, from, from + lim.windowMs, lim);
    KeyBudget(calls, IpKey(ip), from, lim);
  }

  /** Calls of `allow` naming `id`, from whatever address, admitted at instants of [from, to). */
  function AdmittedNaming(calls: seq<Call>, id: string, from: int, to: int, lim: Limits): nat {
    if calls == [] then 0
    else
      var before, c := calls[..|calls| - 1], calls[|calls| - 1];
      AdmittedNaming(before, id, from, to, lim)
      + (if c.Allow? && c.identifier == id && from <= c.idMs < to && Answer(CallsAfter(before, lim), c, lim).1 then 1 else 0)
  }

  lemma {:induction false} NamingTouches(calls: seq<Call>, id: string, from: int, to: int, lim: Limits)
    ensures AdmittedNaming(calls, id, from, to, lim) <= AdmittedTouching(calls, IdKey(id), from, to, lim)
  {
    if calls != [] {
      NamingTouches(calls[..|calls| - 1], id, from, to, lim);
      var c := calls[|calls| - 1];
      if c.Allow? { assert UsesOf(c)[1] in UsesOf(c); }
    }
  }

  /** One identifier, tried from any addresses, is admitted at most twice the cap in any half-open window. */
  lemma IdentifierBudget(calls: seq<Call>, id: string, from: int, lim: Limits)
    requires ClockForward(Uses(calls)) && lim.windowMs > 0
    ensures AdmittedNaming(calls, id, from, from + lim.windowMs, lim) <= 2 * lim.Cap()
  {
    NamingTouches(calls, id, from, from + lim.windowMs, lim);
    KeyBudget(calls, IdKey(id), from, lim);
  }
}
