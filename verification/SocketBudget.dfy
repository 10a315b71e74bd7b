/** The address layer and the program exchange together: what one socket can obtain. */
module SocketBudgets {
  import opened Wrappers
  import opened LoginThrottles
  import opened ClientAddresses
  import PT = ProgramTokens

  /** A request as it arrives: its headers, and the exchange it then asks for. */
  datatype Arrival = Arrival(forwarded: Option<seq<string>>, req: PT.Request)

  function Requests(arrivals: seq<Arrival>): seq<PT.Request> {
    if arrivals == [] then [] else Requests(arrivals[..|arrivals| - 1]) + [arrivals[|arrivals| - 1].req]
  }

  /** Requests answered anything but THROTTLED at instants of [from, to), whatever address they are charged to. */
  function ServedAtAll(reqs: seq<PT.Request>, from: int, to: int, maxTtl: int, lim: Limits): nat {
    if reqs == [] then 0
    else
      var before, r := reqs[..|reqs| - 1], reqs[|reqs| - 1];
      ServedAtAll(before, from, to, maxTtl, lim)
      + (if from <= r.ipMs < to && PT.TokenTx(PT.After(before, maxTtl, lim), r, maxTtl, lim).1 != PT.Throttled then 1 else 0)
  }

  lemma {:induction false} AllChargedToOne(arrivals: seq<Arrival>, options: Options, socket: string)
    requires !options.trust(socket, 0)
    requires forall a <- arrivals :: a.req.clientIp == Charged(options, socket, a.forwarded)
    ensures forall r <- Requests(arrivals) :: r.clientIp == Normalized(socket)
  {
    if arrivals != [] {
      var last := arrivals[|arrivals| - 1];
      assert last in arrivals;
      forall a <- arrivals[..|arrivals| - 1] ensures a in arrivals {}
      AllChargedToOne(arrivals[..|arrivals| - 1], options, socket);
      UndeclaredSocketFixesAddress(options, socket, last.forwarded);
    }
  }

  lemma {:induction false} OneAddressServesAll(reqs: seq<PT.Request>, ip: string, from: int, to: int, maxTtl: int, lim: Limits)
    requires forall r <- reqs :: r.clientIp == ip
    ensures ServedAtAll(reqs, from, to, maxTtl, lim) == PT.Served(reqs, ip, from, to, maxTtl, lim)
  {
    if reqs != [] {
      assert reqs[|reqs| - 1] in reqs;
      forall r <- reqs[..|reqs| - 1] ensures r in reqs {}
      OneAddressServesAll(reqs[..|reqs| - 1], ip, from, to, maxTtl, lim);
    }
  }

  lemma AllServedWithin(reqs: seq<PT.Request>, ip: string, from: int, to: int, maxTtl: int, lim: Limits, bound: int)
    requires forall r <- reqs :: r.clientIp == ip
    requires PT.Served(reqs, ip, from, to, maxTtl, lim) <= bound
    ensures ServedAtAll(reqs, from, to, maxTtl, lim) <= bound
  {
    OneAddressServesAll(reqs, ip, from, to, maxTtl, lim);
  }

  lemma OneAddressWithin(reqs: seq<PT.Request>, ip: string, from: int, maxTtl: int, lim: Limits)
    requires forall r <- reqs :: r.clientIp == ip
    requires ClockForward(Uses(PT.Calls(reqs))) && lim.windowMs > 0
    ensures ServedAtAll(reqs, from, from + lim.windowMs, maxTtl, lim) <= 2 * lim.Cap()
  {
    PT.OneBudgetForBothForms(reqs, ip, from, maxTtl, lim);
    AllServedWithin(reqs, ip, from, from + lim.windowMs, maxTtl, lim, 2 * lim.Cap());
  }

  /**
    One undeclared socket, writing any forwarded header and any assertion it likes, is served at
    most twice the cap in any half-open interval of one window length.
   */
  lemma {:induction false} ForgedHeadersBuyNothing(arrivals: seq<Arrival>, options: Options, socket: string, from: int, maxTtl: int, lim: Limits)
    requires !options.trust(socket, 0)
    requires forall a <- arrivals :: a.req.clientIp == Charged(options, socket, a.forwarded)
    requires ClockForward(Uses(PT.Calls(Requests(arrivals)))) && lim.windowMs > 0
    ensures ServedAtAll(Requests(arrivals), from, from + lim.windowMs, maxTtl, lim) <= 2 * lim.Cap()
  {
    AllChargedToOne(arrivals, options, socket);
    OneAddressWithin(Requests(arrivals), Normalized(socket), from, maxTtl, lim);
  }
}
