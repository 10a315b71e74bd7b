/**
  Where a request becomes a client address (src/client-address/client-address.ts).

  The proxy walk is proxy-addr's: the socket first, then the forwarded entries from right to
  left, up to the first address that is not trusted.  Which addresses are trusted, which are
  local, and what an IP literal is are parameters.
 */
module ClientAddresses {
  import opened Characters
  import opened Wrappers

  type Trust = (string, nat) -> bool

  datatype Surface = PUBLIC | PROGRAM

  datatype Signal = DECLARED_PROXY_WITHOUT_CLIENT | FORWARDED_FROM_UNDECLARED_LOCAL_SOURCE

  datatype Options = Options(trust: Trust, localOrPrivate: Trust, isIp: string -> bool, armed: bool)

  /** A request as read: the socket's address, and the header's entries from left to right. */
  datatype Request = Request(socket: Option<string>, forwarded: Option<seq<string>>)

  function Reversed(s: seq<string>): seq<string> {
    if s == [] then [] else Reversed(s[1..]) + [s[0]]
  }

  /** The hops of a request, nearest first. */
  function Hops(socket: string, forwarded: Option<seq<string>>): (r: seq<string>)
    ensures r != [] && r[0] == socket
  {
    [socket] + match forwarded case None => [] case Some(entries) => Reversed(entries)
  }

  /** `r` is the hop the walk stops at: the nearest untrusted one, or the farthest. */
  ghost predicate StopsAt(hops: seq<string>, trust: Trust, i: nat) {
    && i < |hops|
    && (forall j :: 0 <= j < i ==> trust(hops[j], j))
    && (i < |hops| - 1 ==> !trust(hops[i], i))
  }

  /** The stop is unique, so the walk can be spoken of as a function. */
  lemma WalkIsDetermined(hops: seq<string>, trust: Trust, i: nat, j: nat)
    requires StopsAt(hops, trust, i) && StopsAt(hops, trust, j)
    ensures i == j
  {
    assert !(i < j) && !(j < i);
  }

  function Stop(hops: seq<string>, trust: Trust, i: nat): (at: nat)
    requires i < |hops| && forall j :: 0 <= j < i ==> trust(hops[j], j)
    ensures StopsAt(hops, trust, at)
    decreases |hops| - i
  {
    if i < |hops| - 1 && trust(hops[i], i) then Stop(hops, trust, i + 1) else i
  }

  method ProxyAddr(hops: seq<string>, trust: Trust) returns (address: string)
    requires hops != []
    ensures address == hops[Stop(hops, trust, 0)]
  {
    var i := 0;
    while i < |hops| - 1
      invariant 0 <= i < |hops|
      invariant forall j :: 0 <= j < i ==> trust(hops[j], j)
    {
      if !trust(hops[i], i) {
        WalkIsDetermined(hops, trust, i, Stop(hops, trust, 0));
        return hops[i];
      }
      i := i + 1;
    }
    WalkIsDetermined(hops, trust, i, Stop(hops, trust, 0));
    return hops[i];
  }

  /** `[0-9]{1,3}` repeated `parts` times, separated by single dots. */
  predicate DottedShape(s: string, parts: nat)
    decreases parts
  {
    if parts == 0 then false
    else exists n | 1 <= n <= 3 ::
      && n <= |s|
      && (forall i :: 0 <= i < n ==> IsDigit(s[i]))
      && (if parts == 1 then n == |s| else n < |s| && s[n] == '.' && DottedShape(s[n + 1..], parts - 1))
  }

  predicate MappedPrefix(s: string) {
    && |s| == 7 && s[0] == ':' && s[1] == ':' && s[6] == ':'
    && (forall i :: 2 <= i < 6 ==> s[i] == 'f' || s[i] == 'F')
  }

  /** `::ffff:a.b.c.d` is the IPv4 client seen through a dual-stack socket. */
  function Normalized(address: string): string {
    if |address| > 7 && MappedPrefix(address[..7]) && DottedShape(address[7..], 4) then address[7..] else address
  }

  /** One client, one spelling. */
  lemma NormalizedOnce(address: string)
    ensures Normalized(Normalized(address)) == Normalized(address)
    ensures forall prefix | MappedPrefix(prefix) && DottedShape(address, 4) ::
              Normalized(prefix + address) == address == Normalized(address)
  {
    var r := Normalized(address);
    if r != address {
      assert DottedShape(r, 4);
      assert IsDigit(r[0]);
    }
    forall prefix | MappedPrefix(prefix) && DottedShape(address, 4)
      ensures Normalized(prefix + address) == address == Normalized(address)
    {
      assert (prefix + address)[..7] == prefix && (prefix + address)[7..] == address;
      assert IsDigit(address[0]);
    }
  }

  /** The address a request is charged to. */
  function Charged(options: Options, socket: string, forwarded: Option<seq<string>>): string {
    var hops := Hops(socket, forwarded);
    var resolved := hops[Stop(hops, options.trust, 0)];
    Normalized(if options.isIp(resolved) then resolved else socket)
  }

  class ClientAddress {
    const options: Options
    var emitted: set<Signal>
    /** What the observability sink received, in order. */
    var sink: seq<Signal>

    ghost predicate Valid()
      reads this
    {
      && (forall s :: s in emitted <==> s in sink)
      && (forall i, j :: 0 <= i < j < |sink| ==> sink[i] != sink[j])
    }

    constructor (options: Options)
      ensures Valid() && this.options == options && sink == []
    {
      this.options := options;
      emitted, sink := {}, [];
    }

    method Of(req: Request, surface: Surface) returns (clientIp: string)
      requires Valid()
      modifies `emitted, `sink
      ensures Valid() && old(sink) <= sink && |sink| <= |old(sink)| + 1
      ensures surface != PUBLIC || !options.armed || req.socket.None? ==> sink == old(sink)
      ensures
        match req.socket
        case None => clientIp == "unknown"
        case Some(socket) => clientIp == Charged(options, socket, req.forwarded)
    {
      if req.socket.None? {
        return "unknown";
      }
      var socket := req.socket.value;
      var resolved := ProxyAddr(Hops(socket, req.forwarded), options.trust);
      if surface == PUBLIC && options.armed {
        Watch(req, socket, resolved);
      }
      return Normalized(if !options.isIp(resolved) then socket else resolved);
    }

    method Watch(req: Request, socket: string, resolved: string)
      requires Valid()
      modifies `emitted, `sink
      ensures Valid()
      ensures
        var trust := options.trust;
        var raised :=
          if trust(socket, 0) && trust(resolved, 0) then [DECLARED_PROXY_WITHOUT_CLIENT]
          else if !trust(socket, 0) && options.localOrPrivate(socket, 0) && req.forwarded.Some?
          then [FORWARDED_FROM_UNDECLARED_LOCAL_SOURCE]
          else [];
        sink == if raised != [] && raised[0] !in old(sink) then old(sink) + raised else old(sink)
    {
      var trust := options.trust;
      if trust(socket, 0) && trust(resolved, 0) {
        Emit(DECLARED_PROXY_WITHOUT_CLIENT);
      } else if !trust(socket, 0) && options.localOrPrivate(socket, 0) && req.forwarded.Some? {
        Emit(FORWARDED_FROM_UNDECLARED_LOCAL_SOURCE);
      }
    }

    /** One signal a process and a signature: what the sink holds never repeats. */
    method Emit(signal: Signal)
      requires Valid()
      modifies `emitted, `sink
      ensures Valid()
      ensures sink == if signal in old(sink) then old(sink) else old(sink) + [signal]
    {
      if signal !in emitted {
        emitted := emitted + {signal};
        sink := sink + [signal];
      }
    }
  }

  /** Behind a socket that is not a declared proxy, no header changes the address charged. */
  lemma UndeclaredSocketFixesAddress(options: Options, socket: string, forwarded: Option<seq<string>>)
    requires !options.trust(socket, 0)
    ensures Charged(options, socket, forwarded) == Normalized(socket)
  {
    var hops := Hops(socket, forwarded);
    WalkIsDetermined(hops, options.trust, 0, Stop(hops, options.trust, 0));
  }

  /**
    The address charged is the socket's, or an IP literal every nearer hop of which is a
    trusted proxy: never a key the client made up.
   */
  lemma ChargedAddressIsVouchedFor(options: Options, socket: string, forwarded: Option<seq<string>>)
    ensures
      var hops := Hops(socket, forwarded);
      var at := Stop(hops, options.trust, 0);
      || Charged(options, socket, forwarded) == Normalized(socket)
      || (at > 0 && options.isIp(hops[at]) && Charged(options, socket, forwarded) == Normalized(hops[at])
          && forall j :: 0 <= j < at ==> options.trust(hops[j], j))
  {
  }
}
