/**
 src/docker/ports.rs: choosing host ports for forwarded container ports.

 `Host` is the machine for the duration of one call: how it reads an IP address and what binding a port
 reports. An error other than "address in use" aborts the call (`Broken`).
 */
module Ports {
  import opened Text
  import opened ConfigTypes

  datatype Ip = V4(bits: nat) | V6(bits: nat)
  datatype Probe = Free | Busy | Broken
  datatype Host = Host(parse: string -> Option<Ip>, probe: (string, u16) -> Probe)

  datatype Forward = Forward(
    service: Option<string>, container: u16, requestedHost: u16, host: u16, hostIp: string, protocol: Protocol,
    requireLocal: bool, name: Option<string>)

  datatype Reservation = Reservation(hostIp: string, host: u16)

  // ----- the conflict relation -----

  /** `host_ip_bindings_conflict`: equal texts, or a wildcard against any address of its family. */
  predicate BindingsConflict(m: Host, left: string, right: string) {
    || left == right
    || (match (m.parse(left), m.parse(right))
        case (Some(V4(a)), Some(V4(b))) => a == 0 || b == 0
        case (Some(V6(a)), Some(V6(b))) => a == 0 || b == 0
        case _ => false)
  }

  lemma ConflictSymmetric(m: Host, left: string, right: string)
    ensures BindingsConflict(m, left, right) == BindingsConflict(m, right, left)
  {
  }

  /** Two specific addresses both conflict with the wildcard, and not with each other. */
  lemma ConflictNotTransitive(m: Host, a: string, wildcard: string, b: string)
    requires a != b && m.parse(wildcard) == Some(V4(0))
    requires m.parse(a) == Some(V4(0x7F00_0001)) && m.parse(b) == Some(V4(0x0A00_0001))
    ensures BindingsConflict(m, a, wildcard) && BindingsConflict(m, wildcard, b) && !BindingsConflict(m, a, b)
  {
  }

  predicate Clashes(m: Host, r: Reservation, ip: string, port: u16) {
    r.host == port && BindingsConflict(m, r.hostIp, ip)
  }

  /** `host_port_reservations_conflict`. */
  predicate Reserved(m: Host, rs: seq<Reservation>, ip: string, port: u16) {
    exists i :: 0 <= i < |rs| && Clashes(m, rs[i], ip, port)
  }

  // ----- one host port -----

  predicate Blocked(m: Host, rs: seq<Reservation>, ip: string, port: u16) {
    Reserved(m, rs, ip, port) || m.probe(ip, port) == Busy
  }

  predicate Usable(m: Host, rs: seq<Reservation>, ip: string, port: u16) {
    !Reserved(m, rs, ip, port) && m.probe(ip, port) == Free
  }

  /** The first port at or above `start` that is not blocked decides; 0 if there is none. */
  function Search(m: Host, rs: seq<Reservation>, ip: string, start: u16): Result<u16>
    decreases 0x1_0000 - start
  {
    if Blocked(m, rs, ip, start) then
      if start + 1 < 0x1_0000 then Search(m, rs, ip, start + 1) else Ok(0)
    else if m.probe(ip, start) == Free then Ok(start)
    else Err
  }

  ghost predicate AllBlocked(m: Host, rs: seq<Reservation>, ip: string, low: nat, high: nat)
    requires high <= 0x1_0000
  {
    forall c: u16 :: low <= c < high ==> Blocked(m, rs, ip, c)
  }

  /** `h` is the least usable port from `start` on, and nothing below it aborts the search. */
  ghost predicate LeastUsable(m: Host, rs: seq<Reservation>, ip: string, start: u16, h: u16) {
    start <= h && Usable(m, rs, ip, h) && AllBlocked(m, rs, ip, start, h)
  }

  /** The search result, both ways: the least usable port, the fallback 0, or an abort. */
  lemma {:induction false} SearchIsLeast(m: Host, rs: seq<Reservation>, ip: string, start: u16)
    ensures forall h: u16 :: h != 0 || start == 0 ==>
              (Search(m, rs, ip, start) == Ok(h)
               <==> LeastUsable(m, rs, ip, start, h) || (h == 0 && AllBlocked(m, rs, ip, start, 0x1_0000)))
    ensures start != 0 ==> (Search(m, rs, ip, start) == Ok(0) <==> AllBlocked(m, rs, ip, start, 0x1_0000))
    ensures Search(m, rs, ip, start) == Err
            <==> exists c: u16 ::
                   start <= c && AllBlocked(m, rs, ip, start, c) && !Blocked(m, rs, ip, c) && !Usable(m, rs, ip, c)
    decreases 0x1_0000 - start
  {
    assert AllBlocked(m, rs, ip, start, start);
    if Blocked(m, rs, ip, start) && start + 1 < 0x1_0000 {
      SearchIsLeast(m, rs, ip, start + 1);
      assert forall h: u16 :: start < h ==> (AllBlocked(m, rs, ip, start, h) <==> AllBlocked(m, rs, ip, start + 1, h));
      assert AllBlocked(m, rs, ip, start, 0x1_0000) <==> AllBlocked(m, rs, ip, start + 1, 0x1_0000);
    }
  }

  /** `resolve_host_port`. */
  method ResolveHostPort(m: Host, rs: seq<Reservation>, ip: string, start: u16) returns (r: Result<u16>)
    ensures r == Search(m, rs, ip, start)
  {
    var candidate: int := start;
    while true
      invariant start <= candidate < 0x1_0000
      invariant Search(m, rs, ip, start) == Search(m, rs, ip, candidate)
      decreases 0x1_0000 - candidate
    {
      if !Reserved(m, rs, ip, candidate) {
        match m.probe(ip, candidate) {
          case Free => return Ok(candidate);
          case Broken => return Err;
          case Busy =>
        }
      }
      if candidate + 1 < 0x1_0000 {
        candidate := candidate + 1;
      } else {
        return Ok(0);
      }
    }
  }

  // ----- forwarded ports -----

  function Reservations(fs: seq<Forward>): seq<Reservation> {
    seq(|fs|, i requires 0 <= i < |fs| => Reservation(fs[i].hostIp, fs[i].host))
  }

  function StartHost(p: Request): u16 {
    match p.host
    case Some(h) => h
    case None => p.container
  }

  function Granted(p: Request, host: u16): Forward {
    Forward(p.service, p.container, StartHost(p), host, p.hostIp, p.protocol, p.requireLocal, p.name)
  }

  /** Serves the requests in order, each against what is already resolved and the extra reservations. */
  function Allocate(m: Host, resolved: seq<Forward>, extra: seq<Reservation>, requests: seq<Request>)
    : (r: Result<seq<Forward>>)
    ensures r.Ok? ==> |r.value| == |resolved| + |requests|
    decreases |requests|
  {
    if requests == [] then Ok(resolved)
    else
      match Search(m, Reservations(resolved) + extra, requests[0].hostIp, StartHost(requests[0]))
      case Err => Err
      case Ok(host) => Allocate(m, resolved + [Granted(requests[0], host)], extra, requests[1..])
  }

  /** `resolve_forward_ports_inner`. */
  method ResolveForwardPorts(m: Host, requests: seq<Request>, extra: seq<Reservation>) returns (r: Result<seq<Forward>>)
    ensures r == Allocate(m, [], extra, requests)
  {
    var resolved := [];
    assert requests[0..] == requests;
    for i := 0 to |requests|
      invariant Allocate(m, [], extra, requests) == Allocate(m, resolved, extra, requests[i..])
    {
      assert requests[i..][1..] == requests[i + 1..];
      var host := ResolveHostPort(m, Reservations(resolved) + extra, requests[i].hostIp, StartHost(requests[i]));
      match host {
        case Err => return Err;
        case Ok(h) => resolved := resolved + [Granted(requests[i], h)];
      }
    }
    r := Ok(resolved);
  }

  /** Two results that both hold a real port never conflict. */
  predicate Compatible(m: Host, a: Forward, b: Forward) {
    a.host == 0 || b.host == 0 || !(a.host == b.host && BindingsConflict(m, a.hostIp, b.hostIp))
  }

  /** The result at `j` honours everything granted before it and every extra reservation. */
  ghost predicate Sound(m: Host, fs: seq<Forward>, extra: seq<Reservation>, j: nat)
    requires j < |fs|
  {
    && (forall i :: 0 <= i < j ==> Compatible(m, fs[i], fs[j]))
    && (fs[j].host != 0 ==> !Reserved(m, extra, fs[j].hostIp, fs[j].host))
  }

  lemma SearchAvoidsReserved(m: Host, rs: seq<Reservation>, ip: string, start: u16)
    ensures match Search(m, rs, ip, start) case Ok(h) => h == 0 || !Reserved(m, rs, ip, h) case Err => true
  {
    SearchIsLeast(m, rs, ip, start);
  }

  lemma ReservedParts(m: Host, a: seq<Reservation>, b: seq<Reservation>, ip: string, port: u16)
    ensures Reserved(m, a + b, ip, port) <==> Reserved(m, a, ip, port) || Reserved(m, b, ip, port)
  {
    if Reserved(m, a, ip, port) {
      var i :| 0 <= i < |a| && Clashes(m, a[i], ip, port);
      assert Clashes(m, (a + b)[i], ip, port);
    }
    if Reserved(m, b, ip, port) {
      var i :| 0 <= i < |b| && Clashes(m, b[i], ip, port);
      assert Clashes(m, (a + b)[|a| + i], ip, port);
    }
  }

  lemma GrantIsSound(m: Host, resolved: seq<Forward>, extra: seq<Reservation>, p: Request, host: u16)
    requires Search(m, Reservations(resolved) + extra, p.hostIp, StartHost(p)) == Ok(host)
    ensures Sound(m, resolved + [Granted(p, host)], extra, |resolved|)
  {
    SearchAvoidsReserved(m, Reservations(resolved) + extra, p.hostIp, StartHost(p));
    ReservedParts(m, Reservations(resolved), extra, p.hostIp, host);
    forall i | 0 <= i < |resolved| ensures Compatible(m, resolved[i], Granted(p, host)) {
      if host != 0 {
        assert !Clashes(m, Reservations(resolved)[i], p.hostIp, host);
      }
    }
  }

  /** The result at `j` is what request `p` is granted after everything before it, and is sound. */
  ghost predicate GrantedAt(m: Host, fs: seq<Forward>, extra: seq<Reservation>, j: nat, p: Request)
    requires j < |fs|
  {
    && fs[j] == Granted(p, fs[j].host)
    && Search(m, Reservations(fs[..j]) + extra, p.hostIp, StartHost(p)) == Ok(fs[j].host)
    && Sound(m, fs, extra, j)
  }

  lemma GrantStays(m: Host, resolved: seq<Forward>, extra: seq<Reservation>, p: Request, host: u16, fs: seq<Forward>)
    requires Search(m, Reservations(resolved) + extra, p.hostIp, StartHost(p)) == Ok(host)
    requires |fs| > |resolved| && fs[..|resolved| + 1] == resolved + [Granted(p, host)]
    ensures fs[..|resolved|] == resolved && GrantedAt(m, fs, extra, |resolved|, p)
  {
    var n, next := |resolved|, resolved + [Granted(p, host)];
    GrantIsSound(m, resolved, extra, p, host);
    assert fs[..n] == fs[..n + 1][..n] == resolved;
    assert fs[n] == fs[..n + 1][n] == next[n];
    assert forall i :: 0 <= i < n ==> fs[i] == fs[..n + 1][i] == next[i];
  }

  /** Behind the first `n` results there is one grant per request. */
  ghost predicate AllGranted(m: Host, fs: seq<Forward>, extra: seq<Reservation>, n: nat, requests: seq<Request>) {
    |fs| == n + |requests| && forall j :: 0 <= j < |requests| ==> GrantedAt(m, fs, extra, n + j, requests[j])
  }

  lemma {:induction false} AllocationExtends(
    m: Host, resolved: seq<Forward>, extra: seq<Reservation>, requests: seq<Request>, fs: seq<Forward>)
    requires Allocate(m, resolved, extra, requests) == Ok(fs)
    ensures fs[..|resolved|] == resolved
    decreases |requests|
  {
    if requests != [] {
      var host := FirstAllocation(m, resolved, extra, requests);
      var next := resolved + [Granted(requests[0], host)];
      AllocationExtends(m, next, extra, requests[1..], fs);
      assert fs[..|resolved|] == fs[..|next|][..|resolved|] == next[..|resolved|] == resolved;
    }
  }

  lemma {:induction false} AllocationGrants(
    m: Host, resolved: seq<Forward>, extra: seq<Reservation>, requests: seq<Request>, fs: seq<Forward>)
    requires Allocate(m, resolved, extra, requests) == Ok(fs)
    ensures AllGranted(m, fs, extra, |resolved|, requests)
    decreases |requests|
  {
    if requests != [] {
      var host := FirstAllocation(m, resolved, extra, requests);
      var next := resolved + [Granted(requests[0], host)];
      AllocationExtends(m, next, extra, requests[1..], fs);
      GrantStays(m, resolved, extra, requests[0], host, fs);
      AllocationGrants(m, next, extra, requests[1..], fs);
      LaterGrants(m, fs, extra, |resolved|, requests);
    }
  }

  /** An allocation extends what was resolved before, with one sound grant per request. */
  lemma AllocationSound(m: Host, resolved: seq<Forward>, extra: seq<Reservation>, requests: seq<Request>)
    requires Allocate(m, resolved, extra, requests).Ok?
    ensures Allocate(m, resolved, extra, requests).value[..|resolved|] == resolved
    ensures AllGranted(m, Allocate(m, resolved, extra, requests).value, extra, |resolved|, requests)
  {
    AllocationExtends(m, resolved, extra, requests, Allocate(m, resolved, extra, requests).value);
    AllocationGrants(m, resolved, extra, requests, Allocate(m, resolved, extra, requests).value);
  }

  lemma FirstAllocation(m: Host, resolved: seq<Forward>, extra: seq<Reservation>, requests: seq<Request>)
    returns (host: u16)
    requires requests != [] && Allocate(m, resolved, extra, requests).Ok?
    ensures Search(m, Reservations(resolved) + extra, requests[0].hostIp, StartHost(requests[0])) == Ok(host)
    ensures Allocate(m, resolved, extra, requests)
            == Allocate(m, resolved + [Granted(requests[0], host)], extra, requests[1..])
  {
    host := Search(m, Reservations(resolved) + extra, requests[0].hostIp, StartHost(requests[0])).value;
  }

  lemma LaterGrants(m: Host, fs: seq<Forward>, extra: seq<Reservation>, n: nat, requests: seq<Request>)
    requires requests != [] && |fs| == n + |requests| && GrantedAt(m, fs, extra, n, requests[0])
    requires AllGranted(m, fs, extra, n + 1, requests[1..])
    ensures AllGranted(m, fs, extra, n, requests)
  {
    forall j | 0 < j < |requests| ensures GrantedAt(m, fs, extra, n + j, requests[j]) {
      assert requests[j] == requests[1..][j - 1] && n + j == n + 1 + (j - 1);
    }
  }

  /** The port granted to request `p`, against `rs`, is the least usable one; 0 means that none was left. */
  ghost predicate Minimal(m: Host, rs: seq<Reservation>, p: Request, f: Forward) {
    && f == Granted(p, f.host)
    && (f.host != 0 ==> LeastUsable(m, rs, p.hostIp, StartHost(p), f.host))
    && (StartHost(p) != 0 ==> (f.host == 0 <==> AllBlocked(m, rs, p.hostIp, StartHost(p), 0x1_0000)))
  }

  /**
   Forward-port allocation is conflict-free and minimal: no two real host ports conflict, none conflicts with
   an extra reservation, and each is the least usable port from its request on, with 0 only when every port
   from the request to 65535 is blocked.
   */
  lemma ForwardPortsConflictFreeAndMinimal(m: Host, requests: seq<Request>, extra: seq<Reservation>)
    requires Allocate(m, [], extra, requests).Ok?
    ensures var fs := Allocate(m, [], extra, requests).value;
            && |fs| == |requests|
            && (forall i, j :: 0 <= i < j < |fs| ==> Compatible(m, fs[i], fs[j]))
            && (forall j :: 0 <= j < |fs| && fs[j].host != 0 ==> !Reserved(m, extra, fs[j].hostIp, fs[j].host))
            && (forall j :: 0 <= j < |fs| ==> Minimal(m, Reservations(fs[..j]) + extra, requests[j], fs[j]))
  {
    AllocationSound(m, [], extra, requests);
    var fs := Allocate(m, [], extra, requests).value;
    forall j | 0 <= j < |fs|
      ensures Sound(m, fs, extra, j) && Minimal(m, Reservations(fs[..j]) + extra, requests[j], fs[j])
    {
      assert GrantedAt(m, fs, extra, 0 + j, requests[j]);
      SearchMinimal(m, Reservations(fs[..j]) + extra, requests[j], fs[j].host);
    }
  }

  lemma SearchMinimal(m: Host, rs: seq<Reservation>, p: Request, host: u16)
    requires Search(m, rs, p.hostIp, StartHost(p)) == Ok(host)
    ensures Minimal(m, rs, p, Granted(p, host))
  {
    SearchIsLeast(m, rs, p.hostIp, StartHost(p));
  }

  /** Allocating in two goes is allocating in one. */
  lemma {:induction false} AllocationConcat(
    m: Host, resolved: seq<Forward>, extra: seq<Reservation>, a: seq<Request>, b: seq<Request>)
    ensures Allocate(m, resolved, extra, a + b)
            == match Allocate(m, resolved, extra, a) case Err => Err case Ok(fs) => Allocate(m, fs, extra, b)
    decreases |a|
  {
    if a == [] {
      assert a + b == b;
    } else {
      assert (a + b)[0] == a[0] && (a + b)[1..] == a[1..] + b;
      match Search(m, Reservations(resolved) + extra, a[0].hostIp, StartHost(a[0]))
      case Err =>
      case Ok(host) => AllocationConcat(m, resolved + [Granted(a[0], host)], extra, a[1..], b);
    }
  }

  /** Later requests never change what earlier ones were given. */
  lemma AllocationOfPrefix(m: Host, extra: seq<Reservation>, a: seq<Request>, b: seq<Request>)
    requires Allocate(m, [], extra, a + b).Ok?
    ensures |Allocate(m, [], extra, a + b).value| == |a| + |b|
    ensures Allocate(m, [], extra, a) == Ok(Allocate(m, [], extra, a + b).value[..|a|])
  {
    AllocationConcat(m, [], extra, a, b);
    var fs := Allocate(m, [], extra, a).value;
    AllocationSound(m, [], extra, a);
    AllocationSound(m, fs, extra, b);
  }
}
