/**
 src/docker/ports.rs: forwarding ports that were detected inside the container.
 */
module AutoPorts {
  import opened Text
  import opened Ports
  import opened ConfigTypes

  const DEFAULT_HOST_IP := "127.0.0.1"

  datatype Published = Published(container: u16, protocol: Protocol)

  datatype AutoInput = AutoInput(
    existing: seq<Forward>, published: seq<Published>, auto: AutoConfig,
    attributes: map<string, Attributes>, otherAttributes: Option<Attributes>, extra: seq<Reservation>)

  datatype AutoForward = AutoForward(port: Forward, onAutoForward: OnAutoForward)

  // ----- the detected ports as a set -----

  ghost predicate StrictlyAscending(s: seq<u16>) {
    forall i, j :: 0 <= i < j < |s| ==> s[i] < s[j]
  }

  ghost predicate Nondecreasing(s: seq<u16>) {
    forall i, j :: 0 <= i < j < |s| ==> s[i] <= s[j]
  }

  ghost predicate SameElements(a: seq<u16>, b: seq<u16>) {
    forall c: u16 :: c in a <==> c in b
  }

  function InsertDistinct(c: u16, s: seq<u16>): seq<u16> {
    if s == [] || c < s[0] then [c] + s else if c == s[0] then s else [s[0]] + InsertDistinct(c, s[1..])
  }

  /** The distinct ports of a list, in ascending order. */
  function SortedDistinct(xs: seq<u16>): seq<u16> {
    if xs == [] then [] else InsertDistinct(xs[0], SortedDistinct(xs[1..]))
  }

  lemma {:induction false} InsertDistinctAscends(c: u16, s: seq<u16>)
    requires StrictlyAscending(s)
    ensures StrictlyAscending(InsertDistinct(c, s))
    ensures forall d: u16 :: d in InsertDistinct(c, s) <==> d == c || d in s
  {
    if s != [] {
      assert s == [s[0]] + s[1..];
      if c > s[0] {
        InsertDistinctAscends(c, s[1..]);
        var rest := InsertDistinct(c, s[1..]);
        forall i | 0 <= i < |rest| ensures s[0] < rest[i] {
          assert rest[i] in rest;
          if rest[i] in s[1..] { var k :| 0 <= k < |s[1..]| && s[1..][k] == rest[i]; assert s[1 + k] == rest[i]; }
        }
      }
    }
  }

  lemma {:induction false} SortedDistinctAscends(xs: seq<u16>)
    ensures StrictlyAscending(SortedDistinct(xs)) && SameElements(SortedDistinct(xs), xs)
  {
    if xs != [] {
      SortedDistinctAscends(xs[1..]);
      InsertDistinctAscends(xs[0], SortedDistinct(xs[1..]));
      assert xs == [xs[0]] + xs[1..];
    }
  }

  lemma {:induction false} AscendingDetermined(a: seq<u16>, b: seq<u16>)
    requires StrictlyAscending(a) && StrictlyAscending(b) && SameElements(a, b)
    ensures a == b
  {
    assert a != [] ==> a[0] in b;
    assert b != [] ==> b[0] in a;
    if a != [] {
      assert a[0] == b[0];
      assert a == [a[0]] + a[1..] && b == [b[0]] + b[1..];
      forall c: u16 ensures c in a[1..] <==> c in b[1..] {
        assert c in a[1..] ==> c != a[0];
        assert c in b[1..] ==> c != b[0];
        assert c in a <==> c == a[0] || c in a[1..];
        assert c in b <==> c == b[0] || c in b[1..];
      }
      AscendingDetermined(a[1..], b[1..]);
    }
  }

  lemma InsertKeepsOrder(r: seq<u16>, at: nat, x: u16)
    requires at <= |r| && Nondecreasing(r)
    requires forall k :: 0 <= k < at ==> r[k] < x
    requires at < |r| ==> x <= r[at]
    ensures Nondecreasing(r[..at] + [x] + r[at..]) && SameElements(r[..at] + [x] + r[at..], r + [x])
  {
    assert r == r[..at] + r[at..];
  }

  /** `sort_unstable`, by insertion. */
  method SortUnstable(xs: seq<u16>) returns (r: seq<u16>)
    ensures Nondecreasing(r) && SameElements(r, xs)
  {
    r := [];
    for i := 0 to |xs|
      invariant Nondecreasing(r) && SameElements(r, xs[..i])
    {
      var at := 0;
      while at < |r| && r[at] < xs[i]
        invariant 0 <= at <= |r|
        invariant forall k :: 0 <= k < at ==> r[k] < xs[i]
      {
        at := at + 1;
      }
      assert xs[..i + 1] == xs[..i] + [xs[i]];
      InsertKeepsOrder(r, at, xs[i]);
      r := r[..at] + [xs[i]] + r[at..];
    }
    assert xs[..|xs|] == xs;
  }

  /** `dedup`: drops each element that repeats the one before it. */
  method Dedup(xs: seq<u16>) returns (r: seq<u16>)
    requires Nondecreasing(xs)
    ensures StrictlyAscending(r) && SameElements(r, xs)
  {
    r := [];
    for i := 0 to |xs|
      invariant StrictlyAscending(r) && SameElements(r, xs[..i])
      invariant forall k :: 0 <= k < |r| ==> r[k] <= (if i > 0 then xs[i - 1] else 0)
      invariant i > 0 ==> r != [] && r[|r| - 1] == xs[i - 1]
    {
      assert xs[..i + 1] == xs[..i] + [xs[i]];
      if r == [] || r[|r| - 1] != xs[i] {
        r := r + [xs[i]];
      }
    }
    assert xs[..|xs|] == xs;
  }

  // ----- which ports are forwarded -----

  function AttributesFor(input: AutoInput, c: u16): Option<Attributes> {
    if Dec(c) in input.attributes then Some(input.attributes[Dec(c)]) else input.otherAttributes
  }

  function ActionFor(input: AutoInput, c: u16): OnAutoForward {
    match AttributesFor(input, c)
    case Some(Attributes(_, Some(action), _)) => action
    case _ => input.auto.onAutoForward
  }

  predicate IsManual(input: AutoInput, c: u16) {
    exists i :: 0 <= i < |input.existing| && input.existing[i].container == c
  }

  predicate IsPublishedTcp(input: AutoInput, c: u16) {
    exists i :: 0 <= i < |input.published| && input.published[i] == Published(c, Tcp)
  }

  /** In range, not ignored, not forwarded by hand, not published over TCP, and not ignored by its attributes. */
  predicate Eligible(input: AutoInput, c: u16) {
    && input.auto.min <= c < input.auto.max
    && c !in input.auto.ignore && !IsManual(input, c) && !IsPublishedTcp(input, c)
    && ActionFor(input, c) != Ignore
  }

  function AutoRequest(input: AutoInput, c: u16): Request {
    var attributes := AttributesFor(input, c);
    Request(None, c, Some(c), DEFAULT_HOST_IP, Tcp,
            match attributes { case Some(Attributes(_, _, Some(required))) => required case _ => false },
            match attributes { case Some(a) => a.name case None => None })
  }

  function EligiblePorts(input: AutoInput, ports: seq<u16>): seq<u16> {
    if ports == [] then []
    else (if Eligible(input, ports[0]) then [ports[0]] else []) + EligiblePorts(input, ports[1..])
  }

  function AutoRequests(input: AutoInput, ports: seq<u16>): seq<Request> {
    seq(|ports|, i requires 0 <= i < |ports| => AutoRequest(input, ports[i]))
  }

  function WithActions(input: AutoInput, fs: seq<Forward>): seq<AutoForward> {
    seq(|fs|, i requires 0 <= i < |fs| => AutoForward(fs[i], ActionFor(input, fs[i].container)))
  }

  /** Allocates the eligible ports, in ascending order, after the existing forwards. */
  function AutoForwards(m: Host, input: AutoInput, detected: seq<u16>): Result<seq<AutoForward>> {
    if !input.auto.enabled then Ok([])
    else
      match Allocate(m, input.existing, input.extra,
                     AutoRequests(input, EligiblePorts(input, SortedDistinct(detected))))
      case Err => Err
      case Ok(fs) => Ok(WithActions(input, fs[|input.existing|..]))
  }

  /** `resolve_auto_forward_ports_inner`. */
  method ResolveAutoForwardPorts(m: Host, input: AutoInput, detected: seq<u16>) returns (r: Result<seq<AutoForward>>)
    ensures r == AutoForwards(m, input, detected)
  {
    if !input.auto.enabled {
      return Ok([]);
    }
    var sorted := SortUnstable(detected);
    var ports := Dedup(sorted);
    SortedDistinctAscends(detected);
    AscendingDetermined(ports, SortedDistinct(detected));

    r := ForwardEligible(m, input, ports);
  }

  /** The loop over the sorted ports: skip, or allocate the next host port. */
  method ForwardEligible(m: Host, input: AutoInput, ports: seq<u16>) returns (r: Result<seq<AutoForward>>)
    ensures r == match Allocate(m, input.existing, input.extra, AutoRequests(input, EligiblePorts(input, ports)))
                 case Err => Err
                 case Ok(fs) => Ok(WithActions(input, fs[|input.existing|..]))
  {
    var resolved, additions := input.existing, [];
    ghost var all := Allocate(m, input.existing, input.extra, AutoRequests(input, EligiblePorts(input, ports)));
    assert ports[0..] == ports;
    for i := 0 to |ports|
      invariant all == Allocate(m, resolved, input.extra, AutoRequests(input, EligiblePorts(input, ports[i..])))
      invariant |resolved| >= |input.existing| && additions == WithActions(input, resolved[|input.existing|..])
    {
      var c := ports[i];
      EligibleTurn(m, input, resolved, ports, i);
      if c < input.auto.min || c >= input.auto.max || c in input.auto.ignore {
        continue;
      }
      if IsManual(input, c) || IsPublishedTcp(input, c) {
        continue;
      }
      if ActionFor(input, c) == Ignore {
        continue;
      }
      var port := AutoRequest(input, c);
      var host := ResolveHostPort(m, Reservations(resolved) + input.extra, port.hostIp, c);
      match host {
        case Err => return Err;
        case Ok(h) =>
          resolved := resolved + [Granted(port, h)];
          additions := additions + [AutoForward(Granted(port, h), ActionFor(input, c))];
      }
    }
    assert EligiblePorts(input, ports[|ports|..]) == [];
    r := Ok(additions);
  }

  /** What one port contributes to the allocation. */
  lemma EligibleTurn(m: Host, input: AutoInput, resolved: seq<Forward>, ports: seq<u16>, i: nat)
    requires i < |ports|
    ensures var c, later := ports[i], AutoRequests(input, EligiblePorts(input, ports[i + 1..]));
            Allocate(m, resolved, input.extra, AutoRequests(input, EligiblePorts(input, ports[i..])))
            == if !Eligible(input, c) then Allocate(m, resolved, input.extra, later)
               else match Search(m, Reservations(resolved) + input.extra, DEFAULT_HOST_IP, c)
                    case Err => Err
                    case Ok(h) => Allocate(m, resolved + [Granted(AutoRequest(input, c), h)], input.extra, later)
  {
    var c, rest := ports[i], EligiblePorts(input, ports[i + 1..]);
    assert ports[i..][0] == c && ports[i..][1..] == ports[i + 1..];
    if Eligible(input, c) {
      assert AutoRequests(input, [c] + rest)[0] == AutoRequest(input, c);
      assert AutoRequests(input, [c] + rest)[1..] == AutoRequests(input, rest);
    } else {
      assert [] + rest == rest;
    }
  }

  // ----- exactness -----

  lemma {:induction false} EligibleExact(input: AutoInput, ports: seq<u16>)
    requires StrictlyAscending(ports)
    ensures StrictlyAscending(EligiblePorts(input, ports))
    ensures forall c: u16 :: c in EligiblePorts(input, ports) <==> c in ports && Eligible(input, c)
  {
    if ports != [] {
      var rest := EligiblePorts(input, ports[1..]);
      EligibleExact(input, ports[1..]);
      assert ports == [ports[0]] + ports[1..];
      forall i | 0 <= i < |rest| ensures ports[0] < rest[i] {
        assert rest[i] in ports[1..];
        var k :| 0 <= k < |ports[1..]| && ports[1..][k] == rest[i];
        assert ports[1 + k] == rest[i];
      }
    }
  }

  /** The container ports of an answer. */
  function Containers(additions: seq<AutoForward>): seq<u16> {
    seq(|additions|, i requires 0 <= i < |additions| => additions[i].port.container)
  }

  function Forwards(additions: seq<AutoForward>): seq<Forward> {
    seq(|additions|, i requires 0 <= i < |additions| => additions[i].port)
  }

  lemma EarlierForwards(input: AutoInput, fs: seq<Forward>, j: nat)
    requires |input.existing| + j <= |fs| && fs[..|input.existing|] == input.existing
    ensures fs[..|input.existing| + j]
            == input.existing + Forwards(WithActions(input, fs[|input.existing|..])[..j])
  {
    var n, later := |input.existing|, Forwards(WithActions(input, fs[|input.existing|..])[..j]);
    assert fs[..n + j] == fs[..n] + fs[n..][..j];
    assert later == fs[n..][..j];
  }

  /**
   The answer is one addition per eligible port, in ascending order of the ports. Each has the action of its
   attributes and the least host port that is usable beside the existing forwards, the additions before it and
   the reservations.
   */
  lemma AutoForwardingExact(m: Host, input: AutoInput, detected: seq<u16>)
    requires input.auto.enabled && AutoForwards(m, input, detected).Ok?
    ensures var additions := AutoForwards(m, input, detected).value;
            && StrictlyAscending(Containers(additions))
            && (forall c: u16 :: c in Containers(additions) <==> c in detected && Eligible(input, c))
            && (forall i :: 0 <= i < |additions| ==>
                  var a := additions[i];
                  && a.onAutoForward == ActionFor(input, a.port.container)
                  && Minimal(m, Reservations(input.existing + Forwards(additions[..i])) + input.extra,
                             AutoRequest(input, a.port.container), a.port))
  {
    var ports := EligiblePorts(input, SortedDistinct(detected));
    SortedDistinctAscends(detected);
    EligibleExact(input, SortedDistinct(detected));
    var additions := AutoForwards(m, input, detected).value;
    forall j | 0 <= j < |additions|
      ensures additions[j].port.container == ports[j]
      ensures Minimal(m, Reservations(input.existing + Forwards(additions[..j])) + input.extra,
                      AutoRequest(input, ports[j]), additions[j].port)
    {
      AdditionIsMinimal(m, input, detected, j);
    }
    assert Containers(additions) == ports;
  }

  lemma AdditionIsMinimal(m: Host, input: AutoInput, detected: seq<u16>, j: nat)
    requires input.auto.enabled && AutoForwards(m, input, detected).Ok?
    requires j < |AutoForwards(m, input, detected).value|
    ensures var ports := EligiblePorts(input, SortedDistinct(detected));
            var additions := AutoForwards(m, input, detected).value;
            && |ports| == |additions| && additions[j].port.container == ports[j]
            && Minimal(m, Reservations(input.existing + Forwards(additions[..j])) + input.extra,
                       AutoRequest(input, ports[j]), additions[j].port)
  {
    var ports := EligiblePorts(input, SortedDistinct(detected));
    var fs, n := AdditionAt(m, input, detected, j);
    EarlierForwards(input, fs, j);
    SearchMinimal(m, Reservations(fs[..n + j]) + input.extra, AutoRequest(input, ports[j]), fs[n + j].host);
  }

  /** The addition at `j` is the grant of the `j`-th eligible port, behind the existing forwards. */
  lemma AdditionAt(m: Host, input: AutoInput, detected: seq<u16>, j: nat) returns (fs: seq<Forward>, n: nat)
    requires input.auto.enabled && AutoForwards(m, input, detected).Ok?
    requires j < |AutoForwards(m, input, detected).value|
    ensures var ports := EligiblePorts(input, SortedDistinct(detected));
            var additions := AutoForwards(m, input, detected).value;
            && n == |input.existing| && |additions| == |ports| && |fs| == n + |ports|
            && fs[..n] == input.existing && additions == WithActions(input, fs[n..])
            && GrantedAt(m, fs, input.extra, n + j, AutoRequest(input, ports[j]))
  {
    var ports := EligiblePorts(input, SortedDistinct(detected));
    n, fs := |input.existing|, Allocate(m, input.existing, input.extra, AutoRequests(input, ports)).value;
    GrantOfRequest(m, input, ports, fs, j);
  }

  lemma GrantOfRequest(m: Host, input: AutoInput, ports: seq<u16>, fs: seq<Forward>, j: nat)
    requires j < |ports| && Allocate(m, input.existing, input.extra, AutoRequests(input, ports)) == Ok(fs)
    ensures fs[..|input.existing|] == input.existing
    ensures GrantedAt(m, fs, input.extra, |input.existing| + j, AutoRequest(input, ports[j]))
  {
    var requests := AutoRequests(input, ports);
    AllocationSound(m, input.existing, input.extra, requests);
    assert requests[j] == AutoRequest(input, ports[j]);
  }

  /** No two real host ports conflict: among the additions, with an existing forward, or with a reservation. */
  lemma AutoForwardingConflictFree(m: Host, input: AutoInput, detected: seq<u16>)
    requires input.auto.enabled && AutoForwards(m, input, detected).Ok?
    ensures var additions := AutoForwards(m, input, detected).value;
            && (forall i, j :: 0 <= i < j < |additions| ==> Compatible(m, additions[i].port, additions[j].port))
            && (forall i, j :: 0 <= i < |input.existing| && 0 <= j < |additions| ==>
                  Compatible(m, input.existing[i], additions[j].port))
            && (forall j :: 0 <= j < |additions| && additions[j].port.host != 0 ==>
                  !Reserved(m, input.extra, additions[j].port.hostIp, additions[j].port.host))
  {
    var additions := AutoForwards(m, input, detected).value;
    forall i, j | 0 <= i < j < |additions| ensures Compatible(m, additions[i].port, additions[j].port) {
      var fs, n := AdditionAt(m, input, detected, j);
      assert additions[i].port == fs[n + i];
    }
    forall i, j | 0 <= i < |input.existing| && 0 <= j < |additions|
      ensures Compatible(m, input.existing[i], additions[j].port)
    {
      var fs, n := AdditionAt(m, input, detected, j);
      assert fs[i] == fs[..n][i];
    }
    forall j | 0 <= j < |additions| && additions[j].port.host != 0
      ensures !Reserved(m, input.extra, additions[j].port.hostIp, additions[j].port.host)
    {
      var _, _ := AdditionAt(m, input, detected, j);
    }
  }

  /** Order and repetition of the detected ports do not matter. */
  lemma AutoForwardingOrderInsensitive(m: Host, input: AutoInput, a: seq<u16>, b: seq<u16>)
    requires SameElements(a, b)
    ensures AutoForwards(m, input, a) == AutoForwards(m, input, b)
  {
    SortedDistinctAscends(a);
    SortedDistinctAscends(b);
    AscendingDetermined(SortedDistinct(a), SortedDistinct(b));
  }
}
