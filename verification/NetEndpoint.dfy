/** Network endpoints: asynchronous name resolution, falling back from one address to the next, and
    a close or free that may come before the resolver's callback.  The process-wide state is one
    object; an endpoint pointer of the code is an index into its table. */
module NetEndpoint {
  import opened Common

  const RESOLUTION_LIMIT: nat := 1024
  const ADDRESS_LIMIT: nat := 4096

  /** libuv's negative status codes, as far as the code itself chooses them. */
  const UV_EINVAL: int := -22
  const UV_E2BIG: int := -7
  const UV_ENOBUFS: int := -105
  const UV_EADDRNOTAVAIL: int := -99
  const UV_ECANCELED: int := -125

  datatype Family = Inet4 | Inet6 | OtherFamily

  datatype Address = Address(family: Family, id: int)

  /** Errors are translated to negative codes. */
  type Error = n: int | n < 0 witness -1

  /** How the kernel answers an attempt: no socket at all, or a socket that is bound or connected,
      or still connecting, or refused. */
  datatype Attempt = NoSocket(error: Error) | Ready | InProgress | Refused(error: Error)

  /** What `poll` and `SO_ERROR` say about a connecting socket. */
  datatype PollAnswer = Pending | Connected | Broken(error: Error)

  /** The status an attempt leaves: ready, connecting, or an error.  A listener is never connecting. */
  function AttemptStatus(listener: bool, a: Attempt): (status: int)
    ensures status <= 1
    ensures listener ==> status != 0
  {
    match a
    case NoSocket(error) => error
    case Refused(error) => error
    case Ready => 1
    case InProgress => if listener then UV_EADDRNOTAVAIL else 0
  }

  /** The kernel's answers are a script; beyond its end every connection is in progress. */
  function AnswerAt(attempts: seq<Attempt>, k: nat): Attempt {
    if k < |attempts| then attempts[k] else InProgress
  }

  function Skip<T>(s: seq<T>, k: nat): seq<T> {
    if k <= |s| then s[k..] else []
  }

  lemma SkipOne(attempts: seq<Attempt>, k: nat)
    ensures Skip(Skip(attempts, k), 1) == Skip(attempts, k + 1)
    ensures AnswerAt(Skip(attempts, k), 0) == AnswerAt(attempts, k)
  {
  }

  /** `offered` is the list of addresses handed to the endpoint and `tried` those for which a
      socket was attempted; `frees` counts deallocations. */
  datatype Endpoint = Endpoint(
    listener: bool, descriptor: Option<nat>, status: int,
    resolving: bool, closed: bool, released: bool,
    next: seq<Address>, offered: seq<Address>, tried: seq<Address>, frees: nat)

  function Usable(addresses: seq<Address>): seq<Address> {
    if addresses == [] then []
    else if addresses[0].family.OtherFamily? then Usable(addresses[1..])
    else [addresses[0]] + Usable(addresses[1..])
  }

  /** The addresses of the two families are kept, and no others. */
  lemma {:induction false} UsableKeepsInternet(addresses: seq<Address>, a: Address)
    ensures a in Usable(addresses) <==> a in addresses && (a.family.Inet4? || a.family.Inet6?)
  {
    if addresses != [] {
      UsableKeepsInternet(addresses[1..], a);
      assert addresses == [addresses[0]] + addresses[1..];
    }
  }

  /** They are kept in order, each as often as it comes. */
  lemma {:induction false} UsableKeepsOrder(addresses: seq<Address>, other: seq<Address>)
    ensures Usable(addresses + other) == Usable(addresses) + Usable(other)
  {
    if addresses == [] {
      assert addresses + other == other;
    } else {
      UsableKeepsOrder(addresses[1..], other);
      assert (addresses + other)[1..] == addresses[1..] + other;
    }
  }

  /** Addresses are tried in order and at most once. */
  ghost predicate TriedInOrder(e: Endpoint) {
    e.tried + Usable(e.next) <= Usable(e.offered)
  }

  /** Every usable address has been tried or is still to come. */
  ghost predicate NoneIsLost(e: Endpoint) {
    e.tried + Usable(e.next) == Usable(e.offered)
  }

  ghost predicate EndpointInv(e: Endpoint) {
    && e.status <= 1
    && (e.status == 0 ==> !e.closed && (e.resolving <==> e.descriptor.None?))
    && (e.status == 0 ==> NoneIsLost(e))
    && (e.status == 1 ==> e.descriptor.Some? && !e.resolving && !e.closed && e.next == [])
    && (e.status < 0 ==> e.descriptor.None? && (e.resolving ==> e.closed) && e.next == [])
    && (e.resolving ==> e.next == [] && e.tried == [] && e.offered == [])
    && (e.released ==> e.closed)
    && (e.closed ==> e.status < 0)
    && TriedInOrder(e)
    && e.frees == (if e.released && !e.resolving then 1 else 0)
  }

  function Forget(e: Endpoint): Endpoint {
    e.(next := [])
  }

  lemma ForgetKeepsOrder(e: Endpoint)
    requires TriedInOrder(e)
    ensures TriedInOrder(Forget(e))
  {
    assert e.tried + [] == e.tried;
  }

  lemma UsableTail(e: Endpoint)
    requires e.next != [] && TriedInOrder(e)
    ensures var tried := if e.next[0].family.OtherFamily? then e.tried else e.tried + [e.next[0]];
            && tried + Usable(e.next[1..]) == e.tried + Usable(e.next)
            && TriedInOrder(e.(next := e.next[1..], tried := tried))
  {
    if !e.next[0].family.OtherFamily? {
      assert e.tried + ([e.next[0]] + Usable(e.next[1..])) == (e.tried + [e.next[0]]) + Usable(e.next[1..]);
    }
  }

  /** `f` is what walking down the addresses of `e` comes to under these answers of the kernel: they
      are tried in order up to the first that is ready or connecting, whose status is kept; if none
      is, all usable ones have been tried, and the last error (at first `error`) is kept.  While one is
      connecting, those after it are still to come. */
  ghost predicate Walked(e: Endpoint, f: Endpoint, error: int, attempts: seq<Attempt>) {
    var k := |f.tried| - |e.tried|;
    && e.tried <= f.tried <= e.tried + Usable(e.next)
    && (forall j :: 0 <= j < k - 1 ==> AttemptStatus(e.listener, AnswerAt(attempts, j)) < 0)
    && f.status == (if k == 0 then error else AttemptStatus(e.listener, AnswerAt(attempts, k - 1)))
    && (f.status < 0 ==> f.tried == e.tried + Usable(e.next))
    && (f.status == 0 ==> f.tried + Usable(f.next) == e.tried + Usable(e.next))
    && (f.descriptor.Some? <==> f.status >= 0)
  }

  /** The walk has tried `k` addresses, none of them with success, and stands at `f`. */
  ghost predicate Walking(e: Endpoint, f: Endpoint, error: int, k: nat, attempts: seq<Attempt>) {
    && f == e.(status := f.status, next := f.next, tried := f.tried)
    && f.status < 0 && TriedInOrder(f)
    && e.tried <= f.tried && |f.tried| == |e.tried| + k
    && f.tried + Usable(f.next) == e.tried + Usable(e.next)
    && (forall j :: 0 <= j < k ==> AttemptStatus(e.listener, AnswerAt(attempts, j)) < 0)
    && f.status == (if k == 0 then error else AttemptStatus(e.listener, AnswerAt(attempts, k - 1)))
  }

  lemma WalkSkips(e: Endpoint, f: Endpoint, error: int, k: nat, attempts: seq<Attempt>)
    requires Walking(e, f, error, k, attempts) && f.next != [] && f.next[0].family.OtherFamily?
    ensures Walking(e, f.(next := f.next[1..]), error, k, attempts)
  {
  }

  lemma WalkTries(e: Endpoint, f: Endpoint, g: Endpoint, error: int, k: nat, attempts: seq<Attempt>)
    requires Walking(e, f, error, k, attempts) && f.next != [] && !f.next[0].family.OtherFamily?
    requires g == f.(next := f.next[1..], tried := f.tried + [f.next[0]], descriptor := g.descriptor,
                     status := AttemptStatus(e.listener, AnswerAt(attempts, k)))
    requires g.descriptor.Some? <==> g.status >= 0
    ensures g.status < 0 && f.descriptor.None? ==> Walking(e, g, error, k + 1, attempts)
    ensures g.status >= 0 ==> Walked(e, g, error, attempts) && TriedInOrder(g) && TriedInOrder(Forget(g))
    ensures g.status != 0 ==> (Walked(e, g, error, attempts) <==> Walked(e, Forget(g), error, attempts))
    ensures NoneIsLost(e) ==> NoneIsLost(g)
  {
    UsableTail(f);
    assert g.tried <= g.tried + Usable(g.next);
    if TriedInOrder(g) { ForgetKeepsOrder(g); }
  }

  lemma WalkEnds(e: Endpoint, f: Endpoint, error: int, k: nat, attempts: seq<Attempt>)
    requires Walking(e, f, error, k, attempts) && f.next == [] && f.descriptor.None?
    ensures Walked(e, Forget(f), error, attempts) && TriedInOrder(Forget(f))
  {
    assert f.tried + [] == f.tried;
  }

  // ---------- who owns which descriptor ----------

  ghost predicate Owner(endpoints: seq<Endpoint>, fd: nat) {
    exists i :: 0 <= i < |endpoints| && endpoints[i].descriptor == Some(fd)
  }

  ghost predicate OwnsExactly(endpoints: seq<Endpoint>, open: set<nat>) {
    && (forall i :: 0 <= i < |endpoints| && endpoints[i].descriptor.Some? ==> endpoints[i].descriptor.value in open)
    && (forall i, j :: 0 <= i < j < |endpoints| && endpoints[i].descriptor.Some? ==>
          endpoints[i].descriptor != endpoints[j].descriptor)
    && (forall fd :: fd in open ==> Owner(endpoints, fd))
  }

  /** The open set that goes with replacing one endpoint's descriptor. */
  function Exchanged(open: set<nat>, before: Option<nat>, after: Option<nat>): set<nat> {
    var rest := if before.Some? then open - {before.value} else open;
    if after.Some? then rest + {after.value} else rest
  }

  /** Descriptors that belong to no endpoint are not touched by an exchange. */
  lemma ExchangedBeside(open: set<nat>, others: set<nat>, before: Option<nat>, after: Option<nat>)
    requires others <= open && (before.Some? ==> before.value in open - others)
    requires after.Some? && after != before ==> after.value !in open
    ensures others <= Exchanged(open, before, after)
    ensures Exchanged(open - others, before, after) == Exchanged(open, before, after) - others
  {
  }

  lemma OwnershipUpdate(endpoints: seq<Endpoint>, open: set<nat>, i: nat, e: Endpoint)
    requires OwnsExactly(endpoints, open) && i < |endpoints|
    requires e.descriptor.Some? && e.descriptor != endpoints[i].descriptor ==> e.descriptor.value !in open
    ensures OwnsExactly(endpoints[i := e], Exchanged(open, endpoints[i].descriptor, e.descriptor))
  {
    var after := endpoints[i := e];
    var held := Exchanged(open, endpoints[i].descriptor, e.descriptor);
    forall fd | fd in held
      ensures Owner(after, fd)
    {
      if e.descriptor == Some(fd) {
        assert after[i].descriptor == Some(fd);
      } else {
        assert fd in open;
        var j :| 0 <= j < |endpoints| && endpoints[j].descriptor == Some(fd);
        assert after[j].descriptor == Some(fd);
      }
    }
  }

  lemma OwnershipAppend(endpoints: seq<Endpoint>, open: set<nat>, e: Endpoint)
    requires OwnsExactly(endpoints, open)
    requires e.descriptor.Some? ==> e.descriptor.value !in open
    ensures OwnsExactly(endpoints + [e], Exchanged(open, None, e.descriptor))
  {
    var after := endpoints + [e];
    forall fd | fd in Exchanged(open, None, e.descriptor)
      ensures Owner(after, fd)
    {
      if e.descriptor == Some(fd) {
        assert after[|endpoints|].descriptor == Some(fd);
      } else {
        var j :| 0 <= j < |endpoints| && endpoints[j].descriptor == Some(fd);
        assert after[j].descriptor == Some(fd);
      }
    }
  }

  function Holders(endpoints: seq<Endpoint>): nat {
    if endpoints == [] then 0
    else Holders(endpoints[..|endpoints| - 1]) + if endpoints[|endpoints| - 1].descriptor.Some? then 1 else 0
  }

  /** There are exactly as many open descriptors as endpoints that hold one. */
  lemma {:induction false} HoldersCount(endpoints: seq<Endpoint>, open: set<nat>)
    requires OwnsExactly(endpoints, open)
    ensures |open| == Holders(endpoints)
  {
    if endpoints == [] {
      assert forall fd :: fd in open ==> Owner(endpoints, fd);
      assert open == {};
    } else {
      var init, last := endpoints[..|endpoints| - 1], endpoints[|endpoints| - 1];
      var rest := Exchanged(open, last.descriptor, None);
      forall fd | fd in rest
        ensures Owner(init, fd)
      {
        var i :| 0 <= i < |endpoints| && endpoints[i].descriptor == Some(fd);
        assert init[i].descriptor == Some(fd);
      }
      HoldersCount(init, rest);
    }
  }

  // ---------- how many resolutions are pending ----------

  function Resolving(endpoints: seq<Endpoint>): nat {
    if endpoints == [] then 0
    else Resolving(endpoints[1..]) + if endpoints[0].resolving then 1 else 0
  }

  lemma {:induction false} ResolvingUpdate(endpoints: seq<Endpoint>, i: nat, e: Endpoint)
    requires i < |endpoints|
    ensures Resolving(endpoints[i := e]) + (if endpoints[i].resolving then 1 else 0)
            == Resolving(endpoints) + (if e.resolving then 1 else 0)
  {
    if i == 0 {
      assert endpoints[i := e][1..] == endpoints[1..];
    } else {
      assert endpoints[i := e][1..] == endpoints[1..][i - 1 := e];
      ResolvingUpdate(endpoints[1..], i - 1, e);
    }
  }

  lemma {:induction false} ResolvingAppend(endpoints: seq<Endpoint>, e: Endpoint)
    ensures Resolving(endpoints + [e]) == Resolving(endpoints) + (if e.resolving then 1 else 0)
  {
    if endpoints == [] {
      assert [e][1..] == [];
    } else {
      assert (endpoints + [e])[1..] == endpoints[1..] + [e];
      ResolvingAppend(endpoints[1..], e);
    }
  }

  // ---------- descriptors the kernel can hand out ----------

  lemma {:induction false} DescriptorsRunOut(open: set<nat>) returns (fd: nat)
    ensures forall n :: n in open ==> n < fd
    decreases open
  {
    if open == {} {
      fd := 0;
    } else {
      var x :| x in open;
      var rest := DescriptorsRunOut(open - {x});
      fd := if x < rest then rest else x + 1;
      forall n | n in open ensures n < fd {
        if n != x { assert n in open - {x}; }
      }
    }
  }

  /** How the host was written: unusable arguments, a literal address, or a name to resolve.  A
      listener without a host is bound to the IPv6 wildcard, or else to the IPv4 one. */
  datatype Host = Unusable | Literal4(id: int) | Literal6(id: int) | Wildcard(six: int, four: int) | Named

  /** An endpoint that has been offered these addresses and has not tried any. */
  function Fresh(listener: bool, addresses: seq<Address>): Endpoint {
    Endpoint(listener, None, 0, false, false, false, addresses, addresses, [], 0)
  }

  /** The endpoint of a connection that was accepted. */
  function Adopted(fd: nat): Endpoint {
    Endpoint(false, Some(fd), 1, false, false, false, [], [], [], 0)
  }

  function Addresses(host: Host): seq<Address> {
    match host
    case Literal4(id) => [Address(Inet4, id)]
    case Literal6(id) => [Address(Inet6, id)]
    case Wildcard(six, four) => [Address(Inet6, six), Address(Inet4, four)]
    case Unusable => []
    case Named => []
  }

  lemma LiteralsAreUsable(host: Host)
    ensures Usable(Addresses(host)) == Addresses(host)
  {
    var addresses := Addresses(host);
    if host.Wildcard? {
      assert addresses[1..] == [addresses[1]];
      assert Usable([addresses[1]]) == [addresses[1]] + Usable([]);
    }
  }

  /** An endpoint that has tried nothing of what it was offered. */
  predicate Untried(e: Endpoint, addresses: seq<Address>) {
    && e.descriptor.None? && e.next == e.tried == [] && e.offered == addresses && Usable(addresses) == addresses
    && !e.closed && !e.resolving && !e.released && e.frees == 0
  }

  lemma FirstAttempt(e: Endpoint, f: Endpoint, addresses: seq<Address>, attempts: seq<Attempt>)
    requires Untried(e, addresses) && addresses != []
    requires f == e.(tried := e.tried + [addresses[0]], descriptor := f.descriptor,
                     status := AttemptStatus(e.listener, AnswerAt(attempts, 0)))
    requires (f.descriptor.Some? <==> f.status >= 0) && (f.status > 0 || |addresses| == 1)
    ensures EndpointInv(f) && Walked(e.(next := addresses), f, 0, attempts)
  {
    assert f.tried + [] == f.tried == [addresses[0]] <= addresses;
    assert [] + addresses == addresses;
  }

  lemma SecondAttempt(e: Endpoint, f: Endpoint, addresses: seq<Address>, attempts: seq<Attempt>)
    requires Untried(e, addresses) && |addresses| == 2
    requires AttemptStatus(e.listener, AnswerAt(attempts, 0)) < 0
    requires f == e.(tried := e.tried + [addresses[0]] + [addresses[1]], descriptor := f.descriptor,
                     status := AttemptStatus(e.listener, AnswerAt(attempts, 1)))
    requires f.descriptor.Some? <==> f.status >= 0
    ensures EndpointInv(f) && Walked(e.(next := addresses), f, 0, attempts)
  {
    assert f.tried + [] == f.tried == addresses;
    assert [] + addresses == addresses;
  }

  function PollAt(polls: seq<PollAnswer>): PollAnswer {
    if polls == [] then Pending else polls[0]
  }

  /** What the end of a resolution comes to: a closed endpoint only loses its memory, if it was freed;
      otherwise the error is kept, or the addresses are taken over and tried. */
  ghost predicate ResolvedAs(
    e: Endpoint, f: Endpoint, status: int, addresses: seq<Address>, attempts: seq<Attempt>)
  {
    if e.closed then f == e.(resolving := false, frees := if e.released then 1 else 0)
    else if status < 0 then f == e.(resolving := false, status := status)
    else if |addresses| > 4096 then f == e.(resolving := false, status := -7)
    else f.offered == addresses && Walked(e.(next := addresses), f, -99, attempts)
  }

  lemma ResolvedLate(e: Endpoint)
    requires EndpointInv(e) && e.resolving && e.closed
    ensures EndpointInv(e.(resolving := false, frees := if e.released then 1 else 0)) && e.frees == 0
    ensures e.descriptor.None?
  {
  }

  lemma ResolvedBadly(e: Endpoint, status: int)
    requires EndpointInv(e) && e.resolving && !e.closed && status < 0
    ensures EndpointInv(e.(resolving := false, status := status)) && e.descriptor.None?
  {
  }

  /** What a poll of a connecting endpoint comes to. */
  ghost predicate Polled(e: Endpoint, f: Endpoint, answer: PollAnswer, attempts: seq<Attempt>) {
    match answer
    case Pending => f == e
    case Connected => f == e.(status := 1, next := [])
    case Broken(error) => Walked(e, f, error, attempts)
  }

  class Network {
    var endpoints: seq<Endpoint>
    /** All open sockets; `accepted` are those that came from a listener and have no endpoint yet. */
    var open: set<nat>
    var accepted: set<nat>
    var pendingResolutions: int
    var completedResolutions: nat
    var attempts: seq<Attempt>
    var polls: seq<PollAnswer>

    ghost predicate Valid()
      reads this
    {
      && (forall i :: 0 <= i < |endpoints| ==> EndpointInv(endpoints[i]))
      && accepted <= open && OwnsExactly(endpoints, open - accepted)
      && pendingResolutions == Resolving(endpoints)
    }

    constructor (attempts: seq<Attempt>, polls: seq<PollAnswer>)
      ensures Valid() && endpoints == [] && open == {} == accepted
    {
      this.attempts, this.polls := attempts, polls;
      endpoints, open, accepted, pendingResolutions, completedResolutions := [], {}, {}, 0, 0;
    }

    /** `socket`: a descriptor that is not open. */
    method NewDescriptor() returns (fd: nat)
      ensures fd !in open
    {
      ghost var bound := DescriptorsRunOut(open);
      assert bound !in open;
      fd :| fd !in open;
    }

    method NextAttempt() returns (answer: Attempt)
      modifies this`attempts
      ensures answer == AnswerAt(old(attempts), 0) && attempts == Skip(old(attempts), 1)
    {
      answer := InProgress;
      if attempts != [] { answer, attempts := attempts[0], attempts[1..]; }
    }

    /** Try one address.  A socket that is neither ready nor connecting is closed again. */
    method AttemptAddress(e: Endpoint, address: Address) returns (after: Endpoint)
      requires e.descriptor.None?
      modifies this`attempts, this`open
      ensures after == e.(tried := e.tried + [address], status := after.status, descriptor := after.descriptor)
      ensures after.status == AttemptStatus(e.listener, AnswerAt(old(attempts), 0))
      ensures attempts == Skip(old(attempts), 1)
      ensures after.descriptor.Some? <==> after.status >= 0
      ensures open == Exchanged(old(open), None, after.descriptor)
      ensures after.descriptor.Some? ==> after.descriptor.value !in old(open)
      ensures old(attempts) != [] ==>
                match old(attempts)[0]
                case NoSocket(error) => after.status == error && after.descriptor == None && open == old(open)
                case Refused(error) => after.status == error && after.descriptor == None && open == old(open)
                case Ready => after.status == 1 && after.descriptor.Some?
                case InProgress =>
                  if e.listener then after.status == -99 && after.descriptor == None && open == old(open)
                  else after.status == 0 && after.descriptor.Some?
    {
      after := e.(tried := e.tried + [address]);
      var answer := NextAttempt();
      if answer.NoSocket? { return after.(status := answer.error); }
      var descriptor := NewDescriptor();
      open := open + {descriptor};
      if answer.Ready? || (answer.InProgress? && !e.listener) {
        return after.(descriptor := Some(descriptor), status := if answer.Ready? then 1 else 0);
      }
      after := after.(status := if answer.Refused? then answer.error else UV_EADDRNOTAVAIL);
      open := open - {descriptor};
      assert open == old(open);
    }

    /** Walk down the remaining addresses to the first that is ready or connecting. */
    method NextAddress(e: Endpoint) returns (after: Endpoint)
      requires e.descriptor.None? && e.status <= 1 && !e.resolving && !e.closed && !e.released && e.frees == 0
      requires NoneIsLost(e)
      modifies this`attempts, this`open
      ensures EndpointInv(after)
      ensures after == e.(status := after.status, descriptor := after.descriptor,
                          next := after.next, tried := after.tried)
      ensures Walked(e, after, if e.status >= 0 then -99 else e.status, old(attempts))
      ensures open == Exchanged(old(open), None, after.descriptor)
      ensures after.descriptor.Some? ==> after.descriptor.value !in old(open)
    {
      after := e;
      if after.status >= 0 { after := after.(status := UV_EADDRNOTAVAIL); }
      ghost var error, k := after.status, 0;
      while after.next != []
        invariant Walking(e, after, error, k, old(attempts))
        invariant open == old(open) && attempts == Skip(old(attempts), k)
        decreases |after.next|
      {
        ghost var before := after;
        var address := after.next[0];
        after := after.(next := after.next[1..]);
        if address.family.OtherFamily? {
          WalkSkips(e, before, error, k, old(attempts));
          continue;
        }
        SkipOne(old(attempts), k);
        after := AttemptAddress(after, address);
        WalkTries(e, before, after, error, k, old(attempts));
        k := k + 1;
        if after.status >= 0 {
          if after.status == 1 { after := Forget(after); }
          return;
        }
      }
      WalkEnds(e, after, error, k, old(attempts));
      after := Forget(after);
    }

    /** Put an endpoint's new state back into the table; `held` are the descriptors open before. */
    method Replace(i: nat, e: Endpoint, ghost held: set<nat>)
      requires i < |endpoints| && EndpointInv(e)
      requires forall j :: 0 <= j < |endpoints| && j != i ==> EndpointInv(endpoints[j])
      requires accepted <= held && OwnsExactly(endpoints, held - accepted)
      requires open == Exchanged(held, endpoints[i].descriptor, e.descriptor)
      requires e.descriptor.Some? && e.descriptor != endpoints[i].descriptor ==> e.descriptor.value !in held
      requires pendingResolutions + (if endpoints[i].resolving then 1 else 0)
               == Resolving(endpoints) + (if e.resolving then 1 else 0)
      modifies this`endpoints
      ensures Valid() && endpoints == old(endpoints)[i := e]
    {
      OwnershipUpdate(endpoints, held - accepted, i, e);
      ExchangedBeside(held, accepted, endpoints[i].descriptor, e.descriptor);
      ResolvingUpdate(endpoints, i, e);
      endpoints := endpoints[i := e];
    }

    method ExceedsLimit(addresses: seq<Address>) returns (exceeds: bool)
      ensures exceeds <==> |addresses| > ADDRESS_LIMIT
    {
      var count := 0;
      while count < |addresses|
        invariant count <= |addresses| && count <= ADDRESS_LIMIT
      {
        count := count + 1;
        if count > ADDRESS_LIMIT { return true; }
      }
      return false;
    }

    /** A resolution succeeded: take over its addresses and try them, unless there are too many. */
    method TakeAddresses(e: Endpoint, addresses: seq<Address>) returns (after: Endpoint)
      requires e.descriptor.None? && e.status == 0 && !e.resolving && !e.closed && !e.released && e.frees == 0
      requires e.next == e.tried == e.offered == []
      modifies this`attempts, this`open
      ensures EndpointInv(after) && !after.resolving
      ensures open == Exchanged(old(open), None, after.descriptor)
      ensures after.descriptor.Some? ==> after.descriptor.value !in old(open)
      ensures if |addresses| > 4096 then after == e.(status := -7)
              else after.offered == addresses && Walked(e.(next := addresses), after, -99, old(attempts))
    {
      var tooMany := ExceedsLimit(addresses);
      if tooMany { return e.(status := UV_E2BIG); }
      assert [] + Usable(addresses) == Usable(addresses);
      after := NextAddress(e.(offered := addresses, next := addresses));
    }

    method Conclude(e: Endpoint, status: int, addresses: seq<Address>) returns (after: Endpoint)
      requires EndpointInv(e) && e.resolving
      modifies this`attempts, this`open
      ensures EndpointInv(after) && !after.resolving
      ensures open == Exchanged(old(open), None, after.descriptor)
      ensures after.descriptor.Some? ==> after.descriptor.value !in old(open)
      ensures ResolvedAs(e, after, status, addresses, old(attempts))
    {
      after := e.(resolving := false);
      if e.closed {
        if e.released { after := after.(frees := after.frees + 1); }
        ResolvedLate(e);
      } else if status < 0 {
        after := after.(status := status);
        ResolvedBadly(e, status);
      } else {
        after := TakeAddresses(after, addresses);
      }
    }

    /** The resolver's callback, which comes exactly once for every resolution started. */
    method Resolved(i: nat, status: int, addresses: seq<Address>)
      requires Valid() && i < |endpoints| && endpoints[i].resolving
      modifies this
      ensures Valid() && |endpoints| == |old(endpoints)| && !endpoints[i].resolving
      ensures forall j :: 0 <= j < |endpoints| && j != i ==> endpoints[j] == old(endpoints)[j]
      ensures completedResolutions == old(completedResolutions) + 1 && accepted == old(accepted)
      ensures ResolvedAs(old(endpoints)[i], endpoints[i], status, addresses, old(attempts))
      ensures open == Exchanged(old(open), None, endpoints[i].descriptor)
    {
      pendingResolutions := pendingResolutions - 1;
      completedResolutions := completedResolutions + 1;
      var e := Conclude(endpoints[i], status, addresses);
      Replace(i, e, old(open));
    }

    method Add(e: Endpoint) returns (i: nat)
      requires forall j :: 0 <= j < |endpoints| ==> EndpointInv(endpoints[j])
      requires EndpointInv(e)
      requires accepted <= open && OwnsExactly(endpoints + [e], open - accepted)
      requires pendingResolutions == Resolving(endpoints + [e])
      modifies this`endpoints
      ensures Valid() && i == |old(endpoints)| && endpoints == old(endpoints) + [e]
    {
      i := |endpoints|;
      endpoints := endpoints + [e];
    }

    /** Literal hosts are attempted at once; the wildcard has a second chance. */
    method AttemptHost(e: Endpoint, host: Host) returns (after: Endpoint)
      requires EndpointInv(e.(status := -1)) && e.tried == [] && !e.closed && !e.resolving
      requires e.offered == Addresses(host)
      requires host.Literal4? || host.Literal6? || host.Wildcard?
      requires host.Wildcard? ==> e.listener
      modifies this`attempts, this`open
      ensures EndpointInv(after)
      ensures after == e.(status := after.status, descriptor := after.descriptor, tried := after.tried)
      ensures Walked(e.(next := Addresses(host)), after, 0, old(attempts))
      ensures host.Literal4? ==> after.tried == [Address(Inet4, host.id)]
      ensures host.Literal6? ==> after.tried == [Address(Inet6, host.id)]
      ensures host.Wildcard? && old(attempts) != [] ==>
                after.tried == [Address(Inet6, host.six)] +
                              if old(attempts)[0].Ready? then [] else [Address(Inet4, host.four)]
      ensures open == Exchanged(old(open), None, after.descriptor)
      ensures after.descriptor.Some? ==> after.descriptor.value !in old(open)
    {
      var addresses := Addresses(host);
      LiteralsAreUsable(host);
      SkipOne(attempts, 0);
      SkipOne(attempts, 1);
      after := AttemptAddress(e, addresses[0]);
      if after.status < 0 && host.Wildcard? {
        after := AttemptAddress(after, addresses[1]);
        SecondAttempt(e, after, addresses, old(attempts));
      } else {
        FirstAttempt(e, after, addresses, old(attempts));
      }
    }

    method New(listener: bool, host: Host, loopStatus: int, resolverStatus: int) returns (i: nat)
      requires Valid() && (host.Wildcard? ==> listener)
      modifies this
      ensures Valid() && i == |old(endpoints)| < |endpoints|
      ensures endpoints[..i] == old(endpoints)
      ensures accepted == old(accepted) && completedResolutions == old(completedResolutions)
      ensures !endpoints[i].closed && !endpoints[i].released && endpoints[i].frees == 0
      ensures endpoints[i].offered == Addresses(host) && endpoints[i].listener == listener
      ensures endpoints[i].resolving <==>
              host.Named? && loopStatus >= 0 && old(pendingResolutions) < 1024 && resolverStatus >= 0
      ensures host.Unusable? ==> endpoints[i].status == -22
      ensures host.Named? && !endpoints[i].resolving ==>
                endpoints[i].status == if loopStatus < 0 then loopStatus
                                       else if old(pendingResolutions) >= 1024 then -105
                                       else resolverStatus
      ensures host.Unusable? || host.Named? ==> endpoints[i].offered == endpoints[i].tried == []
      ensures host.Literal4? ==> endpoints[i].tried == [Address(Inet4, host.id)]
      ensures host.Literal6? ==> endpoints[i].tried == [Address(Inet6, host.id)]
      ensures host.Wildcard? && old(attempts) != [] ==>
                endpoints[i].tried == [Address(Inet6, host.six)] +
                                      if old(attempts)[0].Ready? then [] else [Address(Inet4, host.four)]
      ensures !host.Unusable? && !host.Named? ==>
                Walked(Fresh(listener, Addresses(host)), endpoints[i], 0, old(attempts))
    {
      var e := Fresh(listener, Addresses(host)).(next := []);
      if host.Unusable? {
        e := e.(status := UV_EINVAL);
      } else if !host.Named? {
        e := AttemptHost(e, host);
      } else if loopStatus < 0 {
        e := e.(status := loopStatus);
      } else if pendingResolutions >= RESOLUTION_LIMIT {
        e := e.(status := UV_ENOBUFS);
      } else if resolverStatus < 0 {
        e := e.(status := resolverStatus);
      } else {
        e := e.(resolving := true);
        pendingResolutions := pendingResolutions + 1;
      }
      OwnershipAppend(endpoints, old(open) - accepted, e);
      ExchangedBeside(old(open), accepted, None, e.descriptor);
      ResolvingAppend(endpoints, e);
      i := Add(e);
    }

    /** The connection failed: close its socket and go on to the next address. */
    method Fallback(e: Endpoint, error: Error) returns (after: Endpoint)
      requires EndpointInv(e) && e.status == 0 && !e.resolving && !e.released
      requires e.descriptor.value in open
      modifies this`attempts, this`open
      ensures EndpointInv(after) && !after.resolving && Walked(e, after, error, old(attempts))
      ensures open == Exchanged(old(open), e.descriptor, after.descriptor)
      ensures after.descriptor.Some? && after.descriptor != e.descriptor ==> after.descriptor.value !in old(open)
    {
      open := open - {e.descriptor.value};
      after := NextAddress(e.(descriptor := None, status := error));
    }

    method AfterPoll(e: Endpoint, answer: PollAnswer) returns (after: Endpoint)
      requires EndpointInv(e) && e.status == 0 && !e.resolving && !e.released && !answer.Pending?
      requires e.descriptor.value in open
      modifies this`attempts, this`open
      ensures EndpointInv(after) && !after.resolving
      ensures Polled(e, after, answer, old(attempts))
      ensures open == Exchanged(old(open), e.descriptor, after.descriptor)
      ensures after.descriptor.Some? && after.descriptor != e.descriptor ==> after.descriptor.value !in old(open)
    {
      if answer.Connected? {
        ForgetKeepsOrder(e);
        return Forget(e.(status := 1));
      }
      after := Fallback(e, answer.error);
    }

    /** A connecting endpoint becomes ready, stays pending, or falls back to its next address. */
    method Progress(i: nat) returns (status: int)
      requires Valid() && i < |endpoints| && !endpoints[i].released
      modifies this`endpoints, this`open, this`attempts, this`polls
      ensures Valid() && |endpoints| == |old(endpoints)|
      ensures forall j :: 0 <= j < |endpoints| && j != i ==> endpoints[j] == old(endpoints)[j]
      ensures status == endpoints[i].status
      ensures old(endpoints)[i].status != 0 || old(endpoints)[i].resolving ==>
                endpoints == old(endpoints) && open == old(open) && polls == old(polls)
      ensures old(endpoints)[i].status == 0 && !old(endpoints)[i].resolving && old(polls) != [] ==>
                Polled(old(endpoints)[i], endpoints[i], old(polls)[0], old(attempts))
      ensures old(endpoints)[i].status == 0 && !old(endpoints)[i].resolving ==>
                Polled(old(endpoints)[i], endpoints[i], PollAt(old(polls)), old(attempts)) &&
                polls == Skip(old(polls), 1)
    {
      var e := endpoints[i];
      if e.status != 0 || e.resolving { return e.status; }
      var answer := PollAt(polls);
      if polls != [] { polls := polls[1..]; }
      if answer.Pending? { return 0; }
      e := AfterPoll(e, answer);
      Replace(i, e, old(open));
      return e.status;
    }

    /** Take over a descriptor that was accepted elsewhere; on any failure it is closed. */
    method Adopt(fd: nat, usable: bool) returns (i: Option<nat>)
      requires Valid() && fd in accepted
      modifies this`endpoints, this`open, this`accepted
      ensures Valid() && accepted == old(accepted) - {fd}
      ensures i.None? <==> !usable
      ensures i.None? ==> endpoints == old(endpoints) && open == old(open) - {fd}
      ensures i.Some? ==>
                && i.value == |old(endpoints)| && endpoints == old(endpoints) + [Adopted(fd)]
                && open == old(open)
    {
      accepted := accepted - {fd};
      if !usable {
        open := open - {fd};
        assert open - accepted == old(open) - old(accepted);
        return None;
      }
      var e := Adopted(fd);
      OwnershipAppend(endpoints, old(open) - old(accepted), e);
      ResolvingAppend(endpoints, e);
      assert open - accepted == Exchanged(old(open) - old(accepted), None, Some(fd));
      i := Some(|endpoints|);
      endpoints := endpoints + [e];
    }

    /** Accept a connection on a ready listener, if the kernel has one, and make it an endpoint. */
    method Accept(listener: nat, waiting: bool, usable: bool) returns (i: Option<nat>)
      requires Valid() && listener < |endpoints| && !endpoints[listener].released
      modifies this`endpoints, this`open, this`accepted
      ensures Valid() && accepted == old(accepted)
      ensures i.Some? <==>
              old(endpoints)[listener].status == 1 && old(endpoints)[listener].listener && waiting && usable
      ensures i.None? ==> endpoints == old(endpoints) && open == old(open)
      ensures i.Some? ==>
                && i.value == |old(endpoints)| < |endpoints| && endpoints[..i.value] == old(endpoints)
                && endpoints[i.value].descriptor.Some? && endpoints[i.value].descriptor.value !in old(open)
                && endpoints[i.value] == Adopted(endpoints[i.value].descriptor.value)
                && open == old(open) + {endpoints[i.value].descriptor.value}
    {
      var e := endpoints[listener];
      if e.status != 1 || !e.listener || e.closed || !waiting { return None; }
      var fd := NewDescriptor();
      open, accepted := open + {fd}, accepted + {fd};
      assert open - accepted == old(open) - old(accepted);
      i := Adopt(fd, usable);
      assert accepted == old(accepted) && (i.None? ==> open == old(open));
    }

    /** Close once: the descriptor goes, the addresses go, a running resolution is only cancelled. */
    method Close(i: nat)
      requires Valid() && i < |endpoints| && !endpoints[i].released
      modifies this`endpoints, this`open
      ensures Valid() && |endpoints| == |old(endpoints)|
      ensures forall j :: 0 <= j < |endpoints| && j != i ==> endpoints[j] == old(endpoints)[j]
      ensures endpoints[i] == if old(endpoints)[i].closed then old(endpoints)[i]
                              else old(endpoints)[i].(
                                closed := true, status := -125, next := [], descriptor := None)
      ensures open == Exchanged(old(open), old(endpoints)[i].descriptor, None)
    {
      if endpoints[i].closed { return; }
      var e := endpoints[i];
      ForgetKeepsOrder(e);
      e := e.(closed := true, status := UV_ECANCELED, next := []);
      if e.descriptor.Some? {
        open := open - {e.descriptor.value};
        e := e.(descriptor := None);
      }
      Replace(i, e, old(open));
    }

    /** The owner gives the endpoint up, once.  Memory goes now, or with the pending callback. */
    method Free(i: nat)
      requires Valid() && i < |endpoints| && !endpoints[i].released
      modifies this`endpoints, this`open
      ensures Valid() && |endpoints| == |old(endpoints)|
      ensures forall j :: 0 <= j < |endpoints| && j != i ==> endpoints[j] == old(endpoints)[j]
      ensures var e := old(endpoints)[i];
              endpoints[i] == e.(released := true, frees := if e.resolving then 0 else 1, closed := true,
                                 status := if e.closed then e.status else -125, next := [], descriptor := None)
      ensures endpoints[i].descriptor.None? && open == Exchanged(old(open), old(endpoints)[i].descriptor, None)
    {
      Close(i);
      var e := endpoints[i].(released := true);
      if !e.resolving { e := e.(frees := e.frees + 1); }
      Replace(i, e, open);
    }
  }

  /** The network after any calls and callbacks: every open descriptor but those just accepted is held
      by an endpoint, pending means resolving or holding a descriptor but not both, the counter of
      pending resolutions is exact, no address is tried twice or out of order, none is lost while the
      endpoint is pending, and an endpoint is deallocated exactly once, namely when its owner has freed
      it and no callback is outstanding. */
  lemma NetworkPromises(network: Network, i: nat)
    requires network.Valid() && i < |network.endpoints|
    ensures |network.open - network.accepted| == Holders(network.endpoints)
    ensures network.pendingResolutions == Resolving(network.endpoints)
    ensures var e := network.endpoints[i];
            && (e.status == 0 ==> (e.resolving && e.descriptor.None?) || (!e.resolving && e.descriptor.Some?))
            && (e.closed ==> e.descriptor.None?)
            && e.tried <= Usable(e.offered)
            && (e.status == 0 ==> e.tried + Usable(e.next) == Usable(e.offered))
            && e.frees <= 1 && (e.frees == 1 <==> e.released && !e.resolving)
  {
    HoldersCount(network.endpoints, network.open - network.accepted);
    var e := network.endpoints[i];
    assert EndpointInv(e);
    assert e.tried <= e.tried + Usable(e.next);
  }
}
