/** Which address a login attempt is counted against when it comes through proxies. */
module LoginGuard {
  import opened Wrappers

  type Address = nat

  /**
   * Walks from the peer backwards over the forwarded hops as long as the address reached so far is
   * trusted. A hop that is no address (`None`) ends the walk.
   */
  method ResolveClientAddress(peer: Address, forwardedFor: Option<seq<Option<Address>>>, trusted: set<Address>)
    returns (client: Address)
    ensures client == Resolved(peer, if forwardedFor.Some? then forwardedFor.value else [], trusted)
  {
    client := peer;
    if client !in trusted || forwardedFor.None? { return; }
    var hops := forwardedFor.value;
    var index := |hops|;
    assert hops[..index] == hops;
    while index > 0
      invariant 0 <= index <= |hops| && client in trusted
      invariant Resolved(client, hops[..index], trusted) == Resolved(peer, hops, trusted)
    {
      index := index - 1;
      assert hops[..index + 1][..index] == hops[..index];
      var hop := hops[index];
      if hop.None? { return; }
      client := hop.value;
      if client !in trusted { return; }
    }
  }

  /** The walk from a peer over the hops, right to left. */
  function Resolved(peer: Address, hops: seq<Option<Address>>, trusted: set<Address>): Address
    decreases |hops|
  {
    if peer !in trusted || hops == [] || hops[|hops| - 1].None? then peer
    else Resolved(hops[|hops| - 1].value, hops[..|hops| - 1], trusted)
  }

  /** The forwarded hops with the peer behind them. */
  function AddressAt(peer: Address, hops: seq<Option<Address>>, n: nat): Option<Address>
    requires n <= |hops|
  {
    if n == |hops| then Some(peer) else hops[n]
  }

  /** Everything behind the position is a trusted address, and the walk cannot go on from it. */
  predicate EndsAt(peer: Address, hops: seq<Option<Address>>, trusted: set<Address>, n: nat)
    requires n <= |hops|
  {
    && (forall k :: n < k <= |hops| ==>
        AddressAt(peer, hops, k).Some? && AddressAt(peer, hops, k).value in trusted)
    && AddressAt(peer, hops, n).Some?
    && (AddressAt(peer, hops, n).value !in trusted || n == 0 || hops[n - 1].None?)
  }

  lemma OneEnd(peer: Address, hops: seq<Option<Address>>, trusted: set<Address>, m: nat, n: nat)
    requires m < n <= |hops| && EndsAt(peer, hops, trusted, m)
    ensures !EndsAt(peer, hops, trusted, n)
  {
    assert AddressAt(peer, hops, n).value in trusted;
    assert AddressAt(peer, hops, n - 1).Some?;
  }

  /** The counted address is the one at the only position where the walk can end. */
  lemma {:induction false} ResolvedIff(peer: Address, hops: seq<Option<Address>>, trusted: set<Address>, n: nat)
    requires n <= |hops| && EndsAt(peer, hops, trusted, n)
    ensures AddressAt(peer, hops, n) == Some(Resolved(peer, hops, trusted))
    decreases |hops|
  {
    if n < |hops| {
      var last := |hops| - 1;
      assert AddressAt(peer, hops, last + 1) == Some(peer) && peer in trusted;
      assert AddressAt(peer, hops, last).Some?;
      forall k | 0 <= k <= last
        ensures AddressAt(hops[last].value, hops[..last], k) == AddressAt(peer, hops, k)
      {
      }
      assert EndsAt(hops[last].value, hops[..last], trusted, n);
      ResolvedIff(hops[last].value, hops[..last], trusted, n);
    }
  }

  /** The walk ends somewhere. */
  lemma {:induction false} WalkEnds(peer: Address, hops: seq<Option<Address>>, trusted: set<Address>) returns (n: nat)
    ensures n <= |hops| && EndsAt(peer, hops, trusted, n)
    decreases |hops|
  {
    n := |hops|;
    if peer in trusted && hops != [] && hops[|hops| - 1].Some? {
      var last := |hops| - 1;
      n := WalkEnds(hops[last].value, hops[..last], trusted);
      forall k | 0 <= k <= last
        ensures AddressAt(hops[last].value, hops[..last], k) == AddressAt(peer, hops, k)
      {
      }
    }
  }

  predicate AllTrusted(hops: seq<Option<Address>>, trusted: set<Address>) {
    forall k :: 0 <= k < |hops| ==> hops[k].Some? && hops[k].value in trusted
  }

  /** What an untrusted client puts into the header cannot change the address it is counted under. */
  lemma {:induction false} ForgedHopsAreIgnored(
    peer: Address, forged: seq<Option<Address>>, client: Address, proxies: seq<Option<Address>>, trusted: set<Address>)
    requires peer in trusted && client !in trusted && AllTrusted(proxies, trusted)
    ensures Resolved(peer, forged + [Some(client)] + proxies, trusted) == client
    decreases |proxies|
  {
    var hops := forged + [Some(client)] + proxies;
    if proxies == [] {
      assert hops[..|hops| - 1] == forged;
    } else {
      var n := |proxies| - 1;
      assert hops[..|hops| - 1] == forged + [Some(client)] + proxies[..n];
      assert proxies[n].Some? && proxies[n].value in trusted;
      ForgedHopsAreIgnored(proxies[n].value, forged, client, proxies[..n], trusted);
    }
  }
}
