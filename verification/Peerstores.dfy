/**
 The host wrapper that copies addresses the DHT host has learned into the
 peerstore bitswap dials from.  Whether an address is public is a parameter.
 */
module Peerstores {

  datatype Protocol = IP4 | IP6 | IP6ZONE | DNS | DNS4 | DNS6 | DNSADDR | Other(code: nat)

  datatype Component = Component(protocol: Protocol, value: string)

  type Multiaddr = seq<Component>

  type PeerId = string

  datatype AddrInfo = AddrInfo(id: PeerId, addrs: set<Multiaddr>)

  type Public = Multiaddr -> bool

  predicate IsUndialable(public: Public, a: Multiaddr) {
    if |a| == 0 then true
    else if a[0].protocol.Other? then false
    else !public(a)
  }

  /** The dialable addresses, in order. */
  function Dialable(public: Public, addrs: seq<Multiaddr>): (kept: seq<Multiaddr>)
    ensures |kept| <= |addrs|
  {
    if |addrs| == 0 then []
    else
      Dialable(public, addrs[..|addrs| - 1])
      + (if IsUndialable(public, addrs[|addrs| - 1]) then [] else [addrs[|addrs| - 1]])
  }

  /** Worth a dial: public, or of a kind that cannot be told without resolving it. */
  predicate Passes(public: Public, a: Multiaddr) {
    a != [] && (public(a) || a[0].protocol !in {IP4, IP6, IP6ZONE, DNS, DNS4, DNS6, DNSADDR})
  }

  /** The filter keeps exactly the public addresses and those that start with neither IP nor DNS. */
  lemma {:induction false} DialableKeeps(public: Public, addrs: seq<Multiaddr>, a: Multiaddr)
    ensures a in Dialable(public, addrs) <==> a in addrs && Passes(public, a)
    ensures a in Dialable(public, addrs) ==> |a| > 0
    ensures a in addrs && |a| > 0 && a[0].protocol.Other? ==> a in Dialable(public, addrs)
    ensures a in addrs && |a| > 0 && !a[0].protocol.Other? ==> (a in Dialable(public, addrs) <==> public(a))
  {
    if |addrs| > 0 {
      DialableKeeps(public, addrs[..|addrs| - 1], a);
      assert addrs == addrs[..|addrs| - 1] + [addrs[|addrs| - 1]];
    }
  }

  /** An address that starts with DNS is dropped exactly when it is not public, as one that starts with IP is. */
  lemma DnsIsFiltered(public: Public, a: Multiaddr)
    requires |a| > 0 && a[0].protocol in {DNS, DNS4, DNS6, DNSADDR}
    ensures a in Dialable(public, [a]) <==> public(a)
  {
    DialableKeeps(public, [a], a);
  }

  /** The positions of the dialable addresses, in increasing order. */
  function Positions(public: Public, addrs: seq<Multiaddr>): seq<nat> {
    if |addrs| == 0 then []
    else
      var n := |addrs| - 1;
      Positions(public, addrs[..n]) + (if IsUndialable(public, addrs[n]) then [] else [n])
  }

  /** The filter keeps order and repetition: it lists what stands at the dialable positions. */
  lemma {:induction false} DialableKeepsOrder(public: Public, addrs: seq<Multiaddr>)
    ensures var at := Positions(public, addrs);
            && |at| == |Dialable(public, addrs)|
            && (forall i :: 0 <= i < |at| ==> at[i] < |addrs| && Dialable(public, addrs)[i] == addrs[at[i]])
            && (forall i, j :: 0 <= i < j < |at| ==> at[i] < at[j])
  {
    if |addrs| > 0 {
      DialableKeepsOrder(public, addrs[..|addrs| - 1]);
    }
  }

  lemma {:induction false} PositionsAreDialable(public: Public, addrs: seq<Multiaddr>, k: nat)
    ensures k in Positions(public, addrs) <==> k < |addrs| && Passes(public, addrs[k])
  {
    if |addrs| > 0 {
      PositionsAreDialable(public, addrs[..|addrs| - 1], k);
    }
  }

  /** slices.DeleteFunc with the filter: compacts `s` in place, clears the rest and returns the new length. */
  method DeleteUndialable(public: Public, s: array<Multiaddr>) returns (n: nat)
    modifies s
    ensures n <= s.Length && s[..n] == Dialable(public, old(s[..]))
    ensures forall k :: n <= k < s.Length ==> s[k] == []
  {
    ghost var was := s[..];
    n := 0;
    var j := 0;
    while j < s.Length
      invariant n <= j <= s.Length
      invariant s[..n] == Dialable(public, was[..j])
      invariant s[j..] == was[j..]
    {
      assert was[..j + 1][..j] == was[..j] && s[j] == s[j..][0] == was[j];
      assert Dialable(public, was[..j + 1])
             == Dialable(public, was[..j]) + (if IsUndialable(public, was[j]) then [] else [was[j]]);
      if !IsUndialable(public, s[j]) {
        s[n] := s[j];
        n := n + 1;
      }
      j := j + 1;
    }
    assert was[..s.Length] == was;
    Clear(s, n);
  }

  method Clear(s: array<Multiaddr>, from: nat)
    requires from <= s.Length
    modifies s
    ensures s[..from] == old(s[..from])
    ensures forall k :: from <= k < s.Length ==> s[k] == []
  {
    for k := from to s.Length
      invariant s[..from] == old(s[..from])
      invariant forall i :: from <= i < k ==> s[i] == []
    {
      s[k] := [];
    }
  }

  type Book = map<PeerId, set<Multiaddr>>

  function AddrsOf(book: Book, id: PeerId): set<Multiaddr> {
    if id in book then book[id] else {}
  }

  function ToSet(addrs: seq<Multiaddr>): set<Multiaddr> { set a | a in addrs }

  /** What one Connect adds for its peer: dialable addresses of the DHT host, and those it was given. */
  function Connected(public: Public, book: Book, pi: AddrInfo, dht: seq<Multiaddr>): Book {
    book[pi.id := AddrsOf(book, pi.id) + ToSet(Dialable(public, dht)) + pi.addrs]
  }

  /** Peer `id` has address `a` afterwards: it had it, or Connect was given it or found it for that peer. */
  predicate Adds(public: Public, before: Book, after: Book, pi: AddrInfo, dht: seq<Multiaddr>, id: PeerId,
                 a: Multiaddr)
  {
    a in AddrsOf(after, id) <==>
    (a in AddrsOf(before, id) || (id == pi.id && (a in pi.addrs || (a in dht && Passes(public, a)))))
  }

  lemma ConnectedAdds(public: Public, book: Book, pi: AddrInfo, dht: seq<Multiaddr>)
    ensures forall id, a :: Adds(public, book, Connected(public, book, pi, dht), pi, dht, id, a)
  {
    forall id, a ensures Adds(public, book, Connected(public, book, pi, dht), pi, dht, id, a) {
      DialableKeeps(public, dht, a);
    }
  }

  class MergingHost {
    var book: Book  // the main host's peerstore

    constructor (book: Book)
      ensures this.book == book
    {
      this.book := book;
    }

    /** `dht` is what the DHT host knows of the peer at this moment. */
    method Connect(public: Public, pi: AddrInfo, dht: seq<Multiaddr>)
      modifies this
      ensures book == Connected(public, old(book), pi, dht)
      ensures forall id, a :: Adds(public, old(book), book, pi, dht, id, a)
    {
      var addrs := new Multiaddr[|dht|](i requires 0 <= i < |dht| => dht[i]);
      assert addrs[..] == dht;
      var n := DeleteUndialable(public, addrs);
      assert addrs[..n] == Dialable(public, dht);
      if n > 0 {
        book := book[pi.id := AddrsOf(book, pi.id) + ToSet(addrs[..n])];
      } else {
        assert ToSet(Dialable(public, dht)) == {};
      }
      // the embedded host adds the addresses it is given before it dials
      book := book[pi.id := AddrsOf(book, pi.id) + pi.addrs];
      assert AddrsOf(book, pi.id) == AddrsOf(old(book), pi.id) + ToSet(Dialable(public, dht)) + pi.addrs;
      ConnectedAdds(public, old(book), pi, dht);
    }
  }

  // ----- Sequences of connects -----

  datatype Event =
    | Connect(pi: AddrInfo, dht: seq<Multiaddr>)
    | Expire(id: PeerId, gone: set<Multiaddr>)

  function Step(public: Public, book: Book, e: Event): Book {
    match e
    case Connect(pi, dht) => Connected(public, book, pi, dht)
    case Expire(id, gone) => book[id := AddrsOf(book, id) - gone]
  }

  function Final(public: Public, book: Book, events: seq<Event>): Book {
    if |events| == 0 then book
    else Step(public, Final(public, book, events[..|events| - 1]), events[|events| - 1])
  }

  /** The event brings in `a` as an address of `id`. */
  predicate Brings(public: Public, e: Event, id: PeerId, a: Multiaddr) {
    && e.Connect? && e.pi.id == id
    && (a in e.pi.addrs || (a in e.dht && Passes(public, a)))
  }

  predicate HasSource(public: Public, book: Book, events: seq<Event>, id: PeerId, a: Multiaddr) {
    || a in AddrsOf(book, id)
    || exists i :: 0 <= i < |events| && Brings(public, events[i], id, a)
  }

  lemma StepBrings(public: Public, book: Book, e: Event, id: PeerId, a: Multiaddr)
    ensures a in AddrsOf(Step(public, book, e), id) ==> a in AddrsOf(book, id) || Brings(public, e, id, a)
    ensures e.Connect? ==>
              (a in AddrsOf(Step(public, book, e), id) <==> a in AddrsOf(book, id) || Brings(public, e, id, a))
  {
    if e.Connect? { DialableKeeps(public, e.dht, a); }
  }

  lemma HasSourceStep(public: Public, book: Book, events: seq<Event>, id: PeerId, a: Multiaddr)
    requires |events| > 0
    ensures HasSource(public, book, events, id, a) <==>
            HasSource(public, book, events[..|events| - 1], id, a) || Brings(public, events[|events| - 1], id, a)
  {
    var init := events[..|events| - 1];
    assert forall i :: 0 <= i < |init| ==> init[i] == events[i];
  }

  /**
   Every address in the main peerstore for a peer was there at the start, was
   given to some Connect for that peer, or was known of that peer to the DHT
   host at some Connect and passed the filter; without expiry, all of those
   are still there.
   */
  lemma {:induction false} AddressesHaveSources(public: Public, book: Book, events: seq<Event>, id: PeerId,
                                                a: Multiaddr)
    ensures a in AddrsOf(Final(public, book, events), id) ==> HasSource(public, book, events, id, a)
    ensures (forall i :: 0 <= i < |events| ==> events[i].Connect?) && HasSource(public, book, events, id, a) ==>
            a in AddrsOf(Final(public, book, events), id)
  {
    if |events| > 0 {
      var init := events[..|events| - 1];
      AddressesHaveSources(public, book, init, id, a);
      StepBrings(public, Final(public, book, init), events[|events| - 1], id, a);
      HasSourceStep(public, book, events, id, a);
    }
  }

  /** Connects to other peers leave a peer's addresses alone. */
  lemma {:induction false} OthersUntouched(public: Public, book: Book, events: seq<Event>, id: PeerId)
    requires forall i :: 0 <= i < |events| ==> (if events[i].Connect? then events[i].pi.id else events[i].id) != id
    ensures AddrsOf(Final(public, book, events), id) == AddrsOf(book, id)
  {
    if |events| > 0 {
      OthersUntouched(public, book, events[..|events| - 1], id);
    }
  }
}
