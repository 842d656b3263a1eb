/** The deterministic network device: connections that bind, announce, dial and accept inside
    one process, joined by links of two byte queues. Each control command and each data
    operation is one atomic step. */
module NetDevice {
  import opened Wrappers
  import opened Bytes
  import opened Decimals

  type Id = nat
  type Addr = string

  datatype Phase = Idle | Bound | Listening | Connected | Closed
  datatype Side = Dialer | Acceptor

  /** One end of a link; it reads its own inbound queue and writes its peer's. */
  datatype Endpoint = Endpoint(link: nat, side: Side) {
    function Peer(): Endpoint {
      Endpoint(link, if side.Dialer? then Acceptor else Dialer)
    }
  }

  datatype PendingAccept = PendingAccept(remote: Addr, endpoint: Endpoint)

  datatype Op = BindOp | AnnounceOp | DialOp | ListenOp | HangupOp

  datatype NetError =
    | MissingAddress(op: Op)
    | InvalidTransition(op: Op, phase: Phase)
    | BindMismatch(addr: Addr)
    | AnnounceMismatch(expected: Addr, addr: Addr)
    | AddressInUse(addr: Addr)
    | NoListener(addr: Addr)
    | Unavailable(phase: Phase)
    | BrokenPipe

  datatype Outcome<+T> = Done(value: T) | Failed(error: NetError)

  datatype Conn = Conn(phase: Phase, local: Addr, remote: Addr, lastError: Option<NetError>,
                       endpoint: Option<Endpoint>, pending: seq<PendingAccept>)

  const FRESH := Conn(Idle, "", "", None, None, [])

  /** Who made a link, whom it was offered to, and who picked it up. */
  datatype LinkInfo = LinkInfo(dialer: Id, listener: Id, acceptor: Option<Id>)

  /** Everything the device holds, with the history of links and of transferred bytes. */
  datatype Net = Net(conns: map<Id, Conn>, listeners: map<Addr, Id>, inbound: map<Endpoint, seq<Byte>>,
                     closed: set<nat>, nextId: nat, links: seq<LinkInfo>,
                     written: map<Endpoint, seq<Byte>>, received: map<Endpoint, seq<Byte>>)

  /** The registry is exactly the Listening connections, by local address. */
  ghost predicate RegistryExact(n: Net) {
    && (forall a :: a in n.listeners ==>
          && n.listeners[a] in n.conns && n.conns[n.listeners[a]].phase.Listening?
          && n.conns[n.listeners[a]].local == a)
    && (forall c :: c in n.conns && n.conns[c].phase.Listening? ==>
          n.conns[c].local in n.listeners && n.listeners[n.conns[c].local] == c)
  }

  predicate Shaped(c: Conn) {
    && (c.endpoint.Some? <==> c.phase.Connected?)
    && (c.pending != [] ==> c.phase.Listening?)
    && (c.phase.Listening? || c.phase.Connected? ==> c.local != "")
  }

  /** A connection has an endpoint exactly when Connected, and pending dialers only when Listening. */
  ghost predicate PhasesMatch(n: Net) {
    forall c :: c in n.conns ==> Shaped(n.conns[c]) && c <= n.nextId
  }

  ghost predicate InstalledAt(n: Net, c: Id, e: Endpoint) {
    c in n.conns && n.conns[c].endpoint == Some(e)
  }

  ghost predicate OwnsEnd(n: Net, c: Id, e: Endpoint) {
    e.link < |n.links| && if e.side.Dialer? then n.links[e.link].dialer == c else n.links[e.link].acceptor == Some(c)
  }

  /** Installed ends belong to the connection that dialed or accepted, and to no other. */
  ghost predicate EndsOwned(n: Net) {
    forall c :: c in n.conns && n.conns[c].endpoint.Some? ==> OwnsEnd(n, c, n.conns[c].endpoint.value)
  }

  ghost predicate Wired(n: Net, k: nat)
    requires k < |n.links|
  {
    && InstalledAt(n, n.links[k].dialer, Endpoint(k, Dialer))
    && (n.links[k].acceptor.Some? ==>
          && InstalledAt(n, n.links[k].acceptor.value, Endpoint(k, Acceptor))
          && n.conns[n.links[k].acceptor.value].local == n.conns[n.links[k].dialer].remote
          && n.conns[n.links[k].acceptor.value].remote == n.conns[n.links[k].dialer].local)
  }

  /** An unclosed link has its dialing end installed; once accepted, both ends are installed,
      cross-wired, with mirrored addresses. */
  ghost predicate LinksWired(n: Net) {
    forall k :: 0 <= k < |n.links| && k !in n.closed ==> Wired(n, k)
  }

  ghost predicate OfferSound(n: Net, c: Id, offer: PendingAccept)
    requires c in n.conns
  {
    var k := offer.endpoint.link;
    && offer.endpoint.side.Acceptor? && k < |n.links|
    && n.links[k].listener == c && n.links[k].acceptor.None?
    && (k !in n.closed ==> n.links[k].dialer in n.conns
                           && n.conns[n.links[k].dialer].remote == n.conns[c].local
                           && n.conns[n.links[k].dialer].local == offer.remote)
  }

  /** Links are numbered as they are dialed, so this is the order of the dials. */
  ghost predicate InDialOrder(pending: seq<PendingAccept>) {
    forall i, j :: 0 <= i < j < |pending| ==> pending[i].endpoint.link < pending[j].endpoint.link
  }

  /** Dialers wait in the order in which they dialed, each once. */
  ghost predicate QueuesOrdered(n: Net) {
    forall c {:trigger InDialOrder(n.conns[c].pending)} :: c in n.conns ==> InDialOrder(n.conns[c].pending)
  }

  /** A waiting dialer waits at the listener it dialed, under the address it dialed. */
  ghost predicate OffersSound(n: Net) {
    forall c, offer {:trigger OfferSound(n, c, offer)} ::
      c in n.conns && offer in n.conns[c].pending ==> OfferSound(n, c, offer)
  }

  ghost predicate Flows(n: Net, from: Endpoint, to: Endpoint) {
    from in n.written && to in n.received && to in n.inbound && n.written[from] == n.received[to] + n.inbound[to]
  }

  /** In each direction the bytes accepted by write are the bytes read, then those still queued. */
  ghost predicate BytesConserved(n: Net) {
    forall k :: 0 <= k < |n.links| ==>
      Flows(n, Endpoint(k, Dialer), Endpoint(k, Acceptor)) && Flows(n, Endpoint(k, Acceptor), Endpoint(k, Dialer))
  }

  ghost predicate ClosedOnlyLinks(n: Net) {
    forall k :: k in n.closed ==> k < |n.links|
  }

  ghost predicate Inv(n: Net) {
    RegistryExact(n) && PhasesMatch(n) && EndsOwned(n) && LinksWired(n) && OffersSound(n) && BytesConserved(n)
    && ClosedOnlyLinks(n) && QueuesOrdered(n)
  }

  /** Queues stay ordered when only that of `id` changes, and into an ordered one. */
  lemma QueuesStay(n: Net, m: Net, id: Id)
    requires QueuesOrdered(n) && forall c :: c in m.conns && c != id ==>
      c in n.conns && m.conns[c].pending == n.conns[c].pending
    requires id in m.conns ==> InDialOrder(m.conns[id].pending)
    ensures QueuesOrdered(m)
  {
    forall c | c in m.conns ensures InDialOrder(m.conns[c].pending) {
      if c != id { assert InDialOrder(n.conns[c].pending); }
    }
  }

  predicate Active(c: Conn) {
    c.phase.Listening? || c.phase.Connected?
  }

  /** A new connection, or a change to one that neither listens nor is connected. */
  lemma InactiveKeepsInv(n: Net, id: Id, c: Conn, nextId: nat)
    requires Inv(n) && id <= nextId && n.nextId <= nextId
    requires id in n.conns ==> !Active(n.conns[id])
    requires !Active(c) && c.endpoint.None? && c.pending == []
    ensures Inv(n.(conns := n.conns[id := c], nextId := nextId))
  {
    var m := n.(conns := n.conns[id := c], nextId := nextId);
    OthersUndisturbed(n, m, id);
    QueuesStay(n, m, id);
  }

  /** A change to the error text alone. */
  lemma ErrorKeepsInv(n: Net, id: Id, error: Option<NetError>)
    requires Inv(n) && id in n.conns
    ensures Inv(n.(conns := n.conns[id := n.conns[id].(lastError := error)]))
  {
    var m := n.(conns := n.conns[id := n.conns[id].(lastError := error)]);
    assert InDialOrder(n.conns[id].pending);
    QueuesStay(n, m, id);
    forall k | 0 <= k < |m.links| && k !in m.closed ensures Wired(m, k) {
      assert Wired(n, k);
    }
    forall c, offer | c in m.conns && offer in m.conns[c].pending ensures OfferSound(m, c, offer) {
      assert OfferSound(n, c, offer);
    }
  }

  /** Changing a connection without a live end leaves links and offers of the others intact. */
  lemma OthersUndisturbed(n: Net, m: Net, id: Id)
    requires LinksWired(n) && OffersSound(n) && EndsOwned(n) && PhasesMatch(n)
    requires m.links == n.links && m.closed == n.closed && id in m.conns
    requires forall c :: c != id ==> (c in m.conns <==> c in n.conns) && (c in n.conns ==> m.conns[c] == n.conns[c])
    requires id in n.conns ==> n.conns[id].endpoint.None?
    requires m.conns[id].pending == []
    ensures LinksWired(m) && OffersSound(m)
  {
    forall k | 0 <= k < |m.links| && k !in m.closed ensures Wired(m, k) {
      assert Wired(n, k);
    }
    forall c, offer | c in m.conns && offer in m.conns[c].pending ensures OfferSound(m, c, offer) {
      assert OfferSound(n, c, offer);
      var k := offer.endpoint.link;
      if k !in n.closed { assert Wired(n, k); }
    }
  }

  lemma AnnounceKeepsInv(n: Net, id: Id, addr: Addr)
    requires Inv(n) && id in n.conns && !Active(n.conns[id]) && addr != "" && addr !in n.listeners
    ensures Inv(n.(conns := n.conns[id := Conn(Listening, addr, "", None, None, [])],
        listeners := n.listeners[addr := id]))
  {
    var m := n.(conns := n.conns[id := Conn(Listening, addr, "", None, None, [])],
        listeners := n.listeners[addr := id]);
    OthersUndisturbed(n, m, id);
    QueuesStay(n, m, id);
  }

  function Dialed(n: Net, id: Id, addr: Addr, local: Addr): Net
    requires id in n.conns && addr in n.listeners && n.listeners[addr] in n.conns && n.listeners[addr] != id
  {
    var k, l := |n.links|, n.listeners[addr];
    var dialer, acceptor := Endpoint(k, Dialer), Endpoint(k, Acceptor);
    n.(conns := n.conns[id := n.conns[id].(phase := Connected, local := local, remote := addr,
                                           lastError := None, endpoint := Some(dialer))]
                       [l := n.conns[l].(pending := n.conns[l].pending + [PendingAccept(local, acceptor)])],
       inbound := n.inbound[dialer := []][acceptor := []],
       links := n.links + [LinkInfo(id, l, None)],
       written := n.written[dialer := []][acceptor := []],
       received := n.received[dialer := []][acceptor := []])
  }

  lemma DialKeepsLinks(n: Net, id: Id, addr: Addr, local: Addr)
    requires Inv(n) && id in n.conns && !Active(n.conns[id]) && addr in n.listeners && local != ""
    ensures LinksWired(Dialed(n, id, addr, local)) && EndsOwned(Dialed(n, id, addr, local))
  {
    var m := Dialed(n, id, addr, local);
    forall j | 0 <= j < |m.links| && j !in m.closed ensures Wired(m, j) {
      if j < |n.links| { assert Wired(n, j); }
    }
  }

  lemma DialKeepsOffers(n: Net, id: Id, addr: Addr, local: Addr)
    requires Inv(n) && id in n.conns && !Active(n.conns[id]) && addr in n.listeners && local != ""
    ensures OffersSound(Dialed(n, id, addr, local))
  {
    var m := Dialed(n, id, addr, local);
    var k, l := |n.links|, n.listeners[addr];
    forall c, offer | c in m.conns && offer in m.conns[c].pending ensures OfferSound(m, c, offer) {
      if c in n.conns && offer in n.conns[c].pending {
        assert OfferSound(n, c, offer);
        if offer.endpoint.link !in n.closed { assert Wired(n, offer.endpoint.link); }
      }
    }
  }

  lemma DialKeepsOrder(n: Net, id: Id, addr: Addr, local: Addr)
    requires Inv(n) && id in n.conns && !Active(n.conns[id]) && addr in n.listeners && local != ""
    ensures QueuesOrdered(Dialed(n, id, addr, local))
  {
    var m, l := Dialed(n, id, addr, local), n.listeners[addr];
    assert InDialOrder(n.conns[l].pending) && m.conns[id].pending == n.conns[id].pending;
    forall i | 0 <= i < |n.conns[l].pending| ensures n.conns[l].pending[i].endpoint.link < |n.links| {
      assert n.conns[l].pending[i] in n.conns[l].pending;
      assert OfferSound(n, l, n.conns[l].pending[i]);
    }
    QueuesStay(n, m, l);
  }

  lemma DialKeepsInv(n: Net, id: Id, addr: Addr, local: Addr)
    requires Inv(n) && id in n.conns && !Active(n.conns[id]) && addr in n.listeners && local != ""
    ensures n.listeners[addr] != id && Inv(Dialed(n, id, addr, local))
  {
    DialKeepsLinks(n, id, addr, local);
    DialKeepsOffers(n, id, addr, local);
    DialKeepsOrder(n, id, addr, local);
    var m := Dialed(n, id, addr, local);
    forall k | 0 <= k < |m.links|
      ensures Flows(m, Endpoint(k, Dialer), Endpoint(k, Acceptor))
      ensures Flows(m, Endpoint(k, Acceptor), Endpoint(k, Dialer))
    {
      if k < |n.links| {
        assert Flows(n, Endpoint(k, Dialer), Endpoint(k, Acceptor));
        assert Flows(n, Endpoint(k, Acceptor), Endpoint(k, Dialer));
      }
    }
  }

  /** `id` takes its first offer into a new connection `made`. */
  function Accepted(n: Net, id: Id, made: Id): Net
    requires id in n.conns && n.conns[id].pending != [] && n.conns[id].pending[0].endpoint.link < |n.links|
  {
    var c := n.conns[id];
    var offer := c.pending[0];
    n.(conns := n.conns[id := c.(pending := c.pending[1..])]
                       [made := Conn(Connected, c.local, offer.remote, None, Some(offer.endpoint), [])],
       nextId := made,
       links := n.links[offer.endpoint.link := n.links[offer.endpoint.link].(acceptor := Some(made))])
  }

  lemma FirstOffer(n: Net, id: Id)
    requires Inv(n) && id in n.conns && n.conns[id].pending != []
    ensures var offer := n.conns[id].pending[0];
            && OfferSound(n, id, offer) && n.conns[id].phase.Listening?
            && (forall rest :: rest in n.conns[id].pending[1..] ==>
                  rest in n.conns[id].pending && rest.endpoint.link > offer.endpoint.link)
            && InDialOrder(n.conns[id].pending[1..])
  {
    var pending := n.conns[id].pending;
    assert pending[0] in pending;
    assert OfferSound(n, id, pending[0]);
    assert InDialOrder(pending);
    forall rest | rest in pending[1..] ensures rest in pending && rest.endpoint.link > pending[0].endpoint.link {
      var i :| 0 <= i < |pending[1..]| && pending[1..][i] == rest;
      assert pending[i + 1] == rest;
      assert OfferSound(n, id, rest);
    }
  }

  lemma AcceptKeepsLinks(n: Net, id: Id, made: Id)
    requires Inv(n) && id in n.conns && n.conns[id].pending != [] && made == n.nextId + 1
    requires OfferSound(n, id, n.conns[id].pending[0])
    ensures LinksWired(Accepted(n, id, made)) && EndsOwned(Accepted(n, id, made))
  {
    var m := Accepted(n, id, made);
    var k := n.conns[id].pending[0].endpoint.link;
    forall j | 0 <= j < |m.links| && j !in m.closed ensures Wired(m, j) {
      assert Wired(n, j);
    }
    forall c | c in m.conns && m.conns[c].endpoint.Some? ensures OwnsEnd(m, c, m.conns[c].endpoint.value) {
      if c != made { assert OwnsEnd(n, c, n.conns[c].endpoint.value); }
    }
  }

  lemma AcceptKeepsOffers(n: Net, id: Id, made: Id)
    requires Inv(n) && id in n.conns && n.conns[id].pending != [] && made == n.nextId + 1
    requires OfferSound(n, id, n.conns[id].pending[0])
    ensures OffersSound(Accepted(n, id, made))
  {
    var m := Accepted(n, id, made);
    FirstOffer(n, id);
    forall c, offer | c in m.conns && offer in m.conns[c].pending ensures OfferSound(m, c, offer) {
      assert offer in n.conns[c].pending;
      assert OfferSound(n, c, offer);
    }
  }

  lemma AcceptKeepsOrder(n: Net, id: Id, made: Id)
    requires Inv(n) && id in n.conns && n.conns[id].pending != [] && made == n.nextId + 1
    requires OfferSound(n, id, n.conns[id].pending[0])
    ensures QueuesOrdered(Accepted(n, id, made))
  {
    var m := Accepted(n, id, made);
    FirstOffer(n, id);
    forall c | c in m.conns ensures InDialOrder(m.conns[c].pending) {
      if c in n.conns { assert InDialOrder(n.conns[c].pending); }
    }
  }

  lemma AcceptKeepsInv(n: Net, id: Id, made: Id)
    requires Inv(n) && id in n.conns && n.conns[id].pending != [] && made == n.nextId + 1
    ensures n.conns[id].pending[0].endpoint.link < |n.links|
    ensures forall later :: later in n.conns[id].pending[1..] ==>
      n.conns[id].pending[0].endpoint.link < later.endpoint.link
    ensures Inv(Accepted(n, id, made))
  {
    FirstOffer(n, id);
    AcceptKeepsLinks(n, id, made);
    AcceptKeepsOffers(n, id, made);
    var m := Accepted(n, id, made);
    AcceptKeepsOrder(n, id, made);
    forall k | 0 <= k < |m.links|
      ensures Flows(m, Endpoint(k, Dialer), Endpoint(k, Acceptor))
      ensures Flows(m, Endpoint(k, Acceptor), Endpoint(k, Dialer))
    {
      assert Flows(n, Endpoint(k, Dialer), Endpoint(k, Acceptor))
      && Flows(n, Endpoint(k, Acceptor), Endpoint(k, Dialer));
    }
  }

  /** `id` drops what it holds: its registration, its end of a link, its waiting dialers. */
  function Dropped(n: Net, id: Id, c: Conn): Net
    requires id in n.conns
  {
    var was := n.conns[id];
    n.(conns := n.conns[id := c],
       listeners := if was.phase.Listening? then n.listeners - {was.local} else n.listeners,
       closed := if was.endpoint.Some? then n.closed + {was.endpoint.value.link} else n.closed)
  }

  lemma DropKeepsInv(n: Net, id: Id, c: Conn)
    requires Inv(n) && id in n.conns && !Active(c) && c.endpoint.None? && c.pending == []
    ensures Inv(Dropped(n, id, c))
  {
    var m := Dropped(n, id, c);
    QueuesStay(n, m, id);
    if n.conns[id].endpoint.Some? { assert OwnsEnd(n, id, n.conns[id].endpoint.value); }
    forall k | 0 <= k < |m.links| && k !in m.closed ensures Wired(m, k) {
      assert Wired(n, k);
    }
    forall d, offer | d in m.conns && offer in m.conns[d].pending ensures OfferSound(m, d, offer) {
      assert OfferSound(n, d, offer);
      if offer.endpoint.link !in m.closed { assert Wired(n, offer.endpoint.link); }
    }
  }

  function Taken(n: Net, e: Endpoint, count: nat): Net
    requires e in n.inbound && e in n.received && count <= |n.inbound[e]|
  {
    n.(inbound := n.inbound[e := n.inbound[e][count..]],
        received := n.received[e := n.received[e] + n.inbound[e][..count]])
  }

  function Queued(n: Net, e: Endpoint, data: seq<Byte>): Net
    requires e.Peer() in n.inbound && e in n.written
  {
    n.(inbound := n.inbound[e.Peer() := n.inbound[e.Peer()] + data], written := n.written[e := n.written[e] + data])
  }

  lemma FlowsOf(n: Net, e: Endpoint)
    requires BytesConserved(n) && e.link < |n.links|
    ensures Flows(n, e.Peer(), e) && Flows(n, e, e.Peer())
  {
    assert Flows(n, Endpoint(e.link, Dialer), Endpoint(e.link, Acceptor))
    && Flows(n, Endpoint(e.link, Acceptor), Endpoint(e.link, Dialer));
  }

  lemma TakeKeepsInv(n: Net, e: Endpoint, count: nat)
    requires Inv(n) && e.link < |n.links| && e in n.inbound && e in n.received && count <= |n.inbound[e]|
    ensures Inv(Taken(n, e, count))
  {
    var m := Taken(n, e, count);
    SameConns(n, m);
    assert n.inbound[e] == n.inbound[e][..count] + n.inbound[e][count..];
    forall f: Endpoint | f.link < |n.links| ensures Flows(m, f.Peer(), f) {
      FlowsOf(n, f);
      if f == e { assert n.received[e] + n.inbound[e] == m.received[e] + m.inbound[e]; }
    }
    FlowsEverywhere(m);
  }

  lemma QueueKeepsInv(n: Net, e: Endpoint, data: seq<Byte>)
    requires Inv(n) && e.link < |n.links| && e.Peer() in n.inbound && e in n.written
    ensures Inv(Queued(n, e, data))
  {
    var m := Queued(n, e, data);
    SameConns(n, m);
    forall f: Endpoint | f.link < |n.links| ensures Flows(m, f.Peer(), f) {
      FlowsOf(n, f);
      if f == e.Peer() {
        assert n.received[f] + (n.inbound[f] + data) == (n.received[f] + n.inbound[f]) + data;
      }
    }
    FlowsEverywhere(m);
  }

  lemma FlowsEverywhere(n: Net)
    requires forall f: Endpoint :: f.link < |n.links| ==> Flows(n, f.Peer(), f)
    ensures BytesConserved(n)
  {
    forall k | 0 <= k < |n.links|
      ensures Flows(n, Endpoint(k, Dialer), Endpoint(k, Acceptor))
      ensures Flows(n, Endpoint(k, Acceptor), Endpoint(k, Dialer))
    {
      assert Flows(n, Endpoint(k, Dialer).Peer(), Endpoint(k, Dialer))
      && Flows(n, Endpoint(k, Acceptor).Peer(), Endpoint(k, Acceptor));
    }
  }

  lemma SameConns(n: Net, m: Net)
    requires Inv(n) && m == n.(inbound := m.inbound, written := m.written, received := m.received)
    ensures RegistryExact(m) && PhasesMatch(m) && EndsOwned(m) && LinksWired(m) && OffersSound(m) && ClosedOnlyLinks(m)
    ensures QueuesOrdered(m)
  {
    forall c | c in m.conns ensures InDialOrder(m.conns[c].pending) { assert InDialOrder(n.conns[c].pending); }
    forall k | 0 <= k < |m.links| && k !in m.closed ensures Wired(m, k) { assert Wired(n, k); }
    forall c, offer | c in m.conns
    && offer in m.conns[c].pending ensures OfferSound(m, c, offer) { assert OfferSound(n, c, offer); }
  }

  /** Two connections with the two ends of an open link mirror each other, and each has read a prefix
      of what the other wrote. */
  ghost predicate Mirrored(n: Net, a: Id, b: Id, e: Endpoint) {
    InstalledAt(n, a, e) && InstalledAt(n, b, e.Peer()) && e.link !in n.closed ==>
      && n.conns[a].phase.Connected? && n.conns[b].phase.Connected? && a != b
      && n.conns[a].local == n.conns[b].remote && n.conns[a].remote == n.conns[b].local
      && e in n.received && e.Peer() in n.written && n.received[e] <= n.written[e.Peer()]
  }

  /** Each end of a link is installed at no more than one connection. */
  ghost predicate InstalledOnce(n: Net, a: Id, b: Id, e: Endpoint) {
    InstalledAt(n, a, e) && InstalledAt(n, b, e) ==> a == b
  }

  lemma LinksAreMirrored(n: Net)
    requires Inv(n)
    ensures forall a, b, e :: Mirrored(n, a, b, e) && InstalledOnce(n, a, b, e)
  {
    forall a, b, e | InstalledAt(n, a, e) && InstalledAt(n, b, e.Peer()) && e.link !in n.closed
      ensures Mirrored(n, a, b, e)
    {
      assert OwnsEnd(n, a, e) && OwnsEnd(n, b, e.Peer());
      assert Wired(n, e.link);
      FlowsOf(n, e);
    }
    forall a, b, e | InstalledAt(n, a, e) && InstalledAt(n, b, e) ensures a == b {
      assert OwnsEnd(n, a, e) && OwnsEnd(n, b, e);
    }
  }

  class NetDevice {
    var nextId: nat
    var nextPort: nat
    var nextLink: nat
    var conns: map<Id, Conn>
    var listeners: map<Addr, Id>
    var inbound: map<Endpoint, seq<Byte>>
    var closed: set<nat>
    ghost var links: seq<LinkInfo>
    ghost var written: map<Endpoint, seq<Byte>>
    ghost var received: map<Endpoint, seq<Byte>>

    ghost function State(): Net
      reads this
    {
      Net(conns, listeners, inbound, closed, nextId, links, written, received)
    }

    ghost predicate Valid()
      reads this
    {
      Inv(State()) && |links| == nextLink
    }

    constructor ()
      ensures Valid() && conns == map[] && listeners == map[]
    {
      nextId, nextPort, nextLink, conns, listeners := 0, 0, 0, map[], map[];
      inbound, closed, links, written, received := map[], {}, [], map[], map[];
    }

    method Alloc() returns (id: Id)
      requires Valid()
      modifies this`nextId, this`conns
      ensures Valid() && id !in old(conns) && conns == old(conns)[id := FRESH]
    {
      ghost var after := State().(conns := conns[nextId + 1 := FRESH], nextId := nextId + 1);
      InactiveKeepsInv(State(), nextId + 1, FRESH, nextId + 1);
      nextId := nextId + 1;
      conns := conns[nextId := FRESH];
      assert State() == after;
      return nextId;
    }

    /** Records why a command was refused. */
    method Refuse(id: Id, error: NetError)
      requires Valid() && id in conns
      modifies this`conns
      ensures Valid() && State() == old(State()).(conns := old(conns)[id := old(conns)[id].(lastError := Some(error))])
    {
      ErrorKeepsInv(State(), id, Some(error));
      conns := conns[id := conns[id].(lastError := Some(error))];
    }

    /** Binding succeeds from Idle and Closed, and again to the same address from Bound. */
    method Bind(id: Id, addr: Addr) returns (r: Outcome<()>)
      requires Valid() && id in conns
      modifies this`conns
      ensures Valid() && id in conns && conns == old(conns)[id := conns[id]]
      ensures var was, now := old(conns)[id], conns[id];
              && (r.Done? <==>
                    addr != "" && (was.phase.Idle? || was.phase.Closed? || (was.phase.Bound? && was.local == addr)))
              && (r.Done? ==> now == was.(phase := Bound, local := addr, lastError := None,
                  remote := if was.phase.Bound? then was.remote else ""))
              && (r.Failed? ==> now == was.(lastError := Some(r.error)))
    {
      var c := conns[id];
      if addr == "" {
        r := Failed(MissingAddress(BindOp));
      } else if c.phase.Idle? || c.phase.Closed? {
        InactiveKeepsInv(State(), id, Conn(Bound, addr, "", None, None, []), nextId);
        conns := conns[id := c.(phase := Bound, local := addr, remote := "", lastError := None, endpoint := None)];
        return Done(());
      } else if c.phase.Bound? {
        r := if c.local == addr then Done(()) else Failed(BindMismatch(addr));
      } else {
        r := Failed(InvalidTransition(BindOp, c.phase));
      }
      if r.Failed? {
        Refuse(id, r.error);
      } else {
        ErrorKeepsInv(State(), id, None);
        conns := conns[id := c.(lastError := None)];
      }
    }

    /** Announcing takes a free address. A refused address still overwrites the local address of
        an unbound connection, which stays unregistered. */
    method Announce(id: Id, addr: Addr) returns (r: Outcome<()>)
      requires Valid() && id in conns
      modifies this`conns, this`listeners
      ensures Valid() && id in conns && conns == old(conns)[id := conns[id]]
      ensures var was, now := old(conns)[id], conns[id];
              && (r.Done? <==> addr != "" && addr !in old(listeners)
                               && (was.phase.Idle? || was.phase.Closed? || (was.phase.Bound? && was.local == addr)))
              && (r.Done? ==>
                    now == Conn(Listening, addr, "", None, None, []) && listeners == old(listeners)[addr := id])
              && (r.Failed? ==> listeners == old(listeners))
              && (r == Failed(AddressInUse(addr)) <==>
                    addr != "" && addr in old(listeners)
                    && (was.phase.Idle? || was.phase.Closed? || (was.phase.Bound? && was.local == addr)))
              && (r.Failed? && r.error.AddressInUse? ==> addr in old(listeners) && now == was.(local := addr))
              && (r.Failed? && !r.error.AddressInUse? ==> now == was.(lastError := Some(r.error)))
    {
      var c := conns[id];
      if addr == "" {
        r := Failed(MissingAddress(AnnounceOp));
      } else if c.phase.Listening? || c.phase.Connected? {
        r := Failed(InvalidTransition(AnnounceOp, c.phase));
      } else if c.phase.Bound? && c.local != addr {
        r := Failed(AnnounceMismatch(c.local, addr));
      } else {
        r := TakeAddress(id, addr);
        return;
      }
      Refuse(id, r.error);
    }

    /** The half of `Announce` that consults the registry. */
    method TakeAddress(id: Id, addr: Addr) returns (r: Outcome<()>)
      requires Valid() && id in conns && !Active(conns[id]) && addr != ""
      modifies this`conns, this`listeners
      ensures Valid()
      ensures addr in old(listeners) ==>
        && r == Failed(AddressInUse(addr))
        && State() == old(State()).(conns := old(conns)[id := old(conns)[id].(local := addr)])
      ensures addr !in old(listeners) ==>
        && r == Done(())
        && State() == old(State()).(conns := old(conns)[id := Conn(Listening, addr, "", None, None, [])],
                                    listeners := old(listeners)[addr := id])
    {
      var c := conns[id];
      InactiveKeepsInv(State(), id, c.(local := addr), nextId);
      conns := conns[id := c.(local := addr)];
      if addr in listeners {
        return Failed(AddressInUse(addr));
      }
      AnnounceKeepsInv(State(), id, addr);
      Register(id, addr);
      return Done(());
    }

    method Register(id: Id, addr: Addr)
      requires id in conns && addr !in listeners
      modifies this`conns, this`listeners
      ensures State() == old(State()).(listeners := old(listeners)[addr := id],
                conns := old(conns)[id := old(conns)[id].(phase := Listening, remote := "", lastError := None,
                    endpoint := None)])
    {
      listeners := listeners[addr := id];
      conns := conns[id := conns[id].(phase := Listening, remote := "", lastError := None, endpoint := None)];
    }

    /** Dialing connects at once and queues the other end at the listener of `addr`. A connection
        without a local address gets one that is not empty. */
    method Dial(id: Id, addr: Addr) returns (r: Outcome<()>)
      requires Valid() && id in conns
      modifies this
      ensures Valid() && id in conns
      ensures r.Done? <==> addr != "" && addr in old(listeners) && !Active(old(conns)[id])
      ensures r.Done? ==> old(listeners)[addr] in old(conns) && old(listeners)[addr] != id
                          && State() == Dialed(old(State()), id, addr, conns[id].local)
      ensures r.Done? ==>
        var l, k := old(listeners)[addr], |old(links)|;
        && conns[id].phase.Connected? && conns[id].remote == addr && conns[id].endpoint == Some(Endpoint(k, Dialer))
        && conns[l].pending == old(conns)[l].pending + [PendingAccept(conns[id].local, Endpoint(k, Acceptor))]
        && inbound == old(inbound)[Endpoint(k, Dialer) := []][Endpoint(k, Acceptor) := []]
      ensures r.Done? ==>
        conns[id].local
        == if old(conns)[id].local != "" then old(conns)[id].local else "local:" + Decimal(10001 + old(nextPort))
      ensures r.Failed? && r.error.NoListener? ==> State() == old(State())
      ensures r.Failed? && !r.error.NoListener? ==>
        State() == old(State()).(conns := old(conns)[id := old(conns)[id].(lastError := Some(r.error))])
    {
      var c := conns[id];
      if addr == "" {
        Refuse(id, MissingAddress(DialOp));
        return Failed(MissingAddress(DialOp));
      }
      if addr !in listeners {
        return Failed(NoListener(addr));
      }
      if c.phase.Listening? || c.phase.Connected? {
        Refuse(id, InvalidTransition(DialOp, c.phase));
        return Failed(InvalidTransition(DialOp, c.phase));
      }
      ghost var before := State();
      assert listeners[addr] in conns && conns[listeners[addr]].phase.Listening?;
      Connect(id, addr);
      DialKeepsInv(before, id, addr, conns[id].local);
      return Done(());
    }

    /** The successful half of `Dial`: a new link, one end here and one waiting at the listener. */
    method Connect(id: Id, addr: Addr)
      requires id in conns && addr in listeners && listeners[addr] in conns && listeners[addr] != id
      requires |links| == nextLink
      modifies this
      ensures id in conns && |links| == nextLink
      ensures State() == Dialed(old(State()), id, addr, conns[id].local)
      ensures conns[id].local
        == if old(conns)[id].local != "" then old(conns)[id].local else "local:" + Decimal(10001 + old(nextPort))
      ensures nextPort == old(nextPort) + if old(conns)[id].local == "" then 1 else 0
    {
      var c, l := conns[id], listeners[addr];
      nextPort := if c.local == "" then nextPort + 1 else nextPort;
      var local := if c.local == "" then "local:" + Decimal(10000 + nextPort) else c.local;
      var dialer, acceptor := Endpoint(nextLink, Dialer), Endpoint(nextLink, Acceptor);
      nextLink := nextLink + 1;
      inbound := inbound[dialer := []][acceptor := []];
      links := links + [LinkInfo(id, l, None)];
      written := written[dialer := []][acceptor := []];
      received := received[dialer := []][acceptor := []];
      conns := conns[id := c.(phase := Connected, local := local, remote := addr, lastError := None,
          endpoint := Some(dialer))]
                    [l := conns[l].(pending := conns[l].pending + [PendingAccept(local, acceptor)])];
    }

    /** Takes the dialer that has waited longest and installs a connection for it. */
    method AcceptOne(id: Id) returns (r: Outcome<Option<Id>>)
      requires Valid() && id in conns
      modifies this`conns, this`nextId, this`links
      ensures Valid()
      ensures r.Done? <==> old(conns)[id].phase.Listening?
      ensures r.Failed? ==>
        State() == old(State()).(conns := old(conns)[id := old(conns)[id].(lastError := Some(r.error))])
      ensures r.Done? && old(conns)[id].pending == [] ==> r.value.None? && State() == old(State())
      ensures r.Done? && old(conns)[id].pending != [] ==>
        && r.value.Some? && r.value.value !in old(conns)
        && old(conns)[id].pending[0].endpoint.link < |old(links)|
        && State() == Accepted(old(State()), id, r.value.value)
        && conns == old(conns)[id := old(conns)[id].(pending := old(conns)[id].pending[1..])][r.value.value :=
             Conn(Connected, old(conns)[id].local, old(conns)[id].pending[0].remote, None,
                  Some(old(conns)[id].pending[0].endpoint), [])]
        && forall later :: later in old(conns)[id].pending[1..] ==>
             old(conns)[id].pending[0].endpoint.link < later.endpoint.link
    {
      var c := conns[id];
      if !c.phase.Listening? {
        Refuse(id, InvalidTransition(ListenOp, c.phase));
        return Failed(InvalidTransition(ListenOp, c.phase));
      }
      if c.pending == [] {
        return Done(None);
      }
      ghost var before := State();
      AcceptKeepsInv(before, id, nextId + 1);
      InstallAccepted(id);
      return Done(Some(nextId));
    }

    /** Moves the first offer of `id` into a new connection. */
    method InstallAccepted(id: Id)
      requires id in conns && conns[id].pending != [] && conns[id].pending[0].endpoint.link < |links|
      modifies this`conns, this`nextId, this`links
      ensures nextId == old(nextId) + 1 && |links| == |old(links)|
      ensures conns == old(conns)[id := old(conns)[id].(pending := old(conns)[id].pending[1..])][nextId :=
          Conn(Connected, old(conns)[id].local, old(conns)[id].pending[0].remote, None,
               Some(old(conns)[id].pending[0].endpoint), [])]
      ensures State() == Accepted(old(State()), id, nextId)
    {
      var c := conns[id];
      var offer := c.pending[0];
      nextId := nextId + 1;
      links := links[offer.endpoint.link := links[offer.endpoint.link].(acceptor := Some(nextId))];
      conns := conns[id := c.(pending := c.pending[1..])][nextId := Conn(Connected, c.local, offer.remote, None,
          Some(offer.endpoint), [])];
    }

    /** Ends a connection or a listener. The link is closed for both ends; waiting dialers are
        dropped. */
    method Hangup(id: Id) returns (r: Outcome<()>)
      requires Valid() && id in conns
      modifies this`conns, this`listeners, this`closed
      ensures Valid()
      ensures r.Done? <==> Active(old(conns)[id])
      ensures r.Done? ==> State() == Dropped(old(State()), id,
          old(conns)[id].(phase := Phase.Closed, lastError := None, endpoint := None, pending := []))
      ensures r.Done? ==>
        var was := old(conns)[id];
        && conns == old(conns)[id := Conn(Phase.Closed, was.local, was.remote, None, None, [])]
        && listeners == (if was.phase.Listening? then old(listeners) - {was.local} else old(listeners))
        && closed == (if was.endpoint.Some? then old(closed) + {was.endpoint.value.link} else old(closed))
      ensures r.Failed? ==>
        State() == old(State()).(conns := old(conns)[id := old(conns)[id].(lastError := Some(r.error))])
    {
      var c := conns[id];
      if !c.phase.Connected? && !c.phase.Listening? {
        Refuse(id, InvalidTransition(HangupOp, c.phase));
        return Failed(InvalidTransition(HangupOp, c.phase));
      }
      DropKeepsInv(State(), id, c.(phase := Phase.Closed, lastError := None, endpoint := None, pending := []));
      if c.phase.Listening? && c.local != "" {
        Unregister(c.local, id);
      }
      if c.endpoint.Some? {
        closed := closed + {c.endpoint.value.link};
      }
      conns := conns[id := c.(phase := Phase.Closed, lastError := None, endpoint := None, pending := [])];
      return Done(());
    }

    method Unregister(addr: Addr, id: Id)
      modifies this`listeners
      ensures listeners == if addr in old(listeners) && old(listeners)[addr] == id
          then old(listeners) - {addr}
          else old(listeners)
    {
      if addr in listeners && listeners[addr] == id {
        listeners := listeners - {addr};
      }
    }

    /** Returns a connection to its initial state from any phase. */
    method Reset(id: Id)
      requires Valid() && id in conns
      modifies this`conns, this`listeners, this`closed
      ensures Valid() && State() == Dropped(old(State()), id, FRESH)
      ensures
        var was := old(conns)[id];
        && conns == old(conns)[id := Conn(Idle, "", "", None, None, [])]
        && listeners == (if was.phase.Listening? then old(listeners) - {was.local} else old(listeners))
        && closed == (if was.endpoint.Some? then old(closed) + {was.endpoint.value.link} else old(closed))
    {
      DropKeepsInv(State(), id, FRESH);
      var c := conns[id];
      if c.local != "" {
        Unregister(c.local, id);
      }
      if c.endpoint.Some? {
        closed := closed + {c.endpoint.value.link};
      }
      conns := conns[id := FRESH];
    }

    /** Takes up to `count` queued bytes, also from a link that has been closed. */
    method Read(id: Id, count: nat) returns (r: Outcome<seq<Byte>>)
      requires Valid() && id in conns
      modifies this`inbound, this`received
      ensures Valid()
      ensures r.Done? <==> conns[id].phase.Connected?
      ensures r.Failed? ==> State() == old(State())
      ensures r.Done? ==>
        var e := conns[id].endpoint.value;
        && e in old(inbound) && e in old(received)
        && |r.value| == (if count < |old(inbound)[e]| then count else |old(inbound)[e]|)
        && r.value <= old(inbound)[e] && State() == Taken(old(State()), e, |r.value|)
        && inbound == old(inbound)[e := old(inbound)[e][|r.value|..]]
        && received == old(received)[e := old(received)[e] + r.value]
    {
      if !conns[id].phase.Connected? {
        return Failed(Unavailable(conns[id].phase));
      }
      var e := conns[id].endpoint.value;
      assert OwnsEnd(State(), id, e);
      FlowsOf(State(), e);
      var queue := inbound[e];
      var n := if count < |queue| then count else |queue|;
      TakeKeepsInv(State(), e, n);
      inbound := inbound[e := queue[n..]];
      received := received[e := received[e] + queue[..n]];
      return Done(queue[..n]);
    }

    /** Queues bytes for the peer; refused once either end has closed the link. */
    method Write(id: Id, data: seq<Byte>) returns (r: Outcome<nat>)
      requires Valid() && id in conns
      modifies this`inbound, this`written
      ensures Valid()
      ensures r.Done? <==> conns[id].phase.Connected? && conns[id].endpoint.value.link !in closed
      ensures r.Failed? ==> State() == old(State())
      ensures r.Done? ==>
        var e := conns[id].endpoint.value;
        && r.value == |data| && e.Peer() in old(inbound) && e in old(written)
        && State() == Queued(old(State()), e, data)
        && inbound == old(inbound)[e.Peer() := old(inbound)[e.Peer()] + data]
        && written == old(written)[e := old(written)[e] + data]
    {
      if !conns[id].phase.Connected? {
        return Failed(Unavailable(conns[id].phase));
      }
      var e := conns[id].endpoint.value;
      if e.link in closed {
        return Failed(BrokenPipe);
      }
      assert OwnsEnd(State(), id, e);
      FlowsOf(State(), e);
      QueueKeepsInv(State(), e, data);
      inbound := inbound[e.Peer() := inbound[e.Peer()] + data];
      written := written[e := written[e] + data];
      return Done(|data|);
    }
  }

  datatype Command =
    | NewConn
    | BindCmd(id: Id, addr: Addr)
    | AnnounceCmd(id: Id, addr: Addr)
    | DialCmd(id: Id, addr: Addr)
    | ListenCmd(id: Id)
    | HangupCmd(id: Id)
    | ResetCmd(id: Id)
    | ReadCmd(id: Id, count: nat)
    | WriteCmd(id: Id, data: seq<Byte>)

  /** Any sequence of commands, on connections that exist, keeps the invariant throughout; so after
      each of them the open links are mirrored and no end is installed twice. */
  method Drive(commands: seq<Command>) returns (device: NetDevice)
    ensures device.Valid()
    ensures forall a, b, e :: Mirrored(device.State(), a, b, e) && InstalledOnce(device.State(), a, b, e)
    ensures forall c, i, j :: c in device.conns && 0 <= i < j < |device.conns[c].pending| ==>
      device.conns[c].pending[i].endpoint.link < device.conns[c].pending[j].endpoint.link
  {
    device := new NetDevice();
    for i := 0 to |commands|
      invariant device.Valid()
      invariant fresh(device)
    {
      if commands[i].NewConn? {
        var _ := device.Alloc();
      } else if commands[i].id in device.conns {
        var id := commands[i].id;
        match commands[i] {
          case NewConn =>
          case BindCmd(_, addr) => var _ := device.Bind(id, addr);
          case AnnounceCmd(_, addr) => var _ := device.Announce(id, addr);
          case DialCmd(_, addr) => var _ := device.Dial(id, addr);
          case ListenCmd(_) => var _ := device.AcceptOne(id);
          case HangupCmd(_) => var _ := device.Hangup(id);
          case ResetCmd(_) => device.Reset(id);
          case ReadCmd(_, count) => var _ := device.Read(id, count);
          case WriteCmd(_, data) => var _ := device.Write(id, data);
        }
      }
    }
    LinksAreMirrored(device.State());
    forall c, i, j | c in device.conns && 0 <= i < j < |device.conns[c].pending|
      ensures device.conns[c].pending[i].endpoint.link < device.conns[c].pending[j].endpoint.link
    {
      assert InDialOrder(device.State().conns[c].pending);
    }
  }

  /** A second connection that announces a taken address is refused, but has that address from then
      on: when it dials, it comes from the very address it calls. */
  method RefusedAnnounceSticks(addr: Addr) returns (device: NetDevice, id: Id)
    requires addr != ""
    ensures device.Valid() && id in device.conns && device.conns[id].phase.Connected?
    ensures device.conns[id].local == device.conns[id].remote == addr
  {
    device := new NetDevice();
    var first := device.Alloc();
    id := device.Alloc();
    var listening := device.Announce(first, addr);
    var refused := device.Announce(id, addr);
    assert refused == Failed(AddressInUse(addr)) && device.conns[id].local == addr;
    var dialed := device.Dial(id, addr);
  }
}
