/**
 * A network of hosts with a ledger of every encryption made in it, and the
 * invariant that keeps the ledger free of repeats.
 */
module NonceLedger {
  import opened Prelude
  import opened Crypto
  import opened Symmetric
  import opened Addresses
  import opened Transport
  import opened Handshake
  import opened HostModel
  import opened NonceUses

  type Net = map<nat, Host>

  /** Seeds drawn, ephemeral keys heard, initiator seeds that have finished, encryptions made. */
  datatype Ledger = Ledger(dialSeeds: set<Key>, recvSeeds: set<Key>, heard: set<Bytes>, spent: set<Key>, uses: seq<Use>)
  {
    function Seeds(): set<Key> {
      dialSeeds + recvSeeds
    }
  }

  // --- Live sessions ---

  datatype Endpoint =
    | Opening(a: InitiatorAfterE)
    | Answered(b: ResponderAfterResponse)
    | Opened(t: TransportState)

  datatype Slot = Slot(host: nat, addr: UdpAddr, flying: bool)

  function SessionAt(h: Host, addr: UdpAddr, flying: bool): Option<Endpoint> {
    if flying then
      if addr in h.handshakes then
        match h.handshakes[addr].value
        case InitiatorAwaitingResponse(a, _) => Some(Opening(a))
        case ResponderAwaitingFinalize(b) => Some(Answered(b))
      else None
    else if addr in h.established then Some(Opened(h.established[addr].value.transport))
    else None
  }

  function Live(net: Net, q: Slot): Option<Endpoint> {
    if q.host in net then SessionAt(net[q.host], q.addr, q.flying) else None
  }

  /** What sets a session's encryptions apart from every other session's. */
  datatype Tag = OfSeed(seed: Key) | OfSecret(role: Role, root: Bytes)

  function TagOf(s: Endpoint): Tag {
    match s
    case Opening(a) => OfSeed(a.ephemeral)
    case Answered(b) => OfSecret(Responder, Root(b.sym.chainingKey))
    case Opened(t) => OfSecret(if IsChain(t.sendKey) then Initiator else Responder, Root(t.sendKey))
  }

  predicate Bears(u: Use, tag: Tag) {
    tag.OfSecret? && RoleOf(u) == Some(tag.role) && Root(u.key) == tag.root
  }

  predicate Claimed(uses: seq<Use>, tag: Tag) {
    exists u :: u in uses && Bears(u, tag)
  }

  predicate SessionOk(l: Ledger, s: Endpoint) {
    match s
    case Opening(a) =>
      a.sym.chainingKey == ProtocolName() && a.ephemeral in l.dialSeeds && a.ephemeral !in l.spent
    case Answered(b) =>
      && Level(b.sym.chainingKey) == 2 && b.sym.cipherKey.Some? && Claimed(l.uses, TagOf(s))
      && forall u :: u in l.uses && Bears(u, TagOf(s)) ==> Level(u.key) != 4
    case Opened(t) =>
      && Level(t.sendKey) == 4 && Claimed(l.uses, TagOf(s))
      && forall u :: u in l.uses && Bears(u, TagOf(s)) && Level(u.key) == 4 ==>
           u.key == t.sendKey && u.nonce < t.sendNonce
  }

  // --- The ledger ---

  /** A use grows from a secret its own party computed, with an ephemeral seed it drew itself. */
  ghost predicate Rooted(l: Ledger, u: Use) {
    match RoleOf(u)
    case None => false
    case Some(Responder) => exists s: Key, x: Key :: s in l.recvSeeds && x in l.heard && Root(u.key) == Dh(s, x)
    case Some(Initiator) => exists s: Key, x: Key :: s in l.spent && Root(u.key) == Dh(s, x)
  }

  ghost predicate LedgerOk(l: Ledger) {
    && NoRepeats(l.uses)
    && l.dialSeeds !! l.recvSeeds && l.spent <= l.dialSeeds
    && forall u :: u in l.uses ==> Rooted(l, u)
  }

  ghost predicate NetOk(net: Net, l: Ledger) {
    && LedgerOk(l)
    && (forall q :: Live(net, q).Some? ==> SessionOk(l, Live(net, q).value))
    && (forall q, r :: q != r && Live(net, q).Some? && Live(net, r).Some? ==>
          TagOf(Live(net, q).value) != TagOf(Live(net, r).value))
  }

  /** Every seed, key and datagram of `l` is in `l'`, and `more` was encrypted in between. */
  predicate Grows(l: Ledger, l': Ledger, more: seq<Use>) {
    && l.dialSeeds <= l'.dialSeeds && l.recvSeeds <= l'.recvSeeds && l.heard <= l'.heard && l.spent <= l'.spent
    && l'.uses == l.uses + more
  }

  lemma RootedStays(l: Ledger, l': Ledger, more: seq<Use>, u: Use)
    requires Grows(l, l', more) && Rooted(l, u)
    ensures Rooted(l', u)
  {
    hide Dh, Root, RoleOf;
  }

  /** The ledger stays sound if the new uses are rooted, new and different. */
  lemma LedgerGrows(l: Ledger, l': Ledger, more: seq<Use>)
    requires LedgerOk(l) && Grows(l, l', more)
    requires l'.dialSeeds !! l'.recvSeeds && l'.spent <= l'.dialSeeds
    requires NoRepeats(more) && forall u :: u in more ==> Rooted(l', u) && u !in l.uses
    ensures LedgerOk(l')
  {
    forall u | u in l'.uses
      ensures Rooted(l', u)
    {
      if u in l.uses { RootedStays(l, l', more, u); }
    }
    hide Rooted;
    forall i, j | 0 <= i < j < |l'.uses|
      ensures l'.uses[i] != l'.uses[j]
    {
      var n := |l.uses|;
      if i < n && j >= n { assert l.uses[i] in l.uses && more[j - n] in more; }
    }
  }

  /** A session outlives whatever is encrypted under other tags. */
  lemma SessionStays(l: Ledger, l': Ledger, more: seq<Use>, s: Endpoint)
    requires SessionOk(l, s) && Grows(l, l', more)
    requires forall u :: u in more ==> !Bears(u, TagOf(s))
    requires s.Opening? ==> s.a.ephemeral !in l'.spent
    ensures SessionOk(l', s)
  {
    hide Bears, TagOf, Level;
    if !s.Opening? {
      var u :| u in l.uses && Bears(u, TagOf(s));
      assert u in l'.uses;
    }
  }

  /**
   * One step of the network: the session at `from` (or a new one) ends up at
   * `q` as `s`, other slots are emptied or left, and the ledger grows.
   */
  lemma Install(net: Net, l: Ledger, net': Net, l': Ledger, q: Slot, from: Slot, s: Endpoint)
    requires LedgerOk(l') && SessionOk(l', s)
    requires Live(net', q).Some? ==> Live(net', q) == Some(s)
    requires forall r :: r != q && Live(net', r).Some? ==> r != from && Live(net', r) == Live(net, r)
    requires forall r :: r != q && r != from && Live(net, r).Some? ==>
               SessionOk(l', Live(net, r).value) && TagOf(Live(net, r).value) != TagOf(s)
    requires forall p, r :: p != r && Live(net, p).Some? && Live(net, r).Some? ==>
               TagOf(Live(net, p).value) != TagOf(Live(net, r).value)
    ensures NetOk(net', l')
  {
    hide Live, TagOf, SessionOk, LedgerOk;
  }

  /** The same when the session at `q` is simply gone. */
  lemma Retire(net: Net, l: Ledger, net': Net, l': Ledger, q: Slot)
    requires LedgerOk(l')
    requires forall r :: Live(net', r).Some? ==> r != q && Live(net', r) == Live(net, r)
    requires forall r :: r != q && Live(net, r).Some? ==> SessionOk(l', Live(net, r).value)
    requires forall p, r :: p != r && Live(net, p).Some? && Live(net, r).Some? ==>
               TagOf(Live(net, p).value) != TagOf(Live(net, r).value)
    ensures NetOk(net', l')
  {
    hide Live, TagOf, SessionOk, LedgerOk;
  }

  lemma NothingNew(net: Net, l: Ledger, net': Net, l': Ledger)
    requires NetOk(net, l) && Grows(l, l', []) && l'.spent == l.spent && l'.dialSeeds !! l'.recvSeeds
    requires forall r :: Live(net', r).Some? ==> Live(net', r) == Live(net, r)
    ensures NetOk(net', l')
  {
    hide Live, TagOf, SessionOk, Rooted, NoRepeats, Bears;
    assert NoRepeats<Use>([]) by { EmptyNoRepeats(); }
    LedgerGrows(l, l', []);
    forall r | Live(net', r).Some?
      ensures SessionOk(l', Live(net', r).value)
    {
      OpeningUnspent(l, Live(net', r).value);
      SessionStays(l, l', [], Live(net', r).value);
    }
  }

  lemma EmptyNoRepeats()
    ensures NoRepeats<Use>([])
  {
  }

  lemma OpeningUnspent(l: Ledger, s: Endpoint)
    requires SessionOk(l, s)
    ensures s.Opening? ==>
              s.a.ephemeral !in l.spent && s.a.ephemeral in l.dialSeeds && s.a.sym.chainingKey == ProtocolName()
  {
  }
}
