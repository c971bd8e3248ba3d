/**
 * The host as an object that its operations update in place.
 *
 * The Rust host is consumed and rebuilt by each call, with its two maps
 * mutated on the way; every method here ends in exactly the state, event and
 * datagrams that `HostModel` prescribes.
 */
module HostNode {
  import opened Prelude
  import opened Crypto
  import opened Addresses
  import opened LruTable
  import opened Transport
  import opened Handshake
  import opened HostModel
  import opened HostInvariant
  import Cookie

  /** The entry with the smallest stamp, found by one pass over the map. */
  method LruAddr<K(==,!new), T>(t: Table<K, T>) returns (r: Option<K>)
    ensures r.None? <==> t == map[]
    ensures r.Some? ==> IsOldest(t, r.value)
  {
    var keys := t.Keys;
    r := None;
    while keys != {}
      invariant keys <= t.Keys
      invariant r.None? <==> keys == t.Keys
      invariant r.Some? ==> r.value in t
      invariant r.Some? ==> forall j :: j in t && j !in keys ==> t[r.value].lastActivity <= t[j].lastActivity
      decreases keys
    {
      var k :| k in keys;
      keys := keys - {k};
      if r.None? || t[k].lastActivity < t[r.value].lastActivity {
        r := Some(k);
      }
    }
  }

  /** With distinct stamps there is one least recent entry to evict; among equal ones, any may go. */
  method InsertWithLru<K(==,!new), T>(t: Table<K, T>, k: K, entry: Stamped<T>, cap: nat) returns (m: Table<K, T>)
    ensures k in t || |t| < cap || t == map[] ==> m == t[k := entry]
    ensures k !in t && |t| >= cap && t != map[] ==> exists v :: IsOldest(t, v) && m == (t - {v})[k := entry]
    ensures Distinct(t) ==> m == InsertLru(t, k, entry, cap)
  {
    m := t;
    if k !in m && |m| >= cap {
      var victim := LruAddr(m);
      if victim.Some? {
        assert Distinct(t) ==> victim.value == Oldest(t);
        m := m - {victim.value};
      }
    }
    m := m[k := entry];
  }

  /** Filter the stale entries out of a map, and list their addresses. */
  method SweepIdle<T>(t: Table<UdpAddr, T>, cutoff: nat) returns (kept: Table<UdpAddr, T>, gone: seq<UdpAddr>)
    ensures kept == t - Stale(t, cutoff) && Elements(gone) == Stale(t, cutoff) && NoRepeats(gone)
  {
    var left := t.Keys;
    kept, gone := map[], [];
    while left != {}
      invariant left <= t.Keys && NoRepeats(gone)
      invariant forall a :: a in gone <==> a in t && a !in left && t[a].lastActivity < cutoff
      invariant forall a :: a in kept <==> a in t && a !in left && t[a].lastActivity >= cutoff
      invariant forall a :: a in kept ==> kept[a] == t[a]
      decreases left
    {
      var a :| a in left;
      left := left - {a};
      if t[a].lastActivity < cutoff {
        gone := gone + [a];
      } else {
        kept := kept[a := t[a]];
      }
    }
  }

  datatype Reply = Reply(event: Option<Event>, sent: seq<Packet>)

  /** `r` and `now` are what `spec` says; after an error there is no host left to speak of. */
  ghost predicate Follows(r: Result<Reply>, now: Host, spec: Result<Outcome>) {
    match spec
    case Err(e) => r == Err(e)
    case Ok(out) => r == Ok(Reply(out.event, out.sent)) && now == out.host
  }

  class Node {
    const config: Config
    var handshakes: Table<UdpAddr, HandshakeState>
    var established: Table<UdpAddr, Link>
    var tick: nat

    ghost function Snapshot(): Host
      reads this
    {
      Host(config, handshakes, established, tick)
    }

    ghost predicate Valid()
      reads this
    {
      Inv(Snapshot())
    }

    constructor (config: Config)
      ensures Snapshot() == NewHost(config) && Valid()
    {
      this.config := config;
      handshakes, established, tick := map[], map[], 0;
    }

    method Dial(addr: UdpAddr, seed: Key) returns (r: Result<Reply>)
      requires Valid()
      modifies this
      ensures Follows(r, Snapshot(), HostModel.Dial(old(Snapshot()), addr, seed))
      ensures r.Ok? ==> Valid()
    {
      hide WriteE, Inv, Distinct, InsertLru;
      ghost var was := Snapshot();
      StepInv(was, DialOp(addr, seed));
      if addr in handshakes || addr in established {
        return Err(Prelude.HostState);
      }
      var (afterE, msg1) := WriteE(config.identity.staticPrivate, seed);
      if !config.Fits(msg1) {
        return Err(DatagramTooLarge);
      }
      StampsDiffer(was);
      handshakes := InsertWithLru(handshakes, addr, Stamped(InitiatorAwaitingResponse(afterE, msg1), tick + 1),
                                  config.capacity.maxHandshakes);
      tick := tick + 1;
      r := Ok(Reply(None, [Packet(addr, msg1)]));
    }

    method Send(addr: UdpAddr, plaintext: Bytes) returns (r: Result<Reply>)
      requires Valid()
      modifies this
      ensures Follows(r, Snapshot(), HostModel.Send(old(Snapshot()), addr, plaintext))
      ensures r.Ok? ==> Valid()
    {
      hide Encrypt, Inv;
      ghost var was := Snapshot();
      StepInv(was, SendOp(addr, plaintext));
      if addr !in established {
        return Err(Prelude.HostState);
      }
      var conn := established[addr].value;
      established := established - {addr};
      var encrypted := Encrypt(conn.transport, plaintext);
      if encrypted.Err? {
        return Err(encrypted.error);
      }
      var (transport, datagram) := encrypted.value;
      established := established[addr := Stamped(conn.(transport := transport), tick + 1)];
      assert established == was.established[addr := Stamped(conn.(transport := transport), tick + 1)];
      if !config.Fits(datagram) {
        return Err(DatagramTooLarge);
      }
      tick := tick + 1;
      r := Ok(Reply(None, [Packet(addr, datagram)]));
    }

    method SendRaw(addr: UdpAddr, payload: Bytes) returns (r: Result<Reply>)
      requires Valid()
      modifies this
      ensures Follows(r, Snapshot(), HostModel.SendRaw(old(Snapshot()), addr, payload))
      ensures r.Ok? ==> Valid()
    {
      hide Inv;
      TickedInv(Snapshot());
      if !config.Fits(payload) {
        return Err(DatagramTooLarge);
      }
      tick := tick + 1;
      r := Ok(Reply(None, [Packet(addr, payload)]));
    }

    method RecvOne(from: UdpAddr, datagram: Bytes, seed: Key) returns (r: Result<Reply>)
      requires Valid()
      modifies this
      ensures Follows(r, Snapshot(), HostModel.RecvOne(old(Snapshot()), from, datagram, seed))
      ensures r.Ok? ==> Valid()
    {
      RecvInv(Snapshot(), from, datagram, seed);
      hide HostModel.DecryptEstablished, HostModel.AdvanceInFlight, HostModel.TryResponderMsg1, Inv;
      if from in established {
        r := DecryptEstablished(from, datagram);
      } else if from in handshakes {
        r := AdvanceInFlight(from, datagram);
      } else {
        r := TryResponderMsg1(from, datagram, seed);
      }
    }

    /** Take the session out, try the datagram, and put the session back either way. */
    method DecryptEstablished(from: UdpAddr, datagram: Bytes) returns (r: Result<Reply>)
      requires from in established
      modifies this
      ensures Follows(r, Snapshot(), HostModel.DecryptEstablished(old(Snapshot()), from, datagram))
    {
      hide Decrypt;
      ghost var was := Snapshot();
      var entry := established[from];
      established := established - {from};
      var (transport, outcome) := Decrypt(entry.value.transport, datagram);
      match outcome
      case Err(_) =>
        DecryptErrorKeeps(entry.value.transport, datagram);
        established := established[from := Stamped(entry.value.(transport := transport), entry.lastActivity)];
        assert established == was.established;
        r := Ok(Reply(Some(Rejected(from)), []));
      case Ok(plaintext) =>
        established := established[from := Stamped(entry.value.(transport := transport), tick + 1)];
        assert established == was.established[from := Stamped(entry.value.(transport := transport), tick + 1)];
        tick := tick + 1;
        r := Ok(Reply(Some(DatagramDelivered(from, plaintext)), []));
    }

    /** Take the handshake out; unless it completes, put it back with its old stamp. */
    method AdvanceInFlight(from: UdpAddr, datagram: Bytes) returns (r: Result<Reply>)
      requires Valid() && from in handshakes && from !in established
      modifies this
      ensures Follows(r, Snapshot(), HostModel.AdvanceInFlight(old(Snapshot()), from, datagram))
    {
      hide ConsumeMsg2, ConsumeMsg3, Cookie.IsChallenge, Distinct, InsertLru;
      ghost var was := Snapshot();
      var entry := handshakes[from];
      handshakes := handshakes - {from};
      match entry.value
      case InitiatorAwaitingResponse(afterE, msg1) =>
        if Cookie.IsChallenge(datagram) {
          ChallengeLength(datagram);
          var echo := msg1 + datagram[1..];
          if !config.Fits(echo) {
            return Err(DatagramTooLarge);
          }
          Restore(was, from, entry);
          r := Ok(Reply(Some(HandshakeProgress(from)), [Packet(from, echo)]));
        } else {
          match ConsumeMsg2(config.identity, afterE, datagram)
          case Ok((link, msg3)) =>
            if !config.Fits(msg3) {
              return Err(DatagramTooLarge);
            }
            Promote(was, from, link);
            r := Ok(Reply(Some(HandshakeComplete(from, link.remoteStatic, link.remotePeer)), [Packet(from, msg3)]));
          case Err(_) =>
            Restore(was, from, entry);
            tick := tick + 1;
            r := Ok(Reply(Some(Rejected(from)), []));
        }
      case ResponderAwaitingFinalize(afterResp) =>
        match ConsumeMsg3(afterResp, datagram)
        case Ok(link) =>
          Promote(was, from, link);
          r := Ok(Reply(Some(HandshakeComplete(from, link.remoteStatic, link.remotePeer)), []));
        case Err(_) =>
          Restore(was, from, entry);
          tick := tick + 1;
          r := Ok(Reply(Some(Rejected(from)), []));
    }

    /** Put back an entry just taken out: the bounded insert then evicts nobody. */
    method Restore(ghost was: Host, from: UdpAddr, entry: Stamped<HandshakeState>)
      requires Inv(was) && from in was.handshakes && was.handshakes[from] == entry
      requires was.config == config && handshakes == was.handshakes - {from}
      modifies this`handshakes
      ensures handshakes == was.handshakes
    {
      hide InsertLru;
      RestoreEvictsNobody(was.handshakes, from, config.capacity.maxHandshakes);
      WithoutKeeps(was.handshakes, {from}, config.capacity.maxHandshakes, was.tick);
      handshakes := InsertWithLru(handshakes, from, entry, config.capacity.maxHandshakes);
    }

    method Promote(ghost was: Host, from: UdpAddr, link: Link)
      requires Inv(was) && from in was.handshakes && was == Snapshot().(handshakes := was.handshakes)
      requires handshakes == was.handshakes - {from}
      modifies this`established, this`tick
      ensures Snapshot() == was.WithEstablished(from, link)
    {
      StampsDiffer(was);
      hide InsertLru, Inv, Distinct;
      established := InsertWithLru(established, from, Stamped(link, tick + 1), config.capacity.maxEstablished);
      tick := tick + 1;
    }

    method TryResponderMsg1(from: UdpAddr, datagram: Bytes, seed: Key) returns (r: Result<Reply>)
      requires Valid() && !Snapshot().Knows(from)
      modifies this
      ensures Follows(r, Snapshot(), HostModel.TryResponderMsg1(old(Snapshot()), from, datagram, seed))
    {
      hide AnswerMsg1, Cookie.Mint, Distinct, InsertLru;
      var secret := config.identity.cookieSecret;
      if |datagram| == MESSAGE_1_LEN {
        var reply := Cookie.Challenge(secret, from, datagram);
        if !config.Fits(reply) {
          return Err(DatagramTooLarge);
        }
        tick := tick + 1;
        return Ok(Reply(Some(HandshakeProgress(from)), [Packet(from, reply)]));
      }
      if |datagram| == Cookie.MSG1_WITH_COOKIE_LEN {
        var e, mac := datagram[..MESSAGE_1_LEN], datagram[MESSAGE_1_LEN..];
        if Cookie.Verify(secret, from, e, mac) {
          match AnswerMsg1(config.identity, e, seed)
          case Ok((afterResp, msg2)) =>
            if !config.Fits(msg2) {
              return Err(DatagramTooLarge);
            }
            StampsDiffer(Snapshot());
            handshakes := InsertWithLru(handshakes, from, Stamped(ResponderAwaitingFinalize(afterResp), tick + 1),
                                        config.capacity.maxHandshakes);
            tick := tick + 1;
            return Ok(Reply(Some(HandshakeProgress(from)), [Packet(from, msg2)]));
          case Err(_) =>
        }
      }
      tick := tick + 1;
      r := Ok(Reply(Some(Rejected(from)), []));
    }

    method Evict(addr: UdpAddr)
      requires Valid()
      modifies this
      ensures Snapshot() == HostModel.Evict(old(Snapshot()), addr) && Valid()
    {
      hide Inv;
      WithoutInv(Snapshot(), {addr}, {addr});
      handshakes := handshakes - {addr};
      established := established - {addr};
    }

    /** The addresses swept, each once, those of handshakes first. */
    method EvictIdle(maxIdle: nat) returns (gone: seq<UdpAddr>)
      requires Valid()
      modifies this
      ensures (Snapshot(), Elements(gone)) == HostModel.EvictIdle(old(Snapshot()), maxIdle) && Valid()
      ensures NoRepeats(gone)
      ensures forall i, j :: 0 <= i < j < |gone| && gone[j] in old(handshakes) ==> gone[i] in old(handshakes)
    {
      hide Inv, HostModel.Stale, Elements, NoRepeats;
      ghost var was := Snapshot();
      var cutoff := Cutoff(tick, maxIdle);
      WithoutInv(was, Stale(handshakes, cutoff), Stale(established, cutoff));
      var hs: seq<UdpAddr>, es: seq<UdpAddr>;
      handshakes, hs := SweepIdle(handshakes, cutoff);
      established, es := SweepIdle(established, cutoff);
      gone := hs + es;
      SweptInOrder(was, cutoff, hs, es);
    }
  }

  function Elements(s: seq<UdpAddr>): set<UdpAddr> {
    set a | a in s
  }

  lemma ElementsAppend(s: seq<UdpAddr>, t: seq<UdpAddr>)
    ensures Elements(s + t) == Elements(s) + Elements(t)
    ensures NoRepeats(s) && NoRepeats(t) && Elements(s) !! Elements(t) ==> NoRepeats(s + t)
  {
    if NoRepeats(s) && NoRepeats(t) && Elements(s) !! Elements(t) {
      forall i, j | 0 <= i < j < |s + t|
        ensures (s + t)[i] != (s + t)[j]
      {
        if i < |s| && j >= |s| {
          assert s[i] in Elements(s) && t[j - |s|] in Elements(t);
        }
      }
    }
  }

  lemma SweptInOrder(h: Host, cutoff: nat, hs: seq<UdpAddr>, es: seq<UdpAddr>)
    requires Inv(h) && NoRepeats(hs) && NoRepeats(es)
    requires Elements(hs) == Stale(h.handshakes, cutoff) && Elements(es) == Stale(h.established, cutoff)
    ensures NoRepeats(hs + es) && Elements(hs + es) == Stale(h.handshakes, cutoff) + Stale(h.established, cutoff)
    ensures forall i, j :: 0 <= i < j < |hs + es| && (hs + es)[j] in h.handshakes ==> (hs + es)[i] in h.handshakes
  {
    StaleApart(h, cutoff);
    ElementsAppend(hs, es);
    forall j | 0 <= j < |hs + es|
      ensures (hs + es)[j] in h.handshakes <==> j < |hs|
    {
      SweptFrom(h, cutoff, hs, es, j);
    }
  }

  lemma SweptFrom(h: Host, cutoff: nat, hs: seq<UdpAddr>, es: seq<UdpAddr>, j: nat)
    requires Inv(h) && j < |hs + es|
    requires Elements(hs) == Stale(h.handshakes, cutoff) && Elements(es) == Stale(h.established, cutoff)
    ensures (hs + es)[j] in h.handshakes <==> j < |hs|
  {
    InvParts(h);
    hide Inv, Bounded, CrossDistinct, Before;
    if j < |hs| {
      assert hs[j] in Elements(hs);
    } else {
      assert es[j - |hs|] in Elements(es);
    }
  }

  lemma StampsDiffer(h: Host)
    requires Inv(h)
    ensures Distinct(h.handshakes) && Distinct(h.established)
  {
    hide Distinct;
  }

  lemma ChallengeLength(d: Bytes)
    ensures Cookie.IsChallenge(d) ==> |d| > 0
  {
  }
}
