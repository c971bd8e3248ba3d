# Verified model of the libp2p-cat stack

This project models the four state machines of the workspace in Dafny and proves what they promise.

* **Noise** (`noise_*.dfy`, `words.dfy`): the XX handshake of the Noise Protocol Framework, revision 34
  (sections 5.2, 5.3 and 7.5), and the transport with explicit nonces and a 64-bit replay window (section 11.4).
  `Transcript` shows what the handshake hash binds. Cryptography is ideal and symbolic: a byte is a literal or a piece
  of a term, so messages keep their real lengths, Diffie-Hellman commutes, hashes and derived keys never collide, and a
  ciphertext opens only under what sealed it.
* **Host** (`host_*.dfy`, `lru_table.dfy`, `addresses.dfy`): the two bounded, tick-stamped connection tables, with
  `dial`, `send`, `send_raw`, `recv_one`, `evict` and `evict_idle`. `HostModel` gives each operation as a function
  of the host's state; `HostNode.Node` is the host as an object updated in place, each method proved to end in
  exactly that state. `HostRecency` is a host without a clock, whose tables are lists, which the stamped host refines.
  `HostChannel` watches two linked hosts as one secure channel; `HostClock` says what junk can do to idle sweeps, and
  `HostCrossed` which dials are answered. `HostVerdict` reads off the wire exactly what each arrival earns.
* **Nonces** (`nonce_*.dfy`): a network of any number of hosts with a ledger of every AEAD encryption made in it, and a
  log of the handshakes they take part in, from which completed handshakes are authenticated.
* **Kademlia** (`kad_*.dfy`): the XOR metric on byte arrays, k-buckets and the routing table, the wire codec, and the
  iterative lookup with its round driver, from the node's own table to what its rounds deliver.
  `KadLookupMachine.Machine` updates the shortlist and pending tables in place.
* **Pubsub** (`pubsub_*.dfy`, `sums.dfy`): the relay rank gate over one node and over a network of relays, the frame
  codec with its three authenticators, `PubsubHistory`, which tells a node's state by the frames it was given, and
  `PubsubMux.Mux`, the topic maps updated in place.

Where a promise does not hold as stated, the code is kept and the exact condition is proved:

* Two learned peers at one address collide in the lookup's pending tables, which are keyed by address.
  `KadLookupConverge.SettledExactly`: a returned lookup leaves nobody hanging exactly when no round it carried out
  picked two peers at one address. `KadLookupSends.TwinQueriesUnsettled` is a run of the driver that fails.
  Two dials at one address abort the lookup, unless the in-flight table is so small that it has dropped the first;
  `KadLookupSends.RoundAbortsExactly` says which rounds abort.
* A lookup that returns with rounds to spare is not done if `alpha` is zero and it had somebody to ask;
  `KadLookupConverge.LookupConverges` has the condition on the inputs.
* A dial is answered only by a host that does not know the caller; `HostCrossed.DialAnsweredExactly` has the condition.
  Two hosts that dial each other at once fail it, and neither ever completes
  (`HostCrossed.CrossedDialsNeverComplete`), until one of the handshakes is evicted.
* Junk that is rejected off the established path advances the clock, so a flood can idle-evict others;
  `HostClock.TicksChangeSweepExactly` says exactly when.
* A lattice signature of more than 2^32 - 1 entries, or a coding vector of another length than announced, does not
  survive the pubsub codec; `PubsubCodec.DecodeEncodeExactly` has both as the exact condition.
* An IPv6 flow label or scope does not survive the Kademlia codec; `KadCodec.FrameSurvivesExactly` has the condition.

Where the code and its comments differ, the model follows the code:

* `SignedStaticKey::from_bytes` says it takes exactly 96 bytes; it ignores any that follow
  (`crates/libp2p-cat-identity/src/signed_static_key.rs:138`).
* The pubsub decoder says piece bytes that do not match `k + b` are refused; `b` is read and never compared with them
  (`crates/libp2p-cat-pubsub/src/codec.rs:113`).
* A rejected datagram leaves the tick alone only on the established path; on the other two paths it advances
  (`crates/libp2p-cat-host/src/host.rs:885`, `crates/libp2p-cat-host/src/host.rs:966`).
* A full bucket of capacity zero names the all-zero id as its eviction candidate
  (`crates/libp2p-cat-kad/src/bucket.rs:124`).
* `record_response` says it merges the advertised peers if the sender was asked; it merges them whoever sent them
  (`crates/libp2p-cat-kad/src/lookup.rs:348`).
* `decoder_path` drops the decoder when absorbing fails (`crates/libp2p-cat-pubsub/src/mux.rs:769`).

`dafny verify dfyconfig.toml` checks the whole project.

## Model

| member | source | states |
|---|---|---|
| Symmetric.SymmetricState.DecryptInvertsEncrypt | crates/libp2p-cat-noise/src/symmetric.rs:77-122 | a ciphertext is accepted, with a plaintext and next state, exactly when writing that plaintext from the same state gives that ciphertext and state |
| Crypto.DhCommutes | crates/libp2p-cat-noise/src/primitives.rs:155-175 | both sides of a key exchange compute the same secret |
| Crypto.OpenExactly | crates/libp2p-cat-noise/src/symmetric.rs:168-200 | decryption inverts encryption and accepts nothing else |
| Agreement.MessageOne | crates/libp2p-cat-noise/src/handshake.rs:96-120 | message 1 is the 32-byte ephemeral key, always accepted, and leaves both sides with the same symmetric state |
| Agreement.ReadResponseExactly | crates/libp2p-cat-noise/src/handshake.rs:152-200 | message 2 is accepted exactly when it is the one the initiator's own transcript calls for |
| Agreement.AcceptSExactly | crates/libp2p-cat-noise/src/handshake.rs:373-400 | message 3 is accepted exactly when it is the one the responder's own transcript calls for |
| Agreement.XxAgreement | crates/libp2p-cat-noise/src/handshake.rs:96-400 | for all keys, seeds and trailers the honest handshake succeeds, with the documented lengths, the same hash and chaining key on both sides after every message, static keys and payloads delivered exactly, and mirrored transport keys |
| Transcript.TranscriptInjective | crates/libp2p-cat-noise/src/symmetric.rs:53-59 | the handshake hash stands for one sequence of mixed-in items and no other |
| Transcript.ResponseBound | crates/libp2p-cat-noise/src/handshake.rs:318-355 | each ciphertext of message 2 has the hash of everything before it as associated data, and the hash that follows covers message 2 whole |
| Transcript.FinishBound | crates/libp2p-cat-noise/src/handshake.rs:226-248 | so with message 3 |
| Transcript.ResponseAcceptedExactly | crates/libp2p-cat-noise/src/handshake.rs:152-355 | an initiator accepts a responder's message 2 exactly when that responder read this initiator's message 1 |
| Transcript.FinalAcceptedExactly | crates/libp2p-cat-noise/src/handshake.rs:96-400 | a responder accepts an initiator's message 3 exactly when each read what the other wrote, messages 1 and 2 whole, trailer included |
| Transcript.SessionKeys | crates/libp2p-cat-noise/src/symmetric.rs:60-132 | the transport keys are the two outputs of the split of the protocol name chained with the secrets ee, es and se, the first for the initiator's traffic |
| ReplayWindow.AcceptsExactly | crates/libp2p-cat-noise/src/transport.rs:200-214 | a nonce is acceptable exactly when it is above the maximum, or less than 64 below it and never accepted |
| ReplayWindow.AdvanceRecords | crates/libp2p-cat-noise/src/transport.rs:222-236 | advancing keeps bit d set exactly when maximum minus d was accepted, shifts of 64 or more included |
| Channel.DecryptStep | crates/libp2p-cat-noise/src/transport.rs:128-196 | one datagram is accepted exactly when its nonce is fresh and in the window and its ciphertext opens; otherwise the state is unchanged |
| Channel.WindowOverRun | crates/libp2p-cat-noise/src/transport.rs:128-236 | after any datagrams in any order the window records exactly the nonces accepted, none of them twice |
| Channel.DeliversOnlyWhatWasSentOnce | crates/libp2p-cat-noise/src/transport.rs:94-196 | over a network that drops, reorders, duplicates and corrupts, every delivered plaintext was sent under its nonce and no datagram is delivered twice |
| Channel.IntactArrivalDelivered | crates/libp2p-cat-noise/src/transport.rs:94-236 | an intact arrival is delivered exactly when it was not delivered before and its nonce is above the maximum minus 64 |
| WireLayout.NonceLayout | crates/libp2p-cat-noise/src/transport.rs:94-116 | a transport datagram begins with its nonce, most significant byte first |
| Identity.VerifyBindingExactly | crates/libp2p-cat-identity/src/signed_static_key.rs:104-170 | a handshake trailer proves an identity for a static key exactly when that identity signed that key |
| Identity.BindingInjective | crates/libp2p-cat-identity/src/signed_static_key.rs:104-170 | a binding is of one identity and one static key alone, and a peer id of one identity |
| Addresses.CanonicalExactly | crates/libp2p-cat-host/src/cookie.rs:120-163 | two addresses have one canonical form exactly when their IPv6 forms and ports are the same |
| Cookie.AddrBytesInjective | crates/libp2p-cat-host/src/cookie.rs:120-163 | two addresses share their MAC bytes exactly when they have one port and one IP, IPv4-mapped being IPv4 and routing hints aside |
| Cookie.MintBinds | crates/libp2p-cat-host/src/cookie.rs:87-117 | two cookies are equal exactly when the secrets and ephemeral keys are, and the addresses are of one peer |
| LruTable.InsertLruKeeps | crates/libp2p-cat-host/src/host.rs:1166-1202 | a bounded insert adds its own entry, changes no other, stays within the cap and keeps stamps distinct |
| LruTable.RestoreEvictsNobody | crates/libp2p-cat-host/src/host.rs:876-900 | putting back an entry taken out of a table within its cap gives the same table |
| LruTable.RefinesPush | crates/libp2p-cat-host/src/host.rs:1166-1212 | inserting into the stamped table is inserting at the back of the recency list, losing exactly the head when full |
| LruTable.RefinesMoveToBack | crates/libp2p-cat-host/src/host.rs:290-322 | re-stamping an entry moves its address to the back of the recency list |
| HostInvariant.StepInv | crates/libp2p-cat-host/src/host.rs:242-462 | every operation keeps tables disjoint and within their caps, stamps at most the tick and distinct across both tables |
| HostInvariant.EveryRunInv | crates/libp2p-cat-host/src/host.rs:242-462 | that invariant holds after every run of a new host |
| HostInvariant.EvictIdleExactly | crates/libp2p-cat-host/src/host.rs:436-462 | an idle sweep removes and returns exactly the entries more than the limit behind the tick, no address from both tables, and changes nothing else |
| HostRecency.StepRefines | crates/libp2p-cat-host/src/host.rs:242-417 | each operation of the stamped host shows the same event and datagrams as the clockless list host, and keeps the lists in stamp order |
| HostLru.StampsAreLru | crates/libp2p-cat-host/src/host.rs:1166-1212 | every run, idle sweeps included, is a run of the clockless list host with the same success, events and datagrams, and ends with the stamps in the order of its lists; the clock decides only how long a prefix a sweep cuts off |
| HostLru.SweepDropsPrefix | crates/libp2p-cat-host/src/host.rs:1214-1244 | an idle sweep drops a prefix of each recency list |
| HostJunk.JunkChangesNothing | crates/libp2p-cat-host/src/host.rs:559-1072 | deleting every rejected datagram and every bare message 1 answered only by a challenge gives a run with the same other events and datagrams, and the same host up to an order-preserving relabelling of stamps |
| HostClock.RejectedExactly | crates/libp2p-cat-host/src/host.rs:613-1134 | a rejected arrival sends nothing and costs exactly one tick, and not even that at an established address |
| HostClock.TicksChangeSweepExactly | crates/libp2p-cat-host/src/host.rs:436-462 | any number of ticks that touch no entry changes what the next idle sweep takes exactly if some entry within the limit before is beyond it after |
| HostClock.OneRejectionChangesSweepExactly | crates/libp2p-cat-host/src/host.rs:436-462 | one such tick changes the sweep exactly if some entry is exactly the limit behind |
| HostClock.SpoofedJunkIsNothing | crates/libp2p-cat-host/src/host.rs:613-692 | deleting every datagram rejected in the name of an established peer, from any run, idle sweeps included, leaves all other events and datagrams and the very same host, clock and stamps too |
| HostClock.OperationsCost | crates/libp2p-cat-host/src/host.rs:170-462 | every operation costs one tick, but evictions, an echoed challenge and a rejection at an established address; the entry written is stamped with the new tick, and every other entry that is left is unchanged |
| HostClock.RawAndEvictExactly | crates/libp2p-cat-host/src/host.rs:342-430 | a raw send puts that payload on the wire and ticks, unless it is too large; an eviction forgets exactly that address |
| HostVerdict.StrangerAdmittedExactly | crates/libp2p-cat-host/src/host.rs:983-1134 | a stranger gets into a table exactly by an ephemeral key followed by the MAC minted for it and its address, if the answer fits |
| HostVerdict.StrangerChallengedExactly | crates/libp2p-cat-host/src/host.rs:983-1072 | exactly the 32-byte datagrams of strangers get a challenge, marker and MAC, and everything else without a valid MAC is rejected |
| HostVerdict.InitiatorVerdict | crates/libp2p-cat-host/src/host.rs:695-900 | an initiator completes exactly on the message 2 its own transcript calls for, with a trailer whose signer, the reported peer, signs the static key used in it; it echoes exactly the marked 17-byte challenges |
| HostVerdict.ResponderVerdict | crates/libp2p-cat-host/src/host.rs:903-980 | a responder completes exactly on the message 3 its own transcript calls for, so signed |
| HostVerdict.CompletionCarries | crates/libp2p-cat-host/src/host.rs:806-980 | in either role the datagram that completes a handshake carries, sealed, the reported peer's signature of the reported static key |
| HostVerdict.EverySessionIsSigned | crates/libp2p-cat-host/src/host.rs:806-980 | in every run of a new host each session goes back to such a completion, with its static key and peer id |
| HostGate.OnlyAdmittedAreKnown | crates/libp2p-cat-host/src/host.rs:983-1134 | every entry of either table belongs to an address that was dialled, or sent an ephemeral key followed by the very MAC minted for that key and that address |
| HostGate.NoAmplification | crates/libp2p-cat-host/src/host.rs:983-1134 | to any other address the replies of a whole run never exceed the bytes received from it |
| HostDial.RejectedRun | crates/libp2p-cat-host/src/host.rs:559-1072 | any run of rejected arrivals leaves the host the same but for a later tick |
| HostDial.HonestLinks | crates/libp2p-cat-host/src/host.rs:806-980 | two honest identities verify each other's bindings and end with mirrored transports |
| HostDial.TwoHostDial | crates/libp2p-cat-host/src/host.rs:695-1143 | two hosts that do not know each other are both established after five datagrams, with any rejected junk before each, keys mirrored and each reporting the other's static key and peer id |
| HostCrossed.AnswersStrangersOnly | crates/libp2p-cat-host/src/host.rs:559-1072 | a bare message 1 is answered exactly by a host that does not know its sender; any other rejects it and keeps its entry |
| HostCrossed.DialAnsweredExactly | crates/libp2p-cat-host/src/host.rs:477-1072 | a dial goes out and draws an answer exactly when neither host knows the other |
| HostCrossed.CrossedDialsNeverComplete | crates/libp2p-cat-host/src/host.rs:477-980 | when two hosts dial each other before either message 1 arrives, every delivery of either, in any order and any number of times, is rejected, nothing more is ever sent, and both handshakes stay in flight |
| HostChannel.LinkAfter | crates/libp2p-cat-host/src/host.rs:524-692 | an operation touches an established link only by sending on it or receiving from it, and then its transport, datagram and event are those of the transport alone |
| HostChannel.HostsFormChannel | crates/libp2p-cat-host/src/host.rs:290-692 | from a fresh link on, whatever the two hosts do and whatever reaches them while the link stays up, every plaintext one reports was sent by the other, exactly, and none is reported twice |
| HostChannel.IntactArrivalReported | crates/libp2p-cat-host/src/host.rs:613-692 | an intact datagram of the link is reported on arrival exactly when it was not reported before and its nonce is above the maximum minus 64, and rejected otherwise |
| HostChannel.DialGivesChannel | crates/libp2p-cat-host/src/host.rs:242-692 | two hosts that dial through junk have that channel in both directions |
| HostNode.LruAddr | crates/libp2p-cat-host/src/host.rs:1202-1212 | the scan returns an entry with the smallest stamp, or none for an empty map |
| HostNode.InsertWithLru | crates/libp2p-cat-host/src/host.rs:1166-1200 | only a new key at the cap evicts, and then an entry of least stamp, the one least recent entry when stamps differ; everything else stays |
| HostNode.SweepIdle | crates/libp2p-cat-host/src/host.rs:1214-1244 | the filter keeps exactly the entries at or after the cutoff and lists the others, each once |
| HostNode.Node.constructor | crates/libp2p-cat-host/src/host.rs:95-140 | a new host is empty at tick zero and meets the invariant |
| HostNode.Node.Dial | crates/libp2p-cat-host/src/host.rs:242-280 | an address known to either table errors; otherwise message 1 goes out and its state is stored under a new tick, the least recent handshake going when the table is full |
| HostNode.Node.Send | crates/libp2p-cat-host/src/host.rs:290-322 | an unknown address or a spent nonce errors; otherwise one encrypted datagram goes out and the session, taken out and put back, carries the new tick |
| HostNode.Node.RecvOne | crates/libp2p-cat-host/src/host.rs:380-402 | established, then in flight, then stranger: event, datagrams and the whole next state are those of the specified step, and the invariant is kept |
| HostNode.Node.DecryptEstablished | crates/libp2p-cat-host/src/host.rs:613-692 | a session taken out of the map is back after the datagram, changed only if it was delivered |
| HostNode.Node.AdvanceInFlight | crates/libp2p-cat-host/src/host.rs:695-980 | a handshake taken out of the map is back, with its old stamp, unless it completed |
| HostNode.Node.TryResponderMsg1 | crates/libp2p-cat-host/src/host.rs:983-1134 | a stranger gets a challenge for a bare message 1, an answer and a table slot for a valid echo, and a rejection otherwise; only the echo creates state |
| HostNode.Node.EvictIdle | crates/libp2p-cat-host/src/host.rs:436-462 | both tables lose exactly their stale entries, and the addresses of those are listed, each once, handshakes first |
| NonceUses.AnswerSeals | crates/libp2p-cat-noise/src/handshake.rs:318-355 | the two uses counted for message 2 are exactly its two ciphertexts |
| NonceUses.FinishSeals | crates/libp2p-cat-noise/src/handshake.rs:226-248 | the two uses counted for message 3 are exactly its two ciphertexts |
| NonceUses.SendSeals | crates/libp2p-cat-noise/src/transport.rs:94-116 | a transport datagram is one ciphertext under the next nonce; at the last nonce the ciphertext is made, and counted, but encryption errors instead of wrapping |
| NonceUses.ResponseKeys | crates/libp2p-cat-noise/src/handshake.rs:152-200 | an accepted message 2 opens under a key rooted in the secret shared with its own ephemeral key, and fixes the keys of message 3 |
| NonceUses.SameSecret | crates/libp2p-cat-noise/src/primitives.rs:155-175 | two private keys that reach one secret hold each other's public halves |
| NonceNetwork.AnswerPlausible | crates/libp2p-cat-noise/src/handshake.rs:318-355 | the network assumption admits honest traffic: once made, message 2 may be delivered anywhere |
| NonceNetwork.FinishPlausible | crates/libp2p-cat-noise/src/handshake.rs:226-248 | so may message 3 |
| NonceNetwork.SendPlausible | crates/libp2p-cat-noise/src/transport.rs:94-116 | so may every transport datagram |
| NonceNetwork.FinishKeeps | crates/libp2p-cat-noise/src/handshake.rs:226-248 | once the handshake is out of the in-flight table, the uses of message 3 are new and the ledger stays free of repeats |
| NonceNetwork.FinishingStep | crates/libp2p-cat-host/src/host.rs:806-900 | an initiator that encrypts message 3 is out of the in-flight table after that very step, whether or not the send succeeds |
| NonceNetwork.StepKeeps | crates/libp2p-cat-host/src/host.rs:242-462 | every operation of every host keeps the ledger free of repeats |
| NonceNetwork.NoPairEncryptsTwice | crates/libp2p-cat-noise/src/symmetric.rs:63-122 | in any network of hosts with fresh seeds and unforgeable ciphertexts, no AEAD key and nonce encrypt twice, across handshakes, transports, roles, replays and retained copies |
| Authentication.EverySealCounted | crates/libp2p-cat-host/src/host.rs:242-1134 | every ciphertext in what a host sends, raw payloads and echoed bytes aside, is a counted use |
| Authentication.ResponseInputs | crates/libp2p-cat-noise/src/handshake.rs:152-200 | the trailer of an accepted message 2 is sealed under a key derived from both ephemeral keys and from the initiator's ephemeral with the claimed static key |
| Authentication.AcceptInputs | crates/libp2p-cat-noise/src/handshake.rs:373-400 | the trailer of an accepted message 3 is sealed under a key derived from the responder's chain and from its ephemeral with the claimed static key |
| Authentication.BelievableIsPlausible | crates/libp2p-cat-noise/src/handshake.rs:152-400 | every step the authentication assumption admits, the nonce assumption admits too |
| Authentication.AccountedIsGenuine | crates/libp2p-cat-noise/src/handshake.rs:226-355 | the authentication assumption admits every datagram whose ciphertexts honest hosts made |
| Matching.ResponseAnswered | crates/libp2p-cat-noise/src/handshake.rs:152-200 | a message 2 that an initiator accepts under an honest static key was made by a host with that key, for this initiator's ephemeral key, with the ephemeral key and the trailer it carries |
| Matching.FinishAnswered | crates/libp2p-cat-noise/src/handshake.rs:373-400 | a message 3 that a responder accepts under an honest static key was made by a host with that key, with its trailer, towards this responder's ephemeral key, whose own ephemeral key this responder had answered |
| Matching.EveryCompletionIsMatched | crates/libp2p-cat-host/src/host.rs:806-980 | mutual authentication: in any run of a network of hosts, whatever is lost, replayed, reordered or relayed, a host that reports a completed handshake with an honest host's static key is matched by a host with that key in the other role, the reported peer id is that host's own, and both used the same two ephemeral keys |
| KadMetric.DistanceIsXor | crates/libp2p-cat-kad/src/node_id.rs:47-54 | the distance of two ids is the XOR of their 256-bit integers |
| KadMetric.OrderIsIntegerOrder | crates/libp2p-cat-kad/src/distance.rs:12-20 | the derived byte order is the order of big-endian integers |
| KadMetric.DistanceInjective | crates/libp2p-cat-kad/src/node_id.rs:47-54 | two ids at the same distance from a target are equal |
| KadMetric.DistanceZero | crates/libp2p-cat-kad/src/distance.rs:25-38 | a distance is zero exactly between equal ids |
| KadMetric.DistanceSymmetric | crates/libp2p-cat-kad/src/node_id.rs:47-54 | the distance between two ids is the same in both directions |
| KadMetric.Triangle | crates/libp2p-cat-kad/src/node_id.rs:47-54 | the triangle inequality holds for distances as integers |
| KadMetric.BucketIndexExactly | crates/libp2p-cat-kad/src/distance.rs:44-64 | bucket i is for exactly the distances from 2^i up to 2^(i+1), and zero has none |
| KadTable.BucketInsertShape | crates/libp2p-cat-kad/src/bucket.rs:92-137 | a successful insert puts the peer in front, once, and keeps everyone else in order |
| KadMembership.BucketInsertMembers | crates/libp2p-cat-kad/src/bucket.rs:92-137 | a successful insert holds the peer as given and everybody else as before |
| KadTable.TableInsertInv | crates/libp2p-cat-kad/src/routing_table.rs:69-88 | inserting keeps each peer in the bucket of its distance, buckets within k and ids distinct |
| KadTable.TableRemoveInv | crates/libp2p-cat-kad/src/routing_table.rs:91-112 | so does removing |
| KadRouting.RunPlacement | crates/libp2p-cat-kad/src/node.rs:294-450 | after any inserts, removes, completed handshakes and frames, every peer is in the bucket of its distance and each bucket is in most-recently-seen order |
| KadMembership.TableIsBook | crates/libp2p-cat-kad/src/node.rs:294-450 | after any run the table holds exactly the peers of a plain address book: whoever was offered, completed a handshake, sent a frame or was advertised is in, at the latest address given, from when its distance band had room until it is dropped |
| KadRouting.ContainsIsLocal | crates/libp2p-cat-kad/src/routing_table.rs:61-66 | searching all buckets agrees with searching the one bucket of the id's distance, and self is never stored |
| KadRouting.FullBucketNamesLeastRecent | crates/libp2p-cat-kad/src/bucket.rs:115-130 | a refused insert changes nothing and, for k at least 1, names the least recently seen peer of the bucket |
| KadRouting.SortedPrefixIsClosest | crates/libp2p-cat-kad/src/routing_table.rs:130-142 | a prefix of any sorted permutation of the table is the brute-force answer |
| KadRouting.ClosestUnique | crates/libp2p-cat-kad/src/routing_table.rs:130-142 | that answer is unique |
| KadRouting.InsertIntoBucket | crates/libp2p-cat-kad/src/routing_table.rs:145-176 | the fold over the buckets changes exactly the one addressed |
| KadRouting.SortByDistance | crates/libp2p-cat-kad/src/routing_table.rs:130-142 | sorting gives an ascending permutation |
| KadRouting.ClosestTo | crates/libp2p-cat-kad/src/routing_table.rs:130-142 | at most n distinct peers of the table, strictly ascending, and none omitted is nearer than one returned |
| KadLookup.InsertExactly | crates/libp2p-cat-kad/src/lookup.rs:139-152 | a new peer goes in at its place in the distance order; a known one is replaced by a seed and kept against a response |
| KadLookupRun.ShortlistIsBook | crates/libp2p-cat-kad/src/lookup.rs:133-437 | whatever the transitions, the shortlist is exactly the non-self peers learned, one entry an id, at the address the seeds gave last or the responses gave first |
| KadLookupRun.ResultsAreNearestLearned | crates/libp2p-cat-kad/src/lookup.rs:206-212 | the results are the k nearest of all peers learned, in ascending distance |
| KadLookupRun.ResultsOnlyImprove | crates/libp2p-cat-kad/src/lookup.rs:244-437 | as a lookup goes on results never get fewer and the i-th never gets farther |
| KadLookupRun.ApplyExactly | crates/libp2p-cat-kad/src/lookup.rs:244-437 | each transition is the merge of newcomers followed by one status change, entry by entry |
| KadLookupRun.PendingExactly | crates/libp2p-cat-kad/src/lookup.rs:244-437 | a mark adds its address to one pending table, a response or completed dial takes its own out, a skip empties one |
| KadLookupRun.NextFollowsDiagram | crates/libp2p-cat-kad/src/lookup.rs:71-91 | a driver's transition moves a peer only along an edge of the status diagram; done and skipped are final |
| KadLookupRun.StepTracks | crates/libp2p-cat-kad/src/lookup.rs:244-437 | every pending query's peer is in flight and every pending dial's peer is dialing, at that address |
| KadLookupDriver.DriveAllowed | crates/libp2p-cat-kad/src/lookup.rs:479-577 | the driver marks only unqueried peers, whatever arrives |
| KadLookupDriver.EachPeerOnce | crates/libp2p-cat-kad/src/lookup.rs:463-577 | no peer is queried twice, and while sessions stay none is dialled twice |
| KadLookupHeard.PicksNearestUnqueried | crates/libp2p-cat-kad/src/lookup.rs:232-240 | a round picks the nearest peers of the results that nobody has asked, nearest first, as many as alpha allows |
| KadLookupHeard.DrainExactly | crates/libp2p-cat-kad/src/lookup.rs:544-577 | a drain reads arrivals while its budget lasts and somebody is waited for, records exactly the responses and completes exactly the pending dials among them, and stops, blocks or fails accordingly |
| KadLookupHeard.DriveHears | crates/libp2p-cat-kad/src/lookup.rs:479-577 | over a whole lookup the driver hears exactly what its rounds deliver, and the rounds it has left are those it has not carried out |
| KadLookupSends.PickSays | crates/libp2p-cat-kad/src/lookup.rs:512-543 | a pick puts one datagram on the wire to its address: the host's message 1, or a ciphertext of the session whose plaintext decodes to FIND_NODE for the target |
| KadLookupSends.SocketEnds | crates/libp2p-cat-kad/src/lookup.rs:526-533 | a socket error at a send ends the round there |
| KadLookupSends.RoundAbortsExactly | crates/libp2p-cat-kad/src/lookup.rs:512-543 | on a real host, the sends of a round fail exactly if a datagram is too large, a queried session runs out of nonces, or a dialled address is among the last max-handshakes of those in flight and those dialled before it in the round |
| KadLookupSends.TwinDialsAbort | crates/libp2p-cat-kad/src/lookup.rs:512-543 | two picks at one address without a session abort the lookup, if the in-flight table has room for the dials between them |
| KadLookupConverge.LookupConverges | crates/libp2p-cat-kad/src/lookup.rs:463-577 | a returned lookup waits for nobody and has carried out all rounds but those to spare; with rounds to spare it is done exactly when alpha is positive, k is zero, or no seed is a stranger; its results are the nearest of the seeds and of everything the responses it read advertised |
| KadLookupNode.LookupFromTable | crates/libp2p-cat-kad/src/lookup.rs:437-577 | a lookup from a node's own table: whoever the node held or any response advertised is in the results, or farther than all of k results |
| KadLookupConverge.FinalStays | crates/libp2p-cat-kad/src/lookup.rs:338-437 | a peer that answered or was given up stays so for the rest of the lookup |
| KadLookupConverge.SettledExactly | crates/libp2p-cat-kad/src/lookup.rs:244-577 | when a lookup returns, nobody is left in flight or dialing exactly when no round picked two peers at one address; then, with rounds to spare and alpha positive, everyone in the results has answered or was given up |
| KadLookupConverge.StrandedForever | crates/libp2p-cat-kad/src/lookup.rs:244-293 | a peer whose pending entry was displaced by another at its address stays in flight, or dialing, for the rest of the lookup |
| KadLookupSends.TwinQueriesUnsettled | crates/libp2p-cat-kad/src/lookup.rs:244-266 | a driver run that shows it: two seeds at one address with a session, both asked in the only round, and the nearer of the two is in flight, with nothing pending, after the lookup has returned |
| KadLookupMachine.Machine.constructor | crates/libp2p-cat-kad/src/lookup.rs:133-161 | the seeds are stored one an id in distance order, self dropped, a later one replacing an earlier one, and nothing is pending |
| KadLookupMachine.Machine.MarkInFlight | crates/libp2p-cat-kad/src/lookup.rs:244-266 | only the entry at the peer's distance turns in flight, and its address points at it in the pending queries, displacing any other |
| KadLookupMachine.Machine.MarkDialing | crates/libp2p-cat-kad/src/lookup.rs:271-293 | only the entry at the peer's distance turns dialing, and its address points at it in the pending dials, displacing any other |
| KadLookupMachine.Machine.CompleteDial | crates/libp2p-cat-kad/src/lookup.rs:306-330 | only a pending address is removed, and only its peer becomes unqueried again |
| KadLookupMachine.Machine.RecordResponse | crates/libp2p-cat-kad/src/lookup.rs:338-379 | every advertised stranger but self is merged in; a pending sender is removed and only its peer is done; the flag says whether there was one |
| KadLookupMachine.Machine.SkipPendingQueries | crates/libp2p-cat-kad/src/lookup.rs:384-408 | whatever order the pending queries are visited in, exactly their peers are skipped and none is left pending |
| KadLookupMachine.Machine.SkipPendingDials | crates/libp2p-cat-kad/src/lookup.rs:413-437 | whatever order the pending dials are visited in, exactly their peers are skipped and none is left pending |
| KadCodec.DecodeEntries | crates/libp2p-cat-kad/src/codec.rs:250-262 | the accumulating decoder with a running offset gives the specified list and length |
| KadCodec.EntriesRoundTrip | crates/libp2p-cat-kad/src/codec.rs:137-175 | an encoded list of variable-width entries decodes to the same list, less flow and scope, using every byte |
| KadCodec.DecodeEncode | crates/libp2p-cat-kad/src/codec.rs:126-330 | every frame of at most 255 peers encodes, and decodes to itself less flow and scope |
| KadCodec.FrameSurvivesExactly | crates/libp2p-cat-kad/src/codec.rs:126-330 | a frame survives the wire exactly when all IPv6 flow labels and scopes are zero |
| KadCodec.EncodeDecode | crates/libp2p-cat-kad/src/codec.rs:126-330 | whenever bytes decode, re-encoding gives those bytes exactly |
| WireLayout.KadLayout | crates/libp2p-cat-kad/src/codec.rs:126-175 | opcode, count, ids, address kinds, IP octets and big-endian ports sit at their documented offsets |
| PubsubModel.RankGateBounds | crates/libp2p-cat-pubsub/src/mux.rs:846-1103 | in every run a relay's buffered pieces, rank and emissions since registration are equal and at most the piece count |
| PubsubModel.RegistrationBoundsEmissions | crates/libp2p-cat-pubsub/src/state.rs:175-204 | registering a relay starts a generation: whatever the node held before and whatever happens after, short of registering the topic again, at most piece-count pieces go out for it, and the relay's rank says how many have |
| PubsubModel.IdleSweepsExactly | crates/libp2p-cat-pubsub/src/state.rs:249-305 | an idle sweep returns exactly the topics more than the limit behind the tick, and the map keeps exactly the others, unchanged |
| PubsubHistory.UnauthenticRefused | crates/libp2p-cat-pubsub/src/mux.rs:657-760 | a frame that does not parse or verify, or has no role here, is refused and changes nothing, tick included |
| PubsubHistory.RelayedExactly | crates/libp2p-cat-pubsub/src/mux.rs:846-1103 | a piece is re-broadcast exactly when its frame verified and raised the rank of a live relay |
| PubsubHistory.DeliveredExactly | crates/libp2p-cat-pubsub/src/mux.rs:701-843 | content is delivered exactly when a verified frame brings a decoder to full rank and decoding works |
| PubsubHistory.AbsorbedExactly | crates/libp2p-cat-pubsub/src/mux.rs:701-1103 | a piece is redundant exactly to a relay that is full or gains nothing, and absorbed exactly by a decoder that needs more |
| PubsubHistory.RolesExactly | crates/libp2p-cat-pubsub/src/state.rs:134-305 | who has a role after an operation: registered by it, or there before and not unregistered, idle, completed or failed; other topics are untouched |
| PubsubHistory.ClockExactly | crates/libp2p-cat-pubsub/src/state.rs:117-305 | every operation costs one tick but an unused frame, and stamps the entry it is about and no other |
| PubsubHistory.RelayHoldsAuthenticPieces | crates/libp2p-cat-pubsub/src/mux.rs:846-1103 | in every run a relay holds exactly the pieces of the first frames since its registration that verified and were innovative, in order, up to the piece count registered |
| PubsubHistory.DeliveredAtFullRank | crates/libp2p-cat-pubsub/src/mux.rs:701-843 | in every run a decoder's rank counts the verified, innovative frames absorbed since its registration, and content is delivered at most once a registration, on the frame that completes the count |
| PubsubNetwork.FrameDeficit | crates/libp2p-cat-pubsub/src/mux.rs:846-1103 | a frame is relayed exactly when it raises the rank, and then by one |
| PubsubNetwork.DeliverySpreadsExactly | crates/libp2p-cat-pubsub/src/mux.rs:546-573 | a delivery takes its message off the network and, exactly when the relay gains from a verified piece, puts one copy of the recoded piece on its way to each peer but the sender; nothing else is touched |
| PubsubNetwork.StepLowersPotential | crates/libp2p-cat-pubsub/src/mux.rs:546-573 | every delivery or loss lowers messages in flight plus fan-out times missing rank |
| PubsubNetwork.CirculationTerminates | crates/libp2p-cat-pubsub/src/mux.rs:846-1103 | over any topology and delivery order, deliveries are bounded by messages injected plus one fan-out per rank still missing |
| PubsubMux.Mux.HandleFrame | crates/libp2p-cat-pubsub/src/mux.rs:657-697 | relay role before decoder role before refusal; an unparsed or unregistered frame changes nothing |
| PubsubMux.Mux.DecoderPath | crates/libp2p-cat-pubsub/src/mux.rs:701-843 | the decoder taken out of the map is back unless it completed or could not absorb |
| PubsubMux.Mux.RelayPath | crates/libp2p-cat-pubsub/src/mux.rs:846-1103 | the recoder taken out of the map is back on every path; redundant pieces refresh its stamp, and only a piece that raised the rank adds to it |
| PubsubCodec.SigmaRoundTrip | crates/libp2p-cat-pubsub/src/auth.rs:193-260 | a lattice signature of at most 2^32 - 1 entries parses back from the front of any buffer, using exactly its own bytes |
| PubsubCodec.TagRoundTrip | crates/libp2p-cat-pubsub/src/auth.rs:111-260 | so does each stock authenticator's tag |
| PubsubCodec.DecodeEncodeExactly | crates/libp2p-cat-pubsub/src/codec.rs:68-194 | a frame survives the wire exactly when its coding vector has length k and any lattice signature fits the prefix |
| PubsubCodec.EncodeDecode | crates/libp2p-cat-pubsub/src/codec.rs:68-194 | whenever bytes decode, re-encoding gives those bytes exactly |
| WireLayout.PubsubLayout | crates/libp2p-cat-pubsub/src/codec.rs:68-120 | topic length, topic, the two big-endian dimensions, commitment, tag, coding vector and data sit at their documented offsets |

## Left out

- Ticks are natural numbers: the source's 64-bit ticks wrap after 2^64 operations, and the stamp order with them.
- Sockets: `send` appends a datagram or fails on its size, `recv` is an input; any other I/O error ends a run, as does every operation that returns an error, since it consumes the host.
- BLAKE3, X25519, ChaCha20-Poly1305 and Ed25519: an ideal symbolic interface, and so no statement about probabilities, timing, low-order points or adaptive key compromise. The signed binding's domain tag is part of the abstract signature.
- Transport.ParseNonce: bytes of a symbolic term in a nonce prefix are read as zero, because only literal bytes have a numeric value; honest prefixes are literal.
- NonceNetwork.NoPairEncryptsTwice: assumes that callers draw a fresh seed for each `dial` and `recv_one`, and that nobody but its maker puts a ciphertext under a key shared by two hosts' ephemeral seeds on the wire.
- Matching.EveryCompletionIsMatched: assumes in addition that static keys of honest hosts differ from all seeds and are never compromised, and that nobody but its maker puts a ciphertext on the wire under a key with an input shared by one host seed and another host seed or static key. Two hosts may hold one static key; the match is then one of them.
- Channel.DeliversOnlyWhatWasSentOnce: assumes that the network cannot seal under the session key; HostChannel's theorems do too.
- LruTable.Oldest: ties between equal stamps are broken arbitrarily, where the source takes the smallest address; the invariant shows that there are none.
- HostJunk.JunkChangesNothing: is about runs without `evict_idle`, which alone sees the clock that junk may advance; for sweeps, HostClock's theorems.
- The order of addresses in a map, and so the order within each half of what `evict_idle` returns, and in which the lookup skips pending peers; proofs over any order stand in.
- KadLookupDriver.EachPeerOnce: the dial bound is for sessions that stay established, as the source needs for it. Each round has a host, and its sends follow that host's rules; the hosts of successive rounds and what the node reports for each arrival are otherwise arbitrary, so replies to other peers' requests during a lookup are not modelled.
- `DecoderState`, `Recoder` and `CodedPiece`: foreign code with a small contract (rank starts at 0, absorbing adds 0 or 1 and never passes the piece count, pieces shorter than the coding vector are refused); the numbers in coded pieces are not modelled.
- `kdf_two` and `blake3_hash_two`, with their mutable hashers, are abstract functions.
- `Topic` as UTF-8: a topic is 1 to 255 printable ASCII bytes. Error text is not modelled.
- `ClosestTo` sorts by insertion where the source calls the library's sort; the result is the same for distinct distances.
- `KademliaNode`'s automatic replies to PING and FIND_NODE: one frame built from `closest_to` and the codec.
- The multi-frame `broadcast` loop, `libp2p-cat-rendezvous`, `libp2p-cat-mux`, `libp2p-cat-rpc`, the UDP wrapper and the examples: dispatch and relabelling that would add only easy members.
