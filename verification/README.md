# Verified model of the VRGram DNS message pipeline

VRGram carries messages over DNS. A sender splits a message into chunks, protects each with a
CRC-16, prints each as base32hex labels and asks a relay for the resulting name. The relay stores
the chunk; a recipient later polls the relay for message IDs, queries the chunks one by one and
reassembles the message. This project models that pipeline in Dafny, from the chunker to the
reassembled payload, with the schedulers and limiters around it, and proves what it promises.

The pipeline, file by file:

| file | what it models |
|---|---|
| `Bytes`, `Text`, `Counting` | bytes, bits and big-endian integers; Go's string functions; finite-set facts |
| `Crc16` | the checksum loop over its register (16 bits, most significant first), and the same as a shift register fed bit by bit |
| `Base32Hex`, `Order` | the extended-hex alphabet of section 7 of RFC 4648, without padding; its sort order |
| `Chunks`, `Reassembly` | splitting a message and putting it back together |
| `Labels`, `NameSize` | labels, question names, the relay's way back, and the limits of section 2.3.4 of RFC 1035 |
| `RateLimit` | the token bucket and the limiter per IP |
| `Store`, `ChunkStores` | the chunk store's contents and operations; the class that updates them in place |
| `Relay` | the DNS handler as a state machine over requests, gc and restarts, and the class that runs it |
| `RelayInvariants`, `RelayRuns`, `MessageRuns` | what every relay run keeps; sequence numbers and rates over runs; one message through a run |
| `DnsClient`, `Engine` | transport fallback, querying, fetching and polling |
| `Delivery`, `Receiving` | relay runs and fetches end to end; polls of any number of relays joined to their runs |
| `Scenario` | a run, a fetch and a poll for every message that meet the premises of delivery |
| `Sender`, `Sending` | the parallel sender as a state machine over all interleavings; what its return means at a relay |
| `Queue` | the offline queue and its retry loop |

Objects that the source updates in place are classes; each method is proved against a function on
the object's contents, and the properties are lemmas about those functions. SHA-256 is a parameter
(any function to 32 bytes). Times, the outcome of a database transaction and the outcome of a DNS
exchange are parameters of each step, so every statement holds for all of them.

Main results:

- `Delivery.EndToEnd` and `Delivery.PollLists`: a message stored in any order, with repeats, among
  any other traffic is listed to its recipient and fetched exactly, until it expires.
- `Receiving.MessageReceived`: a client that polls several relays is handed that message exactly once,
  with its payload and a relay's stamp, if one of them has it and lets the requests through.
- `Delivery.NoTruncatedMessage`, `Delivery.NeverPanics`: during any relay run, restarts and expiry
  included, a fetch yields the whole payload or an error, and never panics.
- `RelayRuns.LaterIsLarger`, `RelayInvariants.OwnersShareNoSequence`: sequence numbers order the
  messages of a recipient across gc and restarts; `RelayRuns.NumberIsCount`: which number each gets.
- `Crc16.DetectsBursts`, `Crc16.DetectsOddErrors`: what the checksum catches, for every length;
  `Crc16.Residue`: every payload with its checksum leaves the residue 0x1D0F.
- `Labels.WireRoundTrip`, `Chunks.ReassembleMessage`, `Reassembly.ChunkThenReassemble`: the codec;
  `Labels.DecodesExactly`: which labels are a chunk; `Order.EncodeKeepsOrder`: labels sort as their bytes.
- `RateLimit.PerIpIsolation`, `RelayRuns.StretchBound`: the limiter over whole runs; `RateLimit.IpGrantedExactly`,
  `RelayRuns.LetInExactly`: exactly which requests it lets through.
- `Sender.Safety`, `Sender.NeverStuck`, `Sender.Terminates`: the parallel sender in every interleaving;
  `Sending.NilMeansDelivered`: its nil return means that the recipient can fetch the message.
- `Engine.AtMostOnce`, `Engine.PollPanicsExactly`, `Engine.PollIsComplete`: polling delivers each message
  once, and misses none unless a fetch panics; `Receiving.RelaysAreSafe`: with relays, none does.
- `Queue.StaysExactlyWhileFailing`, `Queue.SentAtMostTwentyTimes`, `Queue.Drained`: the retry queue.

Where a promise does not hold in general, the project gives the exact condition:

- A nil return of the parallel sender means that every chunk was accepted exactly when there is at
  least one relay or nothing to send (`Sender.NilIsExact`). Its only caller does not call it without
  relays (`go/internal/client/dns_engine.go`, line 205).
- Without a cancellation from outside, the parallel sender returns nil exactly when of every chunk some
  relay's send succeeded (`Sender.NilExactlyOnSuccess`). If its context ends it can return an error although
  all did (`Sender.FalseFailure`), and also if an acknowledgement is lost (`Sender.LostAcknowledgement`); the
  queue then sends the message again.
- Polling misses no served message exactly as long as no fetch panics. A poll panics exactly when a
  relay answers the query for chunk 0 of a listed, new message with a total of 0 while fetches from all
  relays before it fail (`Engine.PollPanicsExactly`). Replies that repeat the query's labels do this
  (`Receiving.PanicLosesMessage`). The relay of this repository never gives such an answer
  (`Delivery.NeverPanics`).
- The cap of 200 bytes on the chunk size is meant to keep DNS names from growing too large. Under the
  default zone, a message with a recipient has only legal names exactly when the size or the message is
  at most 95 bytes (`NameSize.MessageFits`).
- A new sequence number is larger than the last exactly until the 64-bit counter wraps
  (`RelayInvariants.StampIsNew`); statements over runs assume that the run is too short for that.
- If gc comes between the two store calls of one request, owned IDs stay live exactly when the message
  has not expired at that gc (`RelayInvariants.OwnerAfterGc`). Store does not refresh an old message, so a
  late retransmission can break this (`RelayInvariants.LateRetransmission`). In runs one request is one step.

## Model

| member | source | states |
|---|---|---|
| Crc16.Crc16 | go/internal/encoding/encoding.go:214-227 | the nested loops compute `Checksum`, whose residue and error detection are the next rows |
| Crc16.RegisterIsBitwise | go/internal/encoding/encoding.go:214-227 | xor-ing a byte into the top and shifting eight times is feeding its bits one by one to the shift register of x^16 + x^12 + x^5 + 1 |
| Crc16.Residue | go/internal/encoding/encoding.go:214-227 | a payload of any length followed by its checksum leaves 0x1D0F in the register, which fixes the initial value, the generator and the final xor; the checksum of nothing is 0 |
| Crc16.DetectsBursts | go/internal/encoding/encoding.go:82-86 | payloads of any equal length that differ only inside some window of 16 consecutive bits have different checksums |
| Crc16.DetectsAdjacentBytes | go/internal/encoding/encoding.go:82-86 | so do payloads that differ only in two adjacent bytes |
| Crc16.DetectsOddErrors | go/internal/encoding/encoding.go:82-86 | so do payloads that differ in an odd number of bits |
| Base32Hex.RoundTrip | go/internal/encoding/encoding.go:12 | decoding undoes encoding for byte strings of every length |
| Base32Hex.Decode | go/internal/encoding/encoding.go:107-110 | succeeds exactly on strings of alphabet characters, with `DecodedLength` bytes (a last group of 1, 3 or 6 characters yields none) |
| Base32Hex.EncodeInjective | go/internal/encoding/encoding.go:12 | different byte strings print differently |
| Order.EncodeKeepsOrder | go/internal/encoding/encoding.go:12 | encoded texts sort as the byte strings they stand for, of whatever lengths, which section 7 of RFC 4648 gives as the reason for this alphabet |
| Order.Alphabet | go/internal/encoding/encoding.go:12 | every character is one of 0-9 and A-V, and there are as many as 8 bits per byte need at 5 each |
| Order.BigEndianOrder | go/internal/encoding/encoding.go:123-125 | big-endian byte strings of one width sort as their numbers |
| Order.NumberLabelsOrder | go/internal/encoding/encoding.go:123-125 | so do the labels of indices, totals and checksums |
| Chunks.ChunkMessage | go/internal/encoding/encoding.go:35-57 | returns `ChunksOf`; every chunk but the last has exactly the given size, or 220 bytes for a size of zero or less, and the last from 1 to that many; each carries the hash of the recipient, or none without a recipient |
| Chunks.NumbersWrap | go/internal/encoding/encoding.go:52 | index and total on the wire are the true ones up to multiples of 65536 |
| Chunks.CutChunk | go/internal/encoding/encoding.go:43-54 | the slice of one iteration lies inside the plaintext and is `ChunkAt` |
| Chunks.CountBounds | go/internal/encoding/encoding.go:43-48 | every chunk starts inside the plaintext and together they reach its end |
| Chunks.ReassembleMessage | go/internal/encoding/encoding.go:59-90 | succeeds exactly when the count is the first chunk's total, the indices are a permutation of 0..n-1 and all checksums match, with the payloads joined in index order; each error is the right one, and "missing chunk index" is never reported |
| Chunks.Place | go/internal/encoding/encoding.go:67-76 | the slot loop accepts exactly the permutations and puts every chunk in its slot |
| Chunks.Concatenate | go/internal/encoding/encoding.go:77-89 | no slot is empty; the first bad checksum in index order is the one reported |
| Chunks.CoversAll | go/internal/encoding/encoding.go:78-81 | n distinct indices below n fill every slot |
| Reassembly.ReassemblyIgnoresOrder | go/internal/encoding/encoding.go:59-90 | with uniform totals the result is the same for every order of the chunks |
| Reassembly.SplitIsSent | go/internal/encoding/encoding.go:35-57 | 1 to 65535 chunks of one call are numbered, totalled and checksummed consistently and their payloads join to the plaintext |
| Reassembly.ChunkThenReassemble | go/internal/encoding/encoding.go:35-90 | any permutation of the chunks gives the plaintext for 1 to 65535 chunks, and an error otherwise, also when the 16-bit total wraps |
| Reassembly.AlteredChunkRejected | go/internal/encoding/encoding.go:82-86 | a chunk altered in an odd number of bits or inside 16 consecutive bits makes reassembly fail |
| Labels.EncodePayload | go/internal/encoding/encoding.go:93-104 | the loop cuts the encoding into `Cut`'s pieces |
| Labels.Cut | go/internal/encoding/encoding.go:93-104 | every payload label but the last has 63 characters and the last from 1 to 63, so there are no more labels than needed |
| Labels.PayloadRoundTrip | go/internal/encoding/encoding.go:93-110 | joining and decoding the payload labels gives the payload |
| Labels.FirstLabel | go/internal/encoding/encoding.go:132-150 | the first label has 52 characters exactly when a recipient hash is present |
| Labels.DecodeChunk | go/internal/encoding/encoding.go:132-211 | a decoded chunk has a recipient hash of 0 or 32 bytes |
| Labels.DecodesExactly | go/internal/encoding/encoding.go:132-211 | a label sequence is read as a chunk exactly when it ends in the zone, the first label is a 32-byte hash if it has 52 characters, the next four hold 8, 2, 2 and 2 bytes and the rest are alphabet characters |
| Labels.WireLayout | go/internal/encoding/encoding.go:115-128 | where each field of a chunk stands in its labels, with and without a recipient, and in which encoding |
| Labels.WordBits | go/internal/encoding/encoding.go:125 | the checksum label holds the register, most significant bit first |
| Labels.WireResidue | go/internal/encoding/encoding.go:125-126 | payload and checksum as they are sent leave the residue 0x1D0F |
| Labels.LabelsRoundTrip | go/internal/encoding/encoding.go:115-211 | decoding the labels of a chunk, for any zone, gives the chunk |
| Labels.NameRoundTrip | go/internal/relay/server.go:73-83 | for every zone, stripping it and splitting gives back exactly the joined labels |
| Labels.WireRoundTrip | go/internal/dns/dns.go:52-60 | the relay reads from a chunk's question name that chunk, and never a poll |
| NameSize.JoinedNameOctets | go/internal/dns/dns.go:53-54 | the wire length of a dotted name is its labels' lengths plus one octet each plus the root's |
| NameSize.ChunkNameOctets | go/internal/encoding/encoding.go:115-128 | the exact wire length of an addressed chunk's name, for every payload and zone |
| NameSize.FitsUpTo95 | go/cmd/relayd/main.go:28 | under the default zone an addressed chunk's name fits 255 octets exactly when its payload is at most 95 bytes |
| NameSize.ClampChunkSize | go/internal/client/dns_engine.go:102-112 | the set size is the nearest one from 32 to 200 |
| NameSize.MessageFits | go/internal/client/dns_engine.go:102-112 | all names of an addressed message are legal exactly when the clamped size, or the message, is at most 95 bytes |
| NameSize.DefaultSizeFits | go/internal/client/dns_engine.go:29 | with the default size 75 all names are legal |
| NameSize.ChunksByDefault | go/internal/client/dns_engine.go:202 | what an addressed message is split into before a size is set: chunks of 75 bytes, the last possibly shorter, all with legal names |
| RateLimit.TokenBucket.constructor | go/internal/ratelimit/ratelimit.go:16-23 | the bucket starts full |
| RateLimit.TokenBucket.AllowN | go/internal/ratelimit/ratelimit.go:29-46 | grants exactly when the request is at most burst and at most the tokens with what flowed in since the last call at the rate per second; a grant takes its tokens, a refusal none, and both cap at burst and move the clock |
| RateLimit.TokenBucket.Allow | go/internal/ratelimit/ratelimit.go:25-27 | asks for one token |
| RateLimit.GrantedWhen | go/internal/ratelimit/ratelimit.go:29-46 | the same condition for the specification function |
| RateLimit.KnownAllowedWhen | go/internal/ratelimit/ratelimit.go:64-73 | and for the bucket of a known IP |
| RateLimit.IPRateLimiter.Allow | go/internal/ratelimit/ratelimit.go:64-73 | asks the IP's own bucket, creating a full one at first sight; all other buckets are untouched |
| RateLimit.StaysInRange | go/internal/ratelimit/ratelimit.go:29-46 | with a clock that does not go back, a request for any number of tokens keeps them between 0 and burst |
| RateLimit.SoundAfterRequest | go/internal/ratelimit/ratelimit.go:64-73 | every request keeps all buckets in range, with the limiter's rate and burst, and not ahead of the clock |
| RateLimit.WindowBound | go/internal/ratelimit/ratelimit.go:29-46 | over any stretch of requests at most burst + rate × elapsed are granted |
| RateLimit.GrantedExactly | go/internal/ratelimit/ratelimit.go:29-46 | in every trace, a request is granted exactly when the grants before it leave room in the window from the start and in every window from an earlier request |
| RateLimit.PerIpIsolation | go/internal/ratelimit/ratelimit.go:64-73 | in every interleaved trace one IP gets the answers of a fresh bucket that sees its requests alone |
| RateLimit.IpBound | go/internal/ratelimit/ratelimit.go:64-73 | from any state on, one IP's grants number at most burst + limit × elapsed |
| RateLimit.IpGrantedExactly | go/internal/ratelimit/ratelimit.go:64-73 | in every interleaved trace of a new limiter, a request is granted exactly when, from each earlier request of its IP on, the grants with this one number at most burst + limit × elapsed |
| Store.SequenceCounter.Next | go/internal/store/sequence.go:37-52 | stores and returns the successor; a failed transaction changes nothing |
| Store.SequenceCounter.GetLast | go/internal/store/sequence.go:56-67 | the last number, 0 for an unknown peer |
| Store.SetOwnerAgrees | go/internal/store/store.go:70-77 | naming an owner keeps the per-peer counts exact |
| ChunkStores.ChunkStore.DropOwner | go/internal/store/store.go:204-211 | dropping one owner entry decrements its peer's count, or deletes a count of one, and so keeps all counts exact |
| ChunkStores.ChunkStore.constructor | go/internal/store/store.go:41-55 | a new store is empty |
| ChunkStores.ChunkStore.SetSequenceCounter | go/internal/store/store.go:66-68 | attaches the persisted counters and changes nothing else |
| ChunkStores.ChunkStore.Store | go/internal/store/store.go:103-133 | the new contents are `StoreChunk`'s, whose numbers `RelayRuns.NumberIsCount` counts; the flag says whether as many chunks are held as the total |
| ChunkStores.ChunkStore.SetMessageOwner | go/internal/store/store.go:70-77 | the first owner stays; the count goes up only for a new owner entry |
| ChunkStores.ChunkStore.PeerMessageCount | go/internal/store/store.go:79-83 | the number of IDs the peer owns |
| ChunkStores.ChunkStore.ListPeerMessages | go/internal/store/store.go:91-101 | exactly the IDs the peer owns, each once |
| ChunkStores.ChunkStore.GetMessageMeta | go/internal/store/store.go:138-146 | timestamp and sequence number of a stored message, zeros otherwise |
| ChunkStores.ChunkStore.GetChunk | go/internal/store/store.go:148-157 | the stored chunk of that index, if any |
| ChunkStores.ChunkStore.GetCompleteMessage | go/internal/store/store.go:159-172 | the reassembly of the held chunks in some map order |
| ChunkStores.ChunkStore.Gc | go/internal/store/store.go:197-215 | in whatever order the map yields the messages, the new contents are `Collect`'s |
| Relay.Classify | go/internal/relay/server.go:67-133 | what a question asks for; only chunks with a positive total and a hash of 0 or 32 bytes are ever stored |
| Relay.RejectsExactly | go/internal/relay/server.go:73-131 | which names are refused or malformed: those outside the zone, polls without a recipient, and labels that are no chunk |
| Relay.EmptyReplies | go/internal/relay/server.go:58-71 | a request beyond the rate is refused and one without a question is malformed, both without an answer |
| Relay.FetchReplies | go/internal/relay/server.go:133-153 | a known chunk is answered with its labels without the zone, an unknown one with a name error |
| Relay.AckReplies | go/internal/relay/server.go:174-187 | a stored chunk is acknowledged with its message ID, its index and OK |
| Relay.Server.Handle | go/internal/relay/server.go:53-188 | the new state is `Next`'s and the reply is one that `IsReply` allows, for every question, malformed ones included |
| Relay.Server.Dispatch | go/internal/relay/server.go:86-187 | poll, query and store answer and change the store as their `Action` says |
| Relay.Server.ListPending | go/internal/relay/server.go:92-112 | one record per ID the peer owns |
| Relay.Server.Receive | go/internal/relay/server.go:156-166 | the store and owner calls together are `PutChunk` |
| RelayInvariants.EmptyIsGood | go/internal/store/store.go:41-55 | a relay that starts with any persisted counters satisfies the invariants of all runs |
| RelayInvariants.RunKeepsGood | go/internal/store/store.go:70-215 | in every reachable state counts are exact without zero entries, every owned ID is live, and every stored chunk sits under its own key with a positive total |
| RelayInvariants.GcIsExact | go/internal/store/store.go:197-215 | gc removes exactly the expired messages from all three maps and changes nothing else |
| RelayInvariants.OwnerAfterGc | go/internal/store/store.go:107-127 | with gc between the store and owner calls of one request, owned IDs stay live exactly when the buffer that took the chunk, which Store does not refresh, is not expired at that gc; the counts agree in either case |
| RelayInvariants.LateRetransmission | go/internal/relay/server.go:156-166 | a chunk stored again at the end of its message's lifetime, with gc a nanosecond later, leaves an owned ID that is not live |
| RelayInvariants.StampIsNew | go/internal/store/sequence.go:37-52 | a new number is larger than the last exactly when the counter is not at its maximum |
| RelayInvariants.RunKeepsSequenced | go/internal/store/store.go:107-125 | over every run, issued numbers stay below their counter and live messages with one counter share no nonzero number |
| RelayInvariants.OwnersShareNoSequence | go/internal/store/sequence.go:77-82 | live messages with the same owner never share a nonzero number, although counters are keyed by eight bytes of the hash |
| RelayRuns.CounterMonotone | go/internal/store/sequence.go:37-52 | no step of a run, gc and restart included, lowers a counter |
| RelayRuns.LaterIsLarger | go/internal/store/store.go:107-125 | of two messages for the same recipient, the one first stored later in a run has the larger number, and both are nonzero |
| RelayRuns.NumberIsCount | go/internal/store/store.go:107-125 | over every run the number of a new message is the value its recipient's counter had at the start plus the messages numbered since then for hashes with the same first eight bytes |
| RelayRuns.FirstChunkDecides | go/internal/store/store.go:70-127 | as long as a message is stored no later chunk, of whatever total or recipient, changes its total, times or number, nor its owner as long as it has one |
| RelayRuns.StoreChangeBound | go/internal/relay/server.go:58-65 | from any sound limiter state on, without a restart, the requests of one IP that change the store number at most burst + limit × seconds elapsed |
| RelayRuns.StretchBound | go/internal/relay/server.go:58-65 | in every stretch of every run that has no restart inside, the requests of one IP that change the store number at most burst + limit × elapsed nanoseconds / 10^9 |
| RelayRuns.LetInExactly | go/internal/relay/server.go:58-65 | after a restart and until the next, a request is let through exactly when its IP stays within burst + limit × elapsed over every window from one of its earlier requests, whatever other IPs do |
| MessageRuns.HoldsWhatArrived | go/internal/store/store.go:103-133 | at every point of a run the store holds exactly the chunks of the message that have arrived, under its owner, and with the time and sequence number stamped by the first step that stored one |
| MessageRuns.RetransmissionHarmless | go/internal/dns/dns.go:84-108 | at any later point before expiry, a store request that was already handled changes no chunk, timestamp, sequence number, owner or count |
| MessageRuns.StoresCommute | go/internal/store/store.go:103-133 | two store requests of one message yield the same store in either order, in every state and for every outcome of their transactions |
| MessageRuns.FullIsExact | go/internal/store/store.go:130-132 | completion is reported exactly when every index is present |
| MessageRuns.FullReassembles | go/internal/store/store.go:159-172 | a complete message reassembles to the payload in every map order |
| DnsClient.SendChunk | go/internal/dns/dns.go:52-109 | tcp, udp, tcp: it stops at the first acceptance, and a udp refusal is final; success means exactly that the last reply it waited for has the success code |
| DnsClient.RetriesActOnce | go/internal/dns/dns.go:84-108 | however many retransmissions of a chunk reach a relay in a row, the first alone decides the state |
| DnsClient.SentNameIsStored | go/internal/relay/server.go:125-166 | a relay reads a sender's name as a store request for that chunk |
| DnsClient.QueryChunk | go/internal/dns/dns.go:111-195 | the result is the parse of the first usable answer among the attempts of the mode, whether or not it decodes, and an error when no attempt is usable |
| DnsClient.WhichAttempt | go/internal/dns/dns.go:115-195 | that attempt is the first in a fixed mode and one of the first three in automatic mode |
| DnsClient.QueryNameIsFetch | go/internal/dns/dns.go:111-114 | a relay reads the query's name as a query for that chunk |
| DnsClient.QueryReadsBack | go/internal/relay/server.go:133-153 | a usable answer is the stored chunk, read back exactly |
| DnsClient.FetchAndReassemble | go/internal/client/dns_engine.go:443-459 | the loop's result, with the write to slot 0 of an empty slice as a panic |
| DnsClient.FetchedExactly | go/internal/client/dns_engine.go:443-459 | a fetch succeeds exactly when the first answer claims some chunks, every query is answered, and the answers are intact and a permutation; the data are then the payloads in index order |
| DnsClient.FetchAllOrNothing | go/internal/client/dns_engine.go:443-459 | with answers from one sent message, the payload if all chunks are answered, an error otherwise, never a panic |
| Engine.PollRecordRoundTrip | go/internal/client/dns_engine.go:334-357 | the client reads from a relay's record the ID and the stamped metadata |
| Engine.PollRelays | go/internal/client/dns_engine.go:224-256 | the first record of each ID over all responding relays, in order |
| Engine.PollIsUnion | go/internal/client/dns_engine.go:224-256 | that list has no ID twice and holds exactly the IDs that some responding relay lists |
| Engine.KeepsEarliest | go/internal/client/dns_engine.go:224-256 | the records kept are exactly those with no earlier record of the same ID, relay by relay |
| Engine.KeepsOrder | go/internal/client/dns_engine.go:224-256 | and they stay in that order |
| Engine.FirstFetch | go/internal/client/dns_engine.go:413-420 | the answer of the first relay that does not answer with an error, be it the data or a panic; an error exactly when all relays answer with one |
| Engine.FetchFromAny | go/internal/client/dns_engine.go:413-420 | the loop over relays yields `FirstFetch` |
| Engine.ParsedFrom | go/internal/client/dns_engine.go:314-330 | a reply is read as exactly its readable records |
| Engine.PollRelay | go/internal/client/dns_engine.go:259-311 | one relay's list is that of the first accepted attempt; an error exactly when none is accepted |
| Engine.WhichAttemptLists | go/internal/client/dns_engine.go:269-311 | that attempt is the first in a fixed mode and one of the first three in automatic mode |
| Engine.PollAnswersWhen | go/internal/client/dns_engine.go:269-311 | so there is a list exactly when one of these is accepted |
| Engine.Client.PollMessages | go/internal/client/dns_engine.go:390-440 | the result, or how far it came when a fetch panics, is `Delivered`, and exactly the fetched IDs are remembered |
| DnsClient.PanicsWhen | go/internal/client/dns_engine.go:443-450 | a fetch panics exactly when the query for chunk 0 is answered with a total of 0 |
| Engine.DeliveredContents | go/internal/client/dns_engine.go:427-437 | what is handed over is a listed record with the data of the first relay that serves it |
| Engine.DeliveredExactly | go/internal/client/dns_engine.go:405-439 | a poll that does not panic hands over exactly the listed, not yet fetched messages that some relay serves, each once |
| Engine.DeliveredInOrder | go/internal/client/dns_engine.go:390-440 | messages are handed over in the order of the list |
| Engine.AtMostOnce | go/internal/client/dns_engine.go:390-440 | over any sequence of polls and answers no ID is handed over twice |
| Engine.PollPanicsExactly | go/internal/client/dns_engine.go:443-450 | in any sequence of polls, whatever each relay answers to each query, a poll panics exactly when some listed message that no earlier poll handed over has a relay that answers the query for chunk 0 with a total of 0 while fetches from all relays before it fail |
| Engine.PollIsComplete | go/internal/client/dns_engine.go:390-440 | an ID is handed over exactly when no poll so far panicked, it is listed, some relay serves it and no earlier poll handed it over; so a failed fetch stays eligible |
| Delivery.PollNameIsPoll | go/internal/client/dns_engine.go:259-267 | the poll's name is POLL, the hash in base32hex and the zone, and a relay reads it as a poll of that recipient |
| Delivery.PollLists | go/internal/relay/server.go:86-123 | at any point of a run after all chunks are stored, a poll of the recipient that is let through lists the message |
| Delivery.PollReportsFirstStore | go/internal/relay/server.go:94-107 | what the client reads from the poll is the time and the sequence number that the relay stamped when it first stored a chunk of the message |
| Delivery.NoTruncatedMessage | go/internal/client/dns_engine.go:443-459 | against a relay whose chunks for the ID come from one message, a fetch whose queries are answered at any points of any run, restarts, expiry and renewed storing included, gives the whole payload or an error |
| Delivery.NeverPanics | go/internal/client/dns_engine.go:448-450 | whatever reachable states of a relay answer the queries and whatever they hold, the write to slot 0 of a fetch is in bounds |
| Delivery.EndToEnd | go/internal/client/dns_engine.go:443-459 | once all chunks are stored and until the message expires, a fetch whose every query is let through at least once returns exactly the payload |
| Receiving.PanicLosesMessage | go/internal/client/dns_engine.go:449-450 | an input for which a poll panics and hands over nothing, whatever a second relay lists and serves: replies that repeat the labels of the query |
| Receiving.RelaysAreSafe | go/internal/client/dns_engine.go:390-440 | a client that polls relays in reachable states lives through any sequence of polls, and each poll hands over exactly what is listed, served and new |
| Receiving.MessageReceived | go/internal/client/dns_engine.go:390-440 | if one of any number of relays has stored the whole message and lets the poll and the queries through, the poll hands over exactly one message under its ID: the payload, with a time and a number that a relay stamped; the other relays may fail or hold parts |
| Receiving.ReceivedFromOne | go/internal/client/dns_engine.go:390-440 | with one relay, time and number are those of the first store of the message |
| Scenario.DeliveryIsPossible | go/internal/relay/server.go:53-188 | for every message of 1 to 65535 chunks with legal names there is a relay run of legal requests and a fetch that satisfy all premises of end-to-end delivery |
| Scenario.ReceiptIsPossible | go/internal/client/dns_engine.go:390-440 | and a poll that satisfies all premises of receiving it |
| Delivery.SenderMeetsPremises | go/internal/encoding/encoding.go:35-57 | the chunks of any plaintext that makes 1 to 65535 of them satisfy the premises of delivery |
| Sender.RunInv | go/internal/client/dns_engine.go:468-568 | in every reachable state semaphore and wait group count what they stand for, and flags stand for accepted chunks |
| Sender.Safety | go/internal/client/dns_engine.go:468-568 | at most 15 sends in flight; flags only for accepted chunks; no worker running after the return; nil means every chunk was accepted by some relay |
| Sender.NilIsExact | go/internal/client/dns_engine.go:468-568 | in every run, a nil return means that every chunk was accepted exactly when there is a relay or no chunk |
| Sender.OwnReturnIsExact | go/internal/client/dns_engine.go:519-566 | without a cancellation from outside, the return is nil exactly when every chunk is flagged as delivered |
| Sender.FlagsAreSuccesses | go/internal/client/dns_engine.go:502-509 | after the return, in every interleaving, a chunk is flagged exactly when some relay's send of it succeeded |
| Sender.NilExactlyOnSuccess | go/internal/client/dns_engine.go:468-568 | without a cancellation from outside, the return is nil exactly when of every chunk some relay's send succeeded |
| Sender.LostAcknowledgement | go/internal/client/dns_engine.go:502-509 | a run without a cancellation in which every chunk was accepted but an error is returned, because the acknowledgement was lost |
| Sender.FalseFailure | go/internal/client/dns_engine.go:539-549 | a run in which the context ends before the next tick and an error is returned although every chunk was accepted and flagged |
| Sending.AcceptedIsStored | go/internal/relay/server.go:156-187 | a relay that accepts a sender's request for a chunk stores that chunk |
| Sending.NilMeansStored | go/internal/client/dns_engine.go:468-568 | a nil return of the sender to one relay, whose acceptances are steps of that relay's run, means that the relay stored every chunk |
| Sending.NilMeansDelivered | go/internal/client/dns_engine.go:468-568 | and from then on, until the message expires, a fetch whose every query is let through at least once returns exactly the payload |
| Sender.NeverStuck | go/internal/client/dns_engine.go:468-568 | until it returns, the sender always has a step of its own that changes something |
| Sender.SlotIsFree | go/internal/client/dns_engine.go:491-496 | as long as fewer than 15 sends hold a slot, a waiting one can take one |
| Sender.WaiterLeaves | go/internal/client/dns_engine.go:491-496 | once the context has ended, a waiting worker can leave without a slot |
| Sender.NoSendAfterCancel | go/internal/client/dns_engine.go:497-501 | once the context has ended, no further send starts |
| Sender.StepDecreases | go/internal/client/dns_engine.go:468-568 | every such step lowers a measure that a cancellation from outside does not raise |
| Sender.Terminates | go/internal/client/dns_engine.go:468-568 | no run has more than seven such steps per chunk and relay and four more |
| Queue.OfflineQueue.Enqueue | go/internal/client/queue.go:50-58 | a new row without retries under a new ID, which is returned |
| Queue.OfflineQueue.Pending | go/internal/client/queue.go:61-81 | all rows, each once, ordered by creation time |
| Queue.OfflineQueue.MarkFailed | go/internal/client/queue.go:84-89 | one retry more and the error, for that row only |
| Queue.OfflineQueue.Remove | go/internal/client/queue.go:92-95 | deletes that row only |
| Queue.ProcessQueue | go/internal/client/daemon.go:1579-1604 | one pass over the snapshot, with messages enqueued meanwhile, ends in `AfterPass` and sends `Attempts` |
| Queue.PassEffect | go/internal/client/daemon.go:1579-1604 | every message that was queued when a pass began meets its own outcome, whatever the others and the arrivals do; a deleted message does not return |
| Queue.LateArrivalKept | go/internal/client/queue.go:50-58 | a message enqueued during a pass has a new ID and is there, untouched, when the pass ends |
| Queue.StaysExactlyWhileFailing | go/internal/client/daemon.go:1579-1604 | a message is still queued after k passes exactly when all k sends failed and it has at most 20 failures; it then has k failures more, the error of the last one, and is otherwise unchanged |
| Queue.SentAtMostTwentyTimes | go/internal/client/daemon.go:1500-1500 | a message is sent once per pass while it stays, and never more than 20 times |
| Queue.Drained | go/internal/client/daemon.go:1579-1604 | 21 passes remove every message that was queued, whatever the sends and the arrivals |

## Left out

- Sockets, timeouts, sleeps, jitter, address resolution and logging; a DNS exchange yields any reply or none.
- `mux.HandleFunc`'s matching of the zone, EDNS, TTLs and the other header fields of a DNS message.
- Names with backslash escapes in `dns.Fqdn`, and the newlines that Go's base32 decoder skips; no name of the pipeline has either.
- Upper and lower case of names changed on the way by resolvers.
- Go's `int` is unbounded here; a chunk size near 2^63, for which the sum in `ChunkMessage` overflows, is not modelled. 16-bit and 64-bit conversions are.
- Rounding of floating-point tokens: tokens and times are reals.
- The clock is read once per request, and one request is one step; the finer interleaving with gc is covered only by the lemmas named above.
- RelayRuns.LaterIsLarger: assumes that the run is too short to wrap a 64-bit counter, and speaks of messages whose transaction commits; a failed `Next` leaves the number 0.
- RelayRuns.StretchBound: between restarts only, since a restart forgets the buckets.
- Message buffers are values in the store's map, not shared references.
- SQLite and BoltDB are reliable tables apart from the failing sequence transaction; a failed read of the queue skips a pass.
- Store never fails in the source, so the handler's server-failure reply has no counterpart.
- `maxPerPeer` is set but never read; there is no quota to state.
- The source's comment that clients of the old format can read extended poll records is not stated: their parser decodes the whole record, colons included.
- After a panic the process ends; a new process starts with nothing fetched and is another client.
- Concurrent calls of `PollMessages` on one client: its check and its mark are separate critical sections, so at-most-once is for polls one after another.
- Delivery is per relay: the sender's success means that each chunk reached some relay, and a fetch reads from one.
- `sendWithRetry`, `SendMessage`'s choice of a message ID, and `resolveAddr`.
- The HTTP media server and media transports, group chat, the daemon's message dispatch, transfer status and cancellation.
- Encryption, signatures, invite codes and key files.
- The Flutter, Kotlin, Swift and C++ parts, generated code and build scripts.
