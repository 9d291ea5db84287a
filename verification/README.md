# A verified model of the peer discovery centre

PeerDiscoveryCenter finds BitTorrent peers through trackers, a DHT node and peer exchange. This project
models, in Dafny 4.11, the DHT node and the peer indexes around it as sequential programs, and proves what
they keep over every call and every run. `dafny verify dfyconfig.toml` checks the whole project.

## The pieces

- **The DHT node.** `XorMetric` is the distance theory. `NodeIdSecurity` is the node id rule built on CRC-32.
  `Buckets` states the k-bucket table on values, `BucketRouting` says which bucket a node goes to and what every
  operation changes, `RoutingTable` is the table updated in place, and `Nearest` is the nearest-node query. `Tokens`
  is the rotating-secret token manager, `PeerStore` the announced peers. `NodeProtocol` is one protocol step as a
  function, with the announce safety theorem over runs, and `NodeAnswers` what its answers are worth to those who read
  them; `Crawler` is the node built from the in-place parts and proved to take exactly those steps. `Lookup` is the
  iterative search against an arbitrary network, `LookupTables` what it leaves in the table; `Fitness` follows the BEP
  42 id rule through it, `UnfitLookup` is a lookup that breaks the rule, and `Bep42Departure` compares the rule with
  the standard. `CrawlTimer` is the timing of the crawl loop.
- **Wire formats.** `Bencode` is a reference encoder and decoder. `CompactInfo` holds the packed peer and node lists,
  `Krpc` the hand-written DHT messages, `Pex` the peer exchange messages, `TrackerReply` the HTTP tracker's reply,
  `UdpTracker` both ends of the UDP tracker protocol (BEP 15) over the peers of `TrackerState`, `TrackerAnswers` what
  it answers, and `TrackerRuns` what every run of it keeps.
- **Caches against simple references.** `PeerCache` and `Aggregator` are proved against "the best by score", "the most
  recently active" and "the earliest copy of each address", with `CacheRefresh` on the loop between them and
  `CacheMarks` on connection marks; `Bloom` against the items inserted; `RateLimit` against per-client windows;
  `GlobalStore` against the same nearest query as the table. `Sorting` and `TopK` carry the theory they share.

## How the model reads the program

- An object whose methods change its fields is a class with those fields. Beside each class stand functions on plain
  values; the methods' contracts equate the new state with those functions of the old state, and the laws are proved
  about the functions. A hash map listed in arbitrary order is listed in arbitrary order here too, so every result
  holds for every order.
- Clocks, random bytes, the network and the random sample of infohashes are inputs. The node has one clock in whole
  seconds that does not wrap; caches, trackers and the rate limiter count nanoseconds.
- The token digest and the Bloom filter's two base hashes are unknown functions. Where a theorem needs a digest
  without collisions it says for which arguments.
- A 32- or 64-bit word is a number with its bounds where it is only compared or sent, and its list of bits where the
  code shifts, masks or combines it bitwise. Wrapping and truncating conversions are written out.
- Locks and asynchronous execution are erased: each method is one step.

## Where the code and its own description differ

The model follows the code. The rows below state each of these as a theorem.

- The id check ties the third id byte to bits 18 to 14 of the checksum; its comment and BEP 42 say the first 21 bits.
  The two agree at exactly the addresses whose checksum repeats those bits (`NodeIdSecurity.CheckIsBep42Exactly`), not
  at 0.0.0.0 (`Bep42Departure.GeneratedIdBreaksBep42`), and never at both of two neighbours
  (`Bep42Departure.OneOfNeighboursDeparts`).
- The test that a bucket contains our own id never fails, so any full bucket may split
  (`Buckets.EveryBucketContainsOwnId`), and the cached node count also grows when an entry is refreshed or replaced
  (`RoutingTable.RoutingTable.InsertEntry`, exactly when: `Buckets.DisplacesExactly`, one such insertion:
  `Buckets.RefreshDisplaces`).
- The list of buckets is not kept in the order of their prefixes, as its comment says: a split gives both halves the
  longer prefix, and two splits can leave prefixes 2, 1, 2 (`BucketRouting.TwoSplits`). Where a node belongs in any
  layout is `Buckets.FoundWhereItBelongs`.
- The `find_node` query, the plain `get_peers` reply and the extension handshake request are written with a wrong
  length prefix or a dictionary closed too early (`Krpc.FindNodeNeverDecodes`, `Krpc.GetPeersResponseUnreadable`,
  `Pex.ExtensionHandshakeNeverDecodes`).
- The target of a received `find_node` query is never read, so the answer is right for every table only at the zero id
  (`NodeProtocol.FindNodeAnswer`, `NodeProtocol.FindNodeAnswersTargetExactly`).
- IPv6 nodes misalign the node list of a `get_peers` reply (`CompactInfo.LooseNodesRoundTrip`), and IPv6 peers of a
  ut_pex message vanish while their flags stay (`Pex.UtPexLossless`).
- The handshake does not set the extension bit that its own reader looks for (`Pex.OwnHandshakeLacksExtension`).
- A node that answers, but is no longer in the table, is inserted under the id it reports without the id check that
  new nodes must pass. When exactly this lets an unfit id in is `Fitness.LookupFit`.
- The queries of a round share one socket, and each takes the first datagram that comes: neither its sender nor its
  transaction id is looked at. So the replies of two honest nodes can be swapped, and a lookup among honest nodes can
  end with an id that does not fit its address (`UnfitLookup.LookupAdmitsUnfitId`). It cannot when every query reads
  the reply of the node it asked (`Fitness.HonestLookupKeepsFit`).
- Bootstrap addresses enter the table under random ids, and the comment there expects later answers to correct them. A
  held entry keeps its id however often its node answers (`Fitness.HeldEntryKeepsId`).
- An announce does not look at the age of its connection id, so an id older than 120 seconds holds until the next
  periodic cleanup (`TrackerRuns.AdmittedExactly`, `TrackerRuns.OverAgeIdAdmitted`).
- The crawl loop looks at its timers only after a whole second without a datagram. Steady traffic therefore puts off
  maintenance, and with it the rotation of the token secret, for as long as it lasts
  (`CrawlTimer.MaintenanceRunsExactly`, `CrawlTimer.DenseTrafficStarves`, `CrawlTimer.SteadyTrafficStarvesRotation`).
- A lookup adds the cached peers it returns back to the cache, which makes them active now; so a peer nobody reports
  any more does not expire 24 hours after its last report while lookups continue
  (`CacheRefresh.UnreportedPeerOutlivesADay`; exactly when: `CacheRefresh.GroupLivesExactly`).
- A peer is dropped from the cache at the fifth failure beyond its successes, where the comment there says five in a
  row: successes in between do not refill the budget (`CacheMarks.HeldExactly`, `CacheMarks.FifthFailureDrops`).
- The comparator of the nearest query never answers "equal". A stable sort only asks whether it answers "less", so the
  model sorts stably by distance.

## Model

| member | source | states |
|---|---|---|
| `Addresses.PackingIsABijection` | src/discoverers/dht/routing_table.rs:48-91 | packing a socket address and unpacking it undo each other in both directions, and the packed form keeps the IP |
| `XorMetric.XorDistance` | src/discoverers/dht/routing_table.rs:245-253 | the loop computes the bytewise exclusive or |
| `XorMetric.DistanceLess` | src/discoverers/dht/routing_table.rs:255-266 | true exactly when the first id is smaller as a 160-bit big-endian number |
| `XorMetric.CommonPrefixLen` | src/discoverers/dht/routing_table.rs:269-283 | the byte loop with leading zeros computes the number of leading bits two ids share |
| `XorMetric.DistanceIsAMetric` | src/discoverers/dht/routing_table.rs:245-253 | distance is symmetric, zero only between equal ids, and obeys the triangle inequality |
| `XorMetric.DistanceDeterminesId` | src/discoverers/dht/routing_table.rs:245-253 | the distance to a fixed target determines the id |
| `XorMetric.PrefixLenMeaning` | src/discoverers/dht/routing_table.rs:269-283 | sharing j leading bits is the same as a distance below 2^(160-j) and as equal top j bits |
| `XorMetric.PrefixLenUltrametric` | src/discoverers/dht/routing_table.rs:269-283 | a and c share at least the smaller of what a, b and b, c share |
| `XorMetric.PrefixLenBoundsDistance` | src/discoverers/dht/routing_table.rs:269-283 | a prefix of p < 160 bits puts the distance between 2^(159-p) and 2^(160-p), so a longer common prefix is strictly nearer; 160 means equal ids |
| `NodeIdSecurity.Crc32` | src/discoverers/dht/routing_table.rs:224-238 | the bit loop computes the checksum function the laws below are about |
| `NodeIdSecurity.CrcIsAffine` | src/discoverers/dht/routing_table.rs:224-238 | on inputs of one length the checksum of a xor b xor c is the xor of the checksums |
| `NodeIdSecurity.CrcIsABijection` | src/discoverers/dht/routing_table.rs:224-238 | on four-byte inputs the checksum has an explicit inverse in both directions |
| `NodeIdSecurity.GenerateNodeIdV4` | src/discoverers/dht/routing_table.rs:161-180 | whatever the random fill, the generated id passes the check for its address and keeps the fill in the free bits |
| `NodeIdSecurity.VerifyNodeId` | src/discoverers/dht/routing_table.rs:216-221 | decides acceptance; every IPv6 address is accepted |
| `NodeIdSecurity.AcceptanceSharing` | src/discoverers/dht/routing_table.rs:185-198 | an id accepted for one address is accepted for another exactly when the checksums of the two, masked bit by bit with 03.0f.3f.ff, agree on their top 18 bits; so surely when the octets agree modulo 4, 16, 64 and 256 |
| `NodeIdSecurity.MaskedAddressesDiffer` | src/discoverers/dht/routing_table.rs:161-171 | two addresses have the same checksum under the mask exactly when their octets agree modulo 4, 16, 64 and 256 |
| `NodeIdSecurity.MaskIsBitwise` | src/discoverers/dht/routing_table.rs:164-169 | the masked octets are the bitwise and of the address with 03.0f.3f.ff |
| `NodeIdSecurity.AcceptedExactly` | src/discoverers/dht/routing_table.rs:185-198 | the check, bit by bit: the id's first two octets are the top 16 checksum bits, and the five high bits of the third are bits 18..14 |
| `NodeIdSecurity.CheckAgainstBep42` | src/discoverers/dht/routing_table.rs:182-198 | the check reads checksum bits 18..14 where BEP 42 asks for bits 15..11: for an address where these five bits coincide both tests accept the same ids, otherwise they accept no common id |
| `NodeIdSecurity.CheckIsBep42Exactly` | src/discoverers/dht/routing_table.rs:182-198 | at an address the check accepts the ids BEP 42 asks for exactly when the checksum repeats those five bits |
| `Bep42Departure.OneOfNeighboursDeparts` | src/discoverers/dht/routing_table.rs:182-198 | of any two addresses that differ in the top bit of the last octet, at one at least the check accepts an id BEP 42 forbids |
| `Bep42Departure.CrcOfZeroAddress` | src/discoverers/dht/routing_table.rs:224-238 | the checksum of 0.0.0.0 is 0x2144df1c |
| `Bep42Departure.AcceptedAtZero` | src/discoverers/dht/routing_table.rs:185-198 | 0.0.0.0 takes exactly the ids that begin with 0x21, 0x44 and, in five bits, 0x13 |
| `Bep42Departure.GeneratedIdsDiffer` | src/discoverers/dht/routing_table.rs:161-198 | ids generated for 1.0.0.4 and 2.0.0.4 begin with different octets, and each address refuses the other's |
| `Bep42Departure.GeneratedIdBreaksBep42` | src/discoverers/dht/routing_table.rs:161-198 | every id generated for 0.0.0.0 passes the check and breaks the rule of BEP 42 |
| `Buckets.PlaceEffect` | src/discoverers/dht/routing_table.rs:317-341 | one bucket insertion keeps the bucket within 20, sorted by last_seen and address-unique, trades at most one displaceable entry for the new one, and refuses exactly when the bucket is full of live entries at other addresses |
| `Buckets.EveryBucketContainsOwnId` | src/discoverers/dht/routing_table.rs:464-471 | the own-id test guarding a split never fails |
| `Buckets.SplitConserves` | src/discoverers/dht/routing_table.rs:474-507 | a split leaves the table's multiset of entries unchanged and every bucket well-formed, and adds one bucket unless the prefix is already 159 |
| `Buckets.InsertEntryConserves` | src/discoverers/dht/routing_table.rs:525-548 | an insertion adds exactly the new entry and displaces at most one, never a live one at another address; a refused one leaves the multiset unchanged |
| `Buckets.InsertEntryRefusal` | src/discoverers/dht/routing_table.rs:525-548 | an insertion fails only at the bucket where the node belongs after the split, and only when that holds 20 live entries at other addresses |
| `Buckets.DisplacesExactly` | src/discoverers/dht/routing_table.rs:525-548 | an insertion displaces an entry exactly when the bucket where the node belongs, or after a refusal the one where it belongs after the split, holds the address or is full with an expired or failed entry |
| `Buckets.FoundWhereItBelongs` | src/discoverers/dht/routing_table.rs:447-461 | the bucket tried is the first whose prefix is at most the number of leading bits the node shares with us, or bucket 0 when there is none |
| `BucketRouting.SplitCutsInTwo` | src/discoverers/dht/routing_table.rs:474-507 | a split cuts the bucket by one more leading bit, both halves carrying the longer prefix: the far half stays, the near half goes before the first longer prefix |
| `BucketRouting.PlaceTakes` | src/discoverers/dht/routing_table.rs:317-341 | a bucket that is not full of live others takes the entry: in place of the one at its address, else in free room, else in place of a least recently seen one among the failed and expired |
| `BucketRouting.InsertionGoesWhereItBelongs` | src/discoverers/dht/routing_table.rs:525-548 | the entry goes to the bucket where the node belongs and no other changes; when that is full of live others, to the one where it belongs after the split, or it is refused there for the same reason |
| `BucketRouting.InsertionLands` | src/discoverers/dht/routing_table.rs:525-548 | after an insertion the entry is held or the bucket where it belongs is full of live others; no live entry at another address is gone, and nothing else came in |
| `BucketRouting.TwoSplits` | src/discoverers/dht/routing_table.rs:474-507 | two splits of a bucket of nodes that share no bit with us leave prefixes 2, 1, 2, with all of them in the first |
| `BucketRouting.MiddleBucketTakes` | src/discoverers/dht/routing_table.rs:447-461 | in that layout a node that shares exactly one bit goes into the middle bucket, however full the first is |
| `Buckets.RefreshDisplaces` | src/discoverers/dht/routing_table.rs:525-548 | refreshing the one entry of a table displaces its old copy: one entry is left, while the cached count grows |
| `Buckets.RemoveEffect` | src/discoverers/dht/routing_table.rs:551-559 | removal keeps every bucket well-formed and takes out exactly one entry of the address if there is one, else nothing |
| `BucketRouting.RemovalEffect` | src/discoverers/dht/routing_table.rs:551-559 | the entry removed is the first one at the address in bucket order; nothing else changes |
| `BucketRouting.TouchEffect` | src/discoverers/dht/routing_table.rs:562-570 | the first entry at the address is seen now and has no failures; nothing else changes |
| `BucketRouting.FailEffect` | src/discoverers/dht/routing_table.rs:573-580 | the first entry at the address has one failure more, up to 255; nothing else changes |
| `Buckets.RewriteEffect` | src/discoverers/dht/routing_table.rs:562-580 | touching and failing keep every bucket well-formed and the number of entries |
| `Buckets.EvictFilters` | src/discoverers/dht/routing_table.rs:627-635 | eviction keeps exactly the healthy unexpired entries, in order, over the whole table |
| `Buckets.EvictKeepsTableOk` | src/discoverers/dht/routing_table.rs:627-635 | eviction keeps every bucket well-formed |
| `Buckets.RefreshPicksOldest` | src/discoverers/dht/routing_table.rs:640-654 | a bucket offers for refresh its least recently seen healthy entry, and none exactly when all healthy entries are at most 300 s old |
| `BucketRouting.RefreshOffers` | src/discoverers/dht/routing_table.rs:640-654 | in bucket order, each bucket with a healthy entry older than 300 s offers its least recently seen healthy one, and no other bucket offers any |
| `RoutingTable.KBucket.Insert` | src/discoverers/dht/routing_table.rs:317-341 | updates the entries in place to the specified placement, or leaves them on refusal |
| `RoutingTable.KBucket.Remove` | src/discoverers/dht/routing_table.rs:344-350 | drops the first entry of the address in place |
| `RoutingTable.KBucket.Touch` | src/discoverers/dht/routing_table.rs:353-362 | refreshes the first entry of the address and re-sorts |
| `RoutingTable.KBucket.MarkFailed` | src/discoverers/dht/routing_table.rs:365-372 | counts one more failure, saturating at 255 |
| `RoutingTable.KBucket.Evict` | src/discoverers/dht/routing_table.rs:375-380 | retains healthy unexpired entries and reports how many went |
| `RoutingTable.RoutingTable.constructor` | src/discoverers/dht/routing_table.rs:405-414 | starts with one empty bucket of prefix 0 |
| `RoutingTable.RoutingTable.LocateBucket` | src/discoverers/dht/routing_table.rs:447-461 | finds the first bucket that covers the target, else the first bucket |
| `RoutingTable.RoutingTable.SplitBucket` | src/discoverers/dht/routing_table.rs:474-507 | splits in place exactly as the value-level split that conserves entries |
| `RoutingTable.RoutingTable.InsertEntry` | src/discoverers/dht/routing_table.rs:525-548 | in place: place, else split and place; keeps the table well-formed, and the cached count minus the true count grows by exactly the entries displaced |
| `RoutingTable.RoutingTable.Insert` | src/discoverers/dht/routing_table.rs:513-522 | inserts a node seen now without failures, with the same accounting |
| `RoutingTable.RoutingTable.Remove` | src/discoverers/dht/routing_table.rs:551-559 | removes from the first bucket holding the address and lowers the count by one, without ever saturating |
| `RoutingTable.RoutingTable.Touch` | src/discoverers/dht/routing_table.rs:562-570 | refreshes in the first bucket holding the address |
| `RoutingTable.RoutingTable.MarkFailed` | src/discoverers/dht/routing_table.rs:573-580 | marks a failure in the first bucket holding the address |
| `RoutingTable.RoutingTable.EvictExpired` | src/discoverers/dht/routing_table.rs:627-635 | cleans every bucket and lowers the count by exactly what went |
| `RoutingTable.RoutingTable.FindClosest` | src/discoverers/dht/routing_table.rs:583-605 | an exact nearest query over all buckets |
| `RoutingTable.RoutingTable.RefreshList` | src/discoverers/dht/routing_table.rs:640-654 | collects one candidate address per bucket, in bucket order |
| `Nearest.ClosestIsKNearest` | src/discoverers/dht/routing_table.rs:583-605 | filter, sort and cut returns min(count, healthy) healthy entries in ascending distance, and no omitted healthy entry is strictly nearer than a returned one |
| `Nearest.KNearestIgnoresLayout` | src/discoverers/dht/routing_table.rs:583-605 | the ids answered do not depend on how the entries are laid out in buckets |
| `Nearest.NearestOrFull` | src/discoverers/dht/routing_table.rs:583-605 | a healthy entry is answered unless the answer is full of entries at least as near |
| `Sorting.SortIsStableSort` | src/discoverers/dht/routing_table.rs:590-602 | the sort used throughout permutes, orders, and keeps the order of equal keys; the comparator never answers equal, which a stable sort treats as equal |
| `TopK.TakeSortIsKSmallest` | src/discoverers/dht/routing_table.rs:583-605 | sorting and truncating selects the k smallest of a multiset |
| `TopK.KSmallestUnique` | src/discoverers/dht/routing_table.rs:583-605 | any two selections of the k smallest list the same keys in the same order |
| `Tokens.TokenManager.MaybeRotate` | src/discoverers/dht/token.rs:61-67 | rotates both secrets and the time exactly when 300 s have passed |
| `Tokens.TokenManager.Generate` | src/discoverers/dht/token.rs:70-86 | issues the token of the endpoint under the current secret |
| `Tokens.TokenManager.Verify` | src/discoverers/dht/token.rs:89-99 | accepts exactly an 8-byte token that matches the current or the previous secret |
| `Tokens.TokenLivesThreeHundredSeconds` | src/discoverers/dht/token.rs:61-99 | for less than 300 s after issue a token is accepted, whatever rotations happen |
| `Tokens.TokenDiesAtSecondRotation` | src/discoverers/dht/token.rs:61-99 | with fresh secrets and no digest collision a token is accepted exactly until the second rotation |
| `Tokens.TokenDeadEventually` | src/discoverers/dht/token.rs:61-99 | if the rotation check runs with gaps of at most g seconds, a token is rejected from 600 + 2g seconds after issue on |
| `CrawlTimer.MaintenanceRunsExactly` | src/crawler/engine.rs:375-448 | for any arrival times of datagrams, maintenance runs exactly when a turn begins with a second of silence and looks at its timers 60 s or more after the last time |
| `CrawlTimer.SilenceSuffices` | src/crawler/engine.rs:375-448 | one silent second that ends 60 s or more after the last run makes maintenance run, even when datagrams come just as other seconds end |
| `CrawlTimer.DenseTrafficStarves` | src/crawler/engine.rs:375-448 | datagrams less than a second apart keep maintenance from running as long as they last, however long the loop works on each |
| `CrawlTimer.MaintenanceIsPaced` | src/crawler/engine.rs:430-448 | with an idle turn at least every h and turns that work at most w, maintenance runs, and runs again, within 60 s + h + w: no two runs are farther apart, and neither are the last run and the end |
| `CrawlTimer.SteadyTrafficStarvesRotation` | src/crawler/engine.rs:430-448 | datagrams at every half second are traffic of any length under which maintenance never runs and a token handed out before is still accepted |
| `CrawlTimer.DenseTrafficKeepsTokens` | src/crawler/engine.rs:375-448 | under datagrams less than a second apart a token handed out before them is accepted as long as they last |
| `CrawlTimer.TokenDeadUnderTraffic` | src/discoverers/dht/token.rs:61-99 | with an idle turn at least every h and turns that work at most w, a token is rejected from 600 s and two gaps after it was handed out, a gap being 60 s + h + w rounded up to whole seconds |
| `PeerStore.DhtStore.AnnouncePeer` | src/discoverers/dht/store.rs:80-107 | refreshes or adds the peer, dropping a least recently seen one at the cap, with exact totals |
| `PeerStore.DhtStore.Query` | src/discoverers/dht/store.rs:112-124 | the first unexpired peers up to the limit |
| `PeerStore.DhtStore.Count` | src/discoverers/dht/store.rs:127-133 | the number of unexpired peers |
| `PeerStore.DhtStore.EvictExpired` | src/discoverers/dht/store.rs:136-157 | removes expired peers and emptied lists; both totals stay exact and the result is the number removed |
| `PeerStore.DhtStore.SampleInfohashes` | src/discoverers/dht/store.rs:167-180 | all infohashes, or that many distinct ones |
| `PeerStore.AnnounceKeepsListOk` | src/discoverers/dht/store.rs:80-107 | no list is empty, exceeds 256 or repeats an address |
| `PeerStore.AnnounceAtCap` | src/discoverers/dht/store.rs:96-102 | at the cap one least recently seen peer is dropped, so an unexpired one only if all 256 are unexpired |
| `PeerStore.AnnounceEffect` | src/discoverers/dht/store.rs:80-107 | an announce stores the peer as seen now and leaves every other peer alone, but for a least recently seen one of a full list |
| `PeerStore.GetPeersAnswer` | src/discoverers/dht/store.rs:112-124 | the answer has min(limit, fresh entries) distinct addresses, each of an entry at most 1800 s old, and every fresh one when they fit |
| `PeerStore.PeerCountExactly` | src/discoverers/dht/store.rs:127-133 | the count is the number of entries at most 1800 s old |
| `PeerStore.EvictKeepsFresh` | src/discoverers/dht/store.rs:136-157 | eviction keeps exactly the entries at most 1800 s old, and the lists that have one |
| `PeerStore.EvictionIsInvisible` | src/discoverers/dht/store.rs:112-157 | eviction changes no answer of get_peers or peer_count at that time or later |
| `PeerStore.AnnounceBookkeeping` | src/discoverers/dht/store.rs:80-107 | how an announce changes the number of lists and the sum of their lengths; subtractions never saturate |
| `CompactInfo.EncodeCompactPeers` | src/discoverers/pex/message.rs:285-294 | the loop packs exactly the IPv4 peers, six bytes each |
| `CompactInfo.ParseCompactPeers` | src/discoverers/dht/message.rs:96-105 | the loop unpacks every whole chunk of six bytes with a nonzero port |
| `CompactInfo.PeersRoundTrip` | src/discoverers/dht/message.rs:96-105 | packing then unpacking returns the IPv4 peers with nonzero port, in order |
| `CompactInfo.ReachableIsAll` | src/discoverers/dht/message.rs:96-105 | nothing is lost exactly when every peer is IPv4 with a nonzero port |
| `CompactInfo.PeersBeforeTail` | src/discoverers/dht/message.rs:96-105 | an incomplete record at the end costs nothing but itself |
| `CompactInfo.PortOnTheWire` | src/discoverers/pex/message.rs:285-294 | 10.0.0.1:6881 is packed as 0a000001 1ae1, and read back |
| `CompactInfo.EncodeCompactNodes` | src/discoverers/dht/message.rs:336-352 | the loop packs IPv4 and IPv6 nodes into separate strings |
| `CompactInfo.NodesRoundTrip` | src/discoverers/dht/message.rs:50-92 | both strings unpack to the nodes of their family, in order |
| `CompactInfo.EncodeNodesLoosely` | src/discoverers/dht/message.rs:422-432 | the loop of the get_peers reply packs both families into one string |
| `CompactInfo.LooseNodesRoundTrip` | src/discoverers/dht/message.rs:422-432 | that string unpacks to the nodes that went in exactly when all are IPv4 |
| `Bencode.RoundTrip` | src/discoverers/dht/message.rs:196-205 | decoding undoes encoding for every item, whatever follows it |
| `Bencode.DecodeSound` | src/discoverers/dht/message.rs:196-205 | whatever decodes is the encoding of what it decodes to followed by the rest, so the two are inverse in both directions |
| `Krpc.BuildPing` | src/discoverers/dht/message.rs:183-191 | writes the encoding of the intended query |
| `Krpc.BuildGetPeers` | src/discoverers/dht/message.rs:147-163 | writes the encoding of the intended query |
| `Krpc.BuildAnnouncePeer` | src/discoverers/dht/message.rs:481-503 | writes the encoding of the intended query |
| `Krpc.BuildSampleInfohashes` | src/discoverers/dht/message.rs:506-521 | writes the encoding of the intended query |
| `Krpc.BuildPingResponse` | src/discoverers/dht/message.rs:307-316 | writes the encoding of the intended reply; the announce reply has the same bytes |
| `Krpc.BuildFindNodeResponse` | src/discoverers/dht/message.rs:319-328 | writes the encoding of the reply with no nodes |
| `Krpc.BuildFindNodeResponseWithNodes` | src/discoverers/dht/message.rs:331-371 | writes the encoding of the reply with both node strings |
| `Krpc.BuildGetPeersResponseFull` | src/discoverers/dht/message.rs:396-444 | writes the encoding of the reply with peers or else nodes, and the token last |
| `Krpc.BuildSampleInfohashesResponse` | src/discoverers/dht/message.rs:524-546 | writes the encoding of the intended reply |
| `Krpc.QueryRoundTrip` | src/discoverers/dht/message.rs:196-237 | every encoded query parses back to its transaction id, method and 20-byte info_hash |
| `Krpc.GetPeersQueryRoundTrip` | src/discoverers/dht/message.rs:147-237 | a get_peers query parses back to its infohash |
| `Krpc.AnnounceRoundTrip` | src/discoverers/dht/message.rs:240-503 | an announce_peer query parses back to its id, infohash, port, token and flag |
| `Krpc.AnnounceFieldsRead` | src/discoverers/dht/message.rs:240-503 | whatever the order of its arguments and whatever else is among them, an announce is read with its port modulo 2^16, its token, its ids (what is not 20 bytes reads as zeros), and an implied port exactly when its number is not 0; missing fields have their defaults |
| `Krpc.KindsAreToldApart` | src/discoverers/dht/message.rs:196-237 | a response is never read as a query, a query never as a response, an unknown method never, and no other method as an announce |
| `Krpc.GetPeersResponseRoundTrip` | src/discoverers/dht/message.rs:396-640 | a get_peers reply parses back to its id, token and reachable peers, and to its nodes exactly when they are IPv4 |
| `Krpc.FindNodeResponseRoundTrip` | src/discoverers/dht/message.rs:331-675 | a find_node reply parses back to its IPv4 nodes followed by its IPv6 nodes |
| `Krpc.SampleResponseRoundTrip` | src/discoverers/dht/message.rs:524-578 | a sample reply parses back to its numbers and samples |
| `Krpc.ResponseFieldsRead` | src/discoverers/dht/message.rs:583-640 | whatever the fields and their order, a response is read with the first two bytes of its transaction id, or two zeros for a shorter one, with its id and its token; what is missing is none |
| `Krpc.SampleFieldsRead` | src/discoverers/dht/message.rs:549-578 | whatever the fields and their order, a sample reply is read as they say; without an interval it is 30, without a number 0 |
| `Krpc.BuildFindNode` | src/discoverers/dht/message.rs:166-180 | what is sent is never the encoding of the query it stands for, for any arguments |
| `Krpc.FindNodeNeverDecodes` | src/discoverers/dht/message.rs:166-180 | the wrong length prefix of target makes every find_node query decode to something else, or to nothing |
| `Krpc.BuildGetPeersResponse` | src/discoverers/dht/message.rs:374-390 | writes a dictionary closed before its transaction id and type, which follow outside it |
| `Krpc.GetPeersResponseUnreadable` | src/discoverers/dht/message.rs:374-390 | the plain get_peers reply never parses as a reply |
| `NodeProtocol.OnlyAcceptedAnnouncesWrite` | src/crawler/engine.rs:168-340 | a message changes state exactly when it is an announce with an accepted token, and then as stated; every other message leaves everything alone |
| `NodeProtocol.RunKeepsSafe` | src/crawler/engine.rs:168-448 | the safety invariant holds over every run of messages and maintenance |
| `NodeProtocol.AnnounceSafety` | src/crawler/engine.rs:217-316 | over every run from an empty store, each stored peer was last seen when it was announced by a sender with its IP whose endpoint was given a token by an earlier get_peers reply, with at most one rotation between that reply and the announce |
| `NodeProtocol.ListedPeersAreRecent` | src/crawler/engine.rs:217-316 | every peer a reply lists was announced, under a token granted to its sender, at most 1800 s before |
| `NodeProtocol.ReplyCarriesToken` | src/crawler/engine.rs:217-262 | the bytes of a get_peers reply parse to our id and the token of the asking endpoint, and the query changes nothing |
| `NodeProtocol.ReplyCarriesAnswer` | src/crawler/engine.rs:217-262 | the querier reads the stored peers, or else exactly the nearest-8 answer over the routing table provided it is IPv4 |
| `NodeProtocol.AnnounceAfterGetPeers` | src/crawler/engine.rs:217-316 | whoever announces, within 300 s and from the same endpoint, with the token read from the reply is stored under its IP and port, whatever happens in between |
| `NodeAnswers.ThreeSteps` | src/crawler/engine.rs:217-316 | ask, announce with the token read, and for half an hour whoever asks reads the announced address in the reply's bytes, whatever comes in between, while at most 50 peers are fresh when asked for and no announce finds 256 |
| `NodeAnswers.AnnouncedPeerStays` | src/discoverers/dht/store.rs:80-157 | once announced, a peer stays stored for half an hour over every run in which no announce for its infohash finds 256 fresh peers |
| `NodeAnswers.FreshPeersAreListed` | src/crawler/engine.rs:217-262 | the reply's bytes list fresh peers only, and every fresh IPv4 one with a nonzero port when at most 50 are fresh |
| `NodeAnswers.StoredPort` | src/crawler/engine.rs:263-316 | an announce with a nonzero implied_port stores the port it came from, any other the port it names modulo 2^16 |
| `NodeAnswers.AnnouncerIsAdmitted` | src/crawler/engine.rs:295-296 | after an accepted announce the table holds the announcer, seen now and without failures, or the bucket where it belongs is full of live others; no live entry at another address is gone |
| `NodeAnswers.AnnouncerIsListed` | src/crawler/engine.rs:193-316 | an announcer admitted to a table of fewer than eight nodes is read out of the next find_node reply, for any target |
| `NodeAnswers.HeldNodeIsListed` | src/crawler/engine.rs:193-216 | every healthy node of the table is read out of a find_node reply, unless eight are that are at least as near |
| `NodeAnswers.EveryQueryAnswered` | src/crawler/engine.rs:168-340 | every query is answered with our id under its transaction id, an announce whether its token is accepted or not, and reports the infohash it asks for; only a get_peers without infohash and an announce without arguments get no reply |
| `NodeAnswers.SampleAnswer` | src/crawler/engine.rs:317-337 | a sample_infohashes reply reads back as interval 30, the number of stored infohashes and the sampled ones, in order |
| `NodeAnswers.MaintenanceEffect` | src/crawler/engine.rs:430-448 | maintenance keeps exactly the healthy nodes seen in the last hour and the peers of the last half hour, and draws a new secret exactly when the current one is 300 s old |
| `NodeProtocol.TokensFollowMaintenance` | src/crawler/engine.rs:443-448 | over a run the token state depends on the maintenance calls alone |
| `NodeProtocol.FindNodeIgnoresTarget` | src/crawler/engine.rs:193-216 | the find_node query with id and target is answered with the nodes nearest to the zero id |
| `NodeProtocol.FindNodeAnswer` | src/crawler/engine.rs:193-216 | a find_node query with any arguments is answered for its info_hash if it has one of 20 bytes, else for the zero id |
| `NodeProtocol.FindNodeAnswersTargetExactly` | src/crawler/engine.rs:193-216 | the answer is the one for the target, whatever the table, exactly when the target is the zero id; for any other target a table of two nodes is answered wrongly |
| `Crawler.CrawlerEngine.HandleMessage` | src/crawler/engine.rs:168-340 | the in-place handler changes table, store and counters and writes reply bytes exactly as the protocol step says |
| `Crawler.CrawlerEngine.AnswerAnnounce` | src/crawler/engine.rs:263-316 | checks the token, stores, admits and acknowledges as specified |
| `Crawler.CrawlerEngine.AnswerGetPeers` | src/crawler/engine.rs:217-262 | writes the specified reply with a fresh token |
| `Crawler.CrawlerEngine.AnswerFindNode` | src/crawler/engine.rs:193-216 | writes the specified reply in both of its forms |
| `Crawler.CrawlerEngine.AnswerSampleInfohashes` | src/crawler/engine.rs:317-337 | writes the reply for some sample of at most 64 infohashes |
| `Crawler.CrawlerEngine.Receive` | src/crawler/engine.rs:385-411 | publishes an infohash exactly when the filter does not know it; over every run nothing is published twice and the counter counts publications |
| `Crawler.CrawlerEngine.Maintenance` | src/crawler/engine.rs:443-448 | cleans table and store and rotates as the protocol step says |
| `Lookup.DhtDiscoverer.DiscoverPeers` | src/discoverers/dht/client.rs:321-451 | for any network, the rounds made follow the lookup's rules from the table that `init` leaves, the table is what the replies make of it, the stop is one of the four allowed ones, and the peers are distinct, reported, at most limit and as many as there are |
| `Lookup.DhtDiscoverer.Init` | src/discoverers/dht/client.rs:164-199 | the first call inserts every resolved address under the id drawn for it, without the id check; later calls change nothing |
| `Lookup.DhtDiscoverer.Iterate` | src/discoverers/dht/client.rs:336-436 | the loop ends by the measure (closest distance, stalled rounds), which does not use the round limit |
| `Lookup.DhtDiscoverer.AddNode` | src/discoverers/dht/client.rs:222-234 | under BEP 42 only ids that fit their address enter the table |
| `Lookup.DhtDiscoverer.MarkNodeSuccess` | src/discoverers/dht/client.rs:243-250 | touches the entry, or inserts the responder, unchecked, when there is none |
| `Lookup.DhtDiscoverer.MarkNodeFailure` | src/discoverers/dht/client.rs:237-240 | marks the failure |
| `Lookup.DhtDiscoverer.CollectReply` | src/discoverers/dht/client.rs:393-423 | what one finished query changes: peers first, then new nodes not yet asked, then the mark |
| `Lookup.NeverAskedAgain` | src/discoverers/dht/client.rs:336-390 | no address is asked in two different rounds |
| `Lookup.QueriesBounded` | src/discoverers/dht/client.rs:336-390 | the queries sent are at most the concurrency times the rounds |
| `Lookup.TwoRoundsImprove` | src/discoverers/dht/client.rs:350-365 | of any two consecutive rounds at least one gets strictly closer |
| `Lookup.RoundsAreFinite` | src/discoverers/dht/client.rs:350-365 | without the round limit the number of rounds is bounded, for any network |
| `Lookup.ReportedByAskedNode` | src/discoverers/dht/client.rs:369-407 | if every query reads a reply of the node it asked, every peer found was reported by a node the lookup asked |
| `Lookup.PeersComeFromReplies` | src/discoverers/dht/client.rs:254-284 | the peers found are exactly those in the datagrams that the queries of the lookup took for their replies, whoever sent them |
| `Lookup.PlannedAreNearest` | src/discoverers/dht/client.rs:338-347 | each round asks the nearest nodes not asked before, as many as the concurrency allows, out of an exact nearest-20 answer over its table |
| `LookupTables.HeldNodeIsAsked` | src/discoverers/dht/client.rs:338-347 | a healthy unasked node of the table is asked next, unless the round is full of nodes at least as near or twenty are |
| `LookupTables.ReportedNodesLand` | src/discoverers/dht/client.rs:409-413 | every reported unasked node whose id may come in is held afterwards under its address, or its own insertion met a bucket full of live others; surely held when table and reply together fit one bucket |
| `LookupTables.OnlyLetInComeIn` | src/discoverers/dht/client.rs:409-413 | nothing comes in with a reply but such nodes, so none that was asked already |
| `LookupTables.ReplyEffect` | src/discoverers/dht/client.rs:393-423 | a failed query costs the node asked one failure, a lost one nothing; an answer refreshes the node asked if it is still held, else inserts it under the id it reports |
| `LookupTables.BootstrapNodesLand` | src/discoverers/dht/client.rs:164-199 | every resolved bootstrap address is held after `init`, or its own insertion met a bucket full of live others |
| `LookupTables.ClosestIsMinimum` | src/discoverers/dht/client.rs:350-365 | the closest distance is that of the nearest node that led a round |
| `LookupTables.StallsAreTrailing` | src/discoverers/dht/client.rs:350-365 | the stalled rounds are exactly the last ones without an improvement |
| `Fitness.SuccessFit` | src/discoverers/dht/client.rs:243-250 | in any table, a successful answer adds an unfit (id, address) pair exactly when the responder is not held, the id it reports does not fit its address and the insertion finds room |
| `Fitness.HeldEntryKeepsId` | src/discoverers/dht/client.rs:185-190 | a held entry, such as a bootstrap address under its random id, keeps that id however often its node answers and whatever ids it reports |
| `Fitness.ReplyFit` | src/discoverers/dht/client.rs:393-423 | under BEP 42, in any table, a finished query with all nodes it reported adds an unfit pair exactly when such a responder slips in |
| `Fitness.LookupFit` | src/discoverers/dht/client.rs:321-451 | under BEP 42, from any table, every table on the way of a lookup is free of new unfit pairs exactly when no responder slips in anywhere |
| `Fitness.HonestLookupKeepsFit` | src/discoverers/dht/client.rs:321-451 | from any table, a lookup ends with no unfit pair but those it started with, whatever nodes are reported, if every sender reports an id that fits its own address and every query reads the reply of the node it asked |
| `Fitness.FirstLookupFit` | src/discoverers/dht/client.rs:164-199 | so after the first lookup only bootstrap addresses under the ids drawn for them are unfit, besides what was unfit before |
| `UnfitLookup.SwappedRepliesUnfit` | src/discoverers/dht/client.rs:254-284 | two honest nodes asked in one round whose replies are swapped: from a fit full bucket the lookup ends with one node's id at the other's address |
| `UnfitLookup.LookupAdmitsUnfitId` | src/discoverers/dht/client.rs:369-423 | such a lookup exists: every sender is honest and every id fits at the start, and an unfit id is in the table at the end |
| `Bloom.BloomFilter.Insert` | src/bloom.rs:68-78 | sets exactly the probes of the item in the word array |
| `Bloom.BloomFilter.Contains` | src/bloom.rs:83-95 | true exactly when all probes are set |
| `Bloom.BloomFilter.InsertAndCheck` | src/bloom.rs:98-105 | new exactly when some probe was unset, and then inserted |
| `Bloom.BloomFilter.Clear` | src/bloom.rs:134-137 | no bit is set |
| `Bloom.BloomFilter.Merge` | src/bloom.rs:140-148 | the union of the bits when the parameters agree, else nothing |
| `Bloom.ProbeIsDoubleHash` | src/bloom.rs:68-78 | the i-th probe is h1 + i * h2 in 64 bits, modulo the number of bits |
| `Bloom.BitsAreProbesOfItems` | src/bloom.rs:68-148 | after any history of inserts, merges and clears the bits are exactly the probes of the items since the last clear; a merge gives the bits of both item sequences |
| `Bloom.NoFalseNegatives` | src/bloom.rs:68-148 | whatever was inserted since the last clear is found |
| `Bloom.OrderDoesNotMatter` | src/bloom.rs:68-148 | histories with the same items have the same bits |
| `Bloom.PublishedAtMostOnce` | src/bloom.rs:98-105 | a stream through insert_and_check yields each item at most once, and only items of the stream |
| `Peers.NewPeer` | src/types.rs:46-60 | a new peer is within the failure budget and unexpired |
| `Peers.ScoreAtMost320` | src/types.rs:63-133 | no peer with at most as many successes as attempts scores above 320 |
| `Peers.BestPossiblePeer` | src/types.rs:63-133 | 320 is reached exactly by an always-connected, recently active IPv4 tracker peer on a client port |
| `Peers.LeastPossiblePeer` | src/types.rs:63-133 | no peer scores below 50, and 50 is scored exactly by a hand-entered IPv6 peer on no client port, hardly ever connected and not active in the last 1800 s |
| `Peers.SourcesRank` | src/types.rs:123-133 | all else equal, peers rank tracker, super tracker, local, web seed, DHT, exchange, manual, by 0, 5, 10, 15, 20, 40, 50 |
| `Peers.SuccessNeverHurts` | src/types.rs:78-82 | more successes out of as many attempts never lower a score |
| `Peers.OrdinaryPeer` | src/types.rs:63-94 | an IPv6 DHT peer on port 51413 with one success in three, active ten minutes ago, scores 153, and 203 over IPv4 |
| `Peers.ActivityNeverHurts` | src/types.rs:84-92 | later activity never lowers a score |
| `Peers.MergeWithinBudget` | src/cache.rs:72-77 | merging two records by maximum stays within the failure budget |
| `PeerCache.PeerCache.constructor` | src/cache.rs:35-43 | the per-infohash cap is a tenth of the global cap, at least 100 |
| `PeerCache.PeerCache.GetPeers` | src/cache.rs:46-64 | the best-scored unexpired peers, best first |
| `PeerCache.PeerCache.AddPeers` | src/cache.rs:67-104 | merge, expire, keep the best up to the per-infohash cap, then evict globally; both caps, the address keys and the failure budget hold after every call |
| `PeerCache.PeerCache.EvictGlobalLru` | src/cache.rs:107-135 | over the cap exactly the cap remains and no evicted peer was more recently active than a survivor |
| `PeerCache.PeerCache.MarkConnectionSuccess` | src/cache.rs:138-147 | counts, refreshes and rescores in place; caps and budget hold |
| `PeerCache.PeerCache.MarkConnectionFailure` | src/cache.rs:150-166 | counts and rescores, and drops the peer at five failures beyond its successes; caps and budget hold |
| `PeerCache.PeerCache.CleanupExpired` | src/cache.rs:169-174 | keeps exactly the unexpired peers and no empty group |
| `PeerCache.CleaningKeepsFresh` | src/cache.rs:169-174 | the cleanup keeps exactly the peers active in the last 24 hours, unchanged, and the groups that have one |
| `CacheMarks.HeldExactly` | src/cache.rs:138-166 | over any run of marks a peer is held exactly when it met fewer failures than its budget of five had left, whatever the successes in between; while held its counters are exact and it counts as active at its last success |
| `CacheMarks.FifthFailureDrops` | src/cache.rs:150-166 | four failures, a success and one more failure drop a new peer |
| `PeerCache.MergeTakesMaximum` | src/cache.rs:67-80 | merging loses no count, makes reported peers that were known active now and leaves the others alone |
| `PeerCache.MergeInventsNoCount` | src/cache.rs:67-80 | every count after merging is that of the record before or of a report, so their maximum |
| `PeerCache.MergeRescores` | src/cache.rs:67-80 | a known peer that is reported is scored anew under its own source |
| `PeerCache.NewPeersAreTaken` | src/cache.rs:78-80 | an unknown peer is filed as reported, when every address is reported once |
| `PeerCache.MergeKeepsBudget` | src/cache.rs:67-80 | merging keeps the failure budget |
| `PeerCache.DroppingKeepsBest` | src/cache.rs:85-97 | dropping the lowest-scored leaves exactly the cap, and nothing dropped outscores anything kept |
| `PeerCache.EvictingKeepsRecent` | src/cache.rs:114-134 | evicting in order of activity leaves exactly the most recent ones and no empty group |
| `PeerCache.AddKeepsInvariant` | src/cache.rs:67-135 | caps, keys and failure budget survive an addition |
| `Aggregator.PeerDiscoveryAggregator.DiscoverPeers` | src/aggregator.rs:108-212 | the result is the ranked selection over cached then found peers, with a clock reading of its own for each score; it is added to the cache; within the failure budget every score is at most 320 |
| `Aggregator.DedupIsFirstCopies` | src/aggregator.rs:169-170 | sorting by address and dropping equal neighbours keeps exactly the earliest copy of each address |
| `Aggregator.PipelineIsRanked` | src/aggregator.rs:169-181 | distinct addresses in descending score, each the earliest copy rescored, as many as fit, and no address left out outranks one listed |
| `Aggregator.AddrKeyInjective` | src/aggregator.rs:169-170 | the order of socket addresses separates different addresses |
| `Aggregator.AddrOrder` | src/aggregator.rs:108-212 | the order is IPv4 before IPv6, then by IP, then by port |
| `Aggregator.AllFoundAre` | src/aggregator.rs:108-212 | what is ranked beside the cached peers is exactly what the discoverers that did not fail returned |
| `Aggregator.AllFoundInOrder` | src/aggregator.rs:108-212 | each answer comes whole, after those before it |
| `CacheRefresh.AddedPeersAreRefreshed` | src/cache.rs:67-83 | adding back a peer that is cached makes it active now, whatever its own age |
| `CacheRefresh.PeersNeverExpire` | src/aggregator.rs:108-184 | for lookups alone, a cached group within its limits is kept whole and made active by every lookup exactly when each begins within 24 hours of the cache update before it, though no discoverer reports its peers again |
| `CacheRefresh.GroupLivesExactly` | src/aggregator.rs:108-184 | over any run of such lookups, cleanups, connection marks and additions for other infohashes that the limits allow, the group lives on whole exactly as long as every lookup and cleanup comes within 24 hours of each peer's last refresh |
| `CacheRefresh.UnreportedPeerOutlivesADay` | src/cache.rs:67-83 | a peer reported once at hour 0 and looked up at hours 20 and 40 is cached at hour 40, active just then |
| `UdpTracker.UdpTrackerServer.HandlePacket` | src/data_plane/udp_tracker.rs:135-173 | connections and announced peers take exactly the step the packet calls for, and every verdict gets its reply, error texts included |
| `UdpTracker.UdpTrackerServer.HandleConnect` | src/data_plane/udp_tracker.rs:176-211 | records the fresh id for the sender and replies with it |
| `UdpTracker.UdpTrackerServer.HandleAnnounce` | src/data_plane/udp_tracker.rs:214-313 | stores the peer and replies with a peer list without duplicates or the requester, and counts that sum to the stored peers |
| `UdpTracker.UdpTrackerServer.PruneConnections` | src/data_plane/udp_tracker.rs:87-98 | a connection is kept, unchanged, exactly when it is younger than 120 s |
| `UdpTracker.BuildConnectRequest` | src/discoverers/tracker/udp.rs:252-258 | writes the 16-byte connect layout |
| `UdpTracker.BuildAnnounceRequest` | src/discoverers/tracker/udp.rs:261-283 | writes the 98-byte announce layout |
| `UdpTracker.ReadAnnounceReply` | src/discoverers/tracker/udp.rs:152-192 | decodes a reply, with each of its error cases |
| `UdpTracker.ConnectRoundTrip` | src/discoverers/tracker/udp.rs:99-135 | the server recognises a connect request, and the client reads back the id the server stored |
| `UdpTracker.AnnounceFieldsRoundTrip` | src/data_plane/udp_tracker.rs:242-263 | the server reads every field of an announce packet as written, for all fields, events and signed counts |
| `UdpTracker.AnnounceAdmitted` | src/data_plane/udp_tracker.rs:231-263 | an announce of this client is admitted exactly when its id is held for the client's IP, and otherwise ignored or refused as stated |
| `TrackerAnswers.PacketsAreJudged` | src/data_plane/udp_tracker.rs:135-239 | a connect is taken under the protocol id alone, an announce with 98 bytes and an id held for the sender's IP; every other packet is ignored or refused with its error |
| `TrackerAnswers.ReplyListsWanted` | src/data_plane/udp_tracker.rs:281-287 | a reply lists the first peers offered, as many as wanted if that is 0 to 100 and there are so many, else all |
| `TrackerAnswers.AnnounceIsRecorded` | src/data_plane/udp_tracker.rs:242-279 | an admitted announce is recorded with every field it carries, at the sender's IP and announced port, as seen now; one that stops is recorded no more |
| `TrackerAnswers.OnlyOwnRepliesAreTaken` | src/discoverers/tracker/udp.rs:99-193 | the client takes an id or a peer list only from a long enough reply to its own transaction with the action it asked for |
| `TrackerRuns.IdHeldExactly` | src/data_plane/udp_tracker.rs:87-98 | over every run an id last drawn at t is still held exactly when every cleanup since came before t + 120 s |
| `TrackerRuns.IdGoneEventually` | src/data_plane/udp_tracker.rs:87-98 | with a cleanup in the last g, an id is gone from t + 120 s + g on |
| `TrackerRuns.AdmittedExactly` | src/data_plane/udp_tracker.rs:231-240 | after any run an announce under an id drawn at t is admitted exactly when it comes from the IP it was issued to and every cleanup since came before t + 120 s, whatever the time of the announce |
| `TrackerRuns.OverAgeIdAdmitted` | src/data_plane/udp_tracker.rs:231-240 | an announce under an id 121 s old, with no cleanup since, is admitted and stored |
| `TrackerRuns.OnlyIdHoldersAnnounce` | src/data_plane/udp_tracker.rs:176-313 | over every run from the empty tracker, each record was stored by the HTTP end or announced over UDP from its own IP under an id that an earlier connect reply had issued to that IP |
| `TrackerRuns.SessionAnnounces` | src/discoverers/tracker/udp.rs:45-80 | connect, then any packets and any cleanups before the id is 120 s old, then announce: the client is recorded as a seeder at its IP and port |
| `UdpTracker.ReplyRoundTrip` | src/discoverers/tracker/udp.rs:138-193 | from a reply of at most 2048 bytes the client reads exactly the server's IPv4 peers with nonzero port, in order; interval and counts stand at their places |
| `UdpTracker.ErrorIsRefused` | src/data_plane/udp_tracker.rs:316-322 | an error reply is never read as a peer list |
| `UdpTracker.SendWithRetry` | src/discoverers/tracker/udp.rs:198-249 | at most eight sends, each wait exactly as long as the doublings so far and the overall limit allow, and exactly how it ends: the first datagram with the right transaction id, a send that fails, the overall time over, or eight attempts in vain |
| `UdpTracker.WaitsDouble` | src/discoverers/tracker/udp.rs:204-249 | while nothing whole arrives the waits are 15 * 2^i seconds, cut to what is left of the overall time; a datagram with another transaction id does not double the next wait, and no wait is ever longer |
| `TrackerState.SuperTrackerState.StorePeer` | src/data_plane/http_tracker.rs:151-176 | a stopped peer leaves, any other joins or refreshes |
| `TrackerState.SuperTrackerState.GetPeersForInfohash` | src/data_plane/http_tracker.rs:179-190 | everybody in the group but the requester, once each |
| `TrackerState.SuperTrackerState.CountSeedersLeechers` | src/data_plane/http_tracker.rs:193-209 | the loop counts exactly the peers with nothing left and the others |
| `TrackerState.SuperTrackerState.CollectPeers` | src/data_plane/http_tracker.rs:287-300 | announced peers first, then cached ones, nobody twice, never the requester, nobody left out while there is room |
| `TrackerState.SuperTrackerState.HandleUdpAnnounce` | src/data_plane/http_tracker.rs:251-304 | stores under the sender's IP and announced port; seeders plus leechers equals the stored peers |
| `TrackerState.SuperTrackerState.Cleanup` | src/data_plane/http_tracker.rs:212-234 | a record is kept, unchanged, exactly when it is fresh, and no group is left empty |
| `TrackerState.AnnouncedPeersAreOffered` | src/data_plane/http_tracker.rs:251-304 | whoever announces is offered to others while there is room, and whoever stops is offered no more unless cached |
| `TrackerState.AnnounceEffect` | src/data_plane/http_tracker.rs:151-176 | an announce makes exactly one record, that of its address in its group; every other record stays |
| `TrackerReply.ToBencodeCompact` | src/types.rs:264-366 | the bytes, written with the counted key literals of the source, are the encoding of the intended dictionary in every combination of optional fields |
| `TrackerReply.ReplyRoundTrip` | src/types.rs:264-366 | decoding a reply gives back every field, the reachable IPv4 peers and the packed IPv6 peers, or the failure reason alone |
| `RateLimit.AuthState.CheckRateLimit` | src/auth.rs:105-134 | admits and updates the client's window in place as specified |
| `RateLimit.WindowAdmitsFirst` | src/auth.rs:119-133 | each window admits exactly its first quota of requests |
| `RateLimit.IntervalBound` | src/auth.rs:119-133 | no closed interval of the window's length admits more than twice the quota of a client |
| `RateLimit.NewWindowAdmits` | src/auth.rs:114-133 | a client that is new or whose window is over starts a new window with its request and is admitted |
| `RateLimit.SomeoneIsAdmitted` | src/auth.rs:114-133 | of a client's requests that reach beyond its running window one is admitted, so nobody is refused for ever |
| `RateLimit.NoRateNoLimit` | src/auth.rs:105-110 | without a rate every request is admitted |
| `RateLimit.QuotaWithoutOverflow` | src/auth.rs:111-112 | without overflow the quota is rate times window |
| `RateLimit.ClientsAreIsolated` | src/auth.rs:114-133 | one client's traffic never changes another's outcomes |
| `GlobalStore.GlobalNodeStore.Insert` | src/discoverers/dht/global_store.rs:86-104 | updates in place, keeping the first sighting of a known address |
| `GlobalStore.GlobalNodeStore.MarkSuccess` | src/discoverers/dht/global_store.rs:107-113 | the node is healthy and retained for the next TTL whatever its failures were; its id, its first sighting and every other node stay |
| `GlobalStore.GlobalNodeStore.MarkFailure` | src/discoverers/dht/global_store.rs:116-120 | one more failure at that address only, saturating |
| `GlobalStore.GlobalNodeStore.EvictExpired` | src/discoverers/dht/global_store.rs:160-166 | a node is kept, unchanged, exactly when it is healthy and was seen within the TTL, the result counts the others, and a second cleanup at once evicts nobody |
| `GlobalStore.GlobalNodeStore.FindClosest` | src/discoverers/dht/global_store.rs:128-143 | the same exact nearest query as the routing table |
| `GlobalStore.AnswerIgnoresOrder` | src/discoverers/dht/global_store.rs:128-143 | the ids answered do not depend on the order the map is listed in |
| `GlobalStore.MultiNodeManager.SelectClosestNode` | src/discoverers/dht/global_store.rs:232-244 | the unique id of minimal distance among the virtual nodes |
| `Pex.BuildHandshake` | src/discoverers/pex/message.rs:32-40 | writes the handshake layout with empty reserved bytes |
| `Pex.HandshakeRoundTrip` | src/discoverers/pex/message.rs:32-68 | parsing undoes writing, whatever follows |
| `Pex.HandshakeLayout` | src/discoverers/pex/message.rs:32-40 | name, reserved bytes, infohash and peer id stand at bytes 1, 20, 28 and 48 |
| `Pex.ParsedHandshakeIsThere` | src/discoverers/pex/message.rs:43-68 | whatever is accepted begins with the handshake it is read as |
| `Pex.ExtensionBit` | src/discoverers/pex/message.rs:38-73 | an accepted handshake announces the extension protocol exactly when bit 0x10 of its byte 25 is set |
| `Pex.OwnHandshakeLacksExtension` | src/discoverers/pex/message.rs:32-73 | the handshake built here does not announce the extension protocol |
| `Pex.BuildExtended` | src/discoverers/pex/message.rs:86-94 | writes length, type, extension id and payload |
| `Pex.ExtendedRoundTrip` | src/discoverers/pex/message.rs:86-121 | the stream reader returns the message as written and the bytes after it |
| `Pex.PartialFrameWaits` | src/discoverers/pex/message.rs:99-121 | nothing is read of a message before it has arrived whole |
| `Pex.KeepAliveIsRead` | src/discoverers/pex/message.rs:99-121 | a frame of length 0 reads as a keep-alive |
| `Pex.BuildUtPex` | src/discoverers/pex/message.rs:217-245 | writes the encoding of the intended dictionary |
| `Pex.UtPexRoundTrip` | src/discoverers/pex/message.rs:217-282 | a ut_pex message parses to the reachable peers and one zero flag per peer that went in |
| `Pex.UtPexLossless` | src/discoverers/pex/message.rs:217-282 | parsing undoes building exactly on IPv4 peers with nonzero port; otherwise peers go missing and flags outnumber them |
| `Pex.BuildExtensionHandshake` | src/discoverers/pex/message.rs:138-151 | what is sent decodes to nothing, for any peer id and port |
| `Pex.ExtensionHandshakeNeverDecodes` | src/discoverers/pex/message.rs:138-151 | the counted 11-byte name swallows the end of its dictionary, so the request never decodes |

## Left out

- Sockets, name resolution, timers, HTTP routing, the WebSocket agent, address mapping, files, configuration, metrics and logging: input and output.
- Interleavings of locked sections: every method is one atomic step.
- SHA-1, the standard hasher and the random generator: unknown functions and arbitrary inputs.
- Floating point: the Bloom filter's sizing and false-positive estimate and all moving averages; the success rate in a score is its integer floor.
- A prefix-ordered table with one bucket per address, and a cached count equal to the true one: the code does not give these.
- The resolution of bootstrap host names: `init` is given the addresses it yields and the random ids drawn for them.
- Service resolver, tracker circuit breaker, ban filter, health checks, policy, multicast discovery and web seeds: small branches.
- The HTTP announce and scrape front end: it stores and collects peers with the members of `TrackerState`; its query parsing is not modelled.
- The DHT discoverer's own announce, `build_error_response`, and the reader of extension handshakes: they repeat shapes that are modelled.
- Events other than published infohashes, per-source statistics and durations.
- Changing the configuration of the rate limiter or the tracker while it runs.
- Bencode.DecodeSound: holds of the reference decoder alone, which refuses the numbers with leading zeros that a library decoder may take.
- Bencode.RoundTrip: the decoder stands for the library the code calls; it reads the item at the front of the data, accepts only canonical decimal numbers, puts no 64-bit bound on integers, and of repeated keys the last counts.
- Tokens.TokenDiesAtSecondRotation: assumes that the digest does not collide on the secrets concerned, which the code's 8-byte truncation makes likely rather than certain.
- NodeProtocol.AnnounceSafety: assumes that tokens are not guessed, that drawn secrets are new and that the digest does not collide between tokens given out and the two tokens valid for the sender; any token given out may be replayed by anyone.
- Peers.ScoreAtMost320: connection counters are unbounded numbers, so their 32-bit overflow is not modelled.
- PeerCache.PeerCache.AddPeers: reads the clock once for a whole addition, where the code reads it for each merged peer and each expiry test.
- UdpTracker.ReplyRoundTrip: states replies that fit the client's 2048-byte buffer; a longer datagram is cut by the receiver.
- UdpTracker.SendWithRetry: the network's answers and clock readings are given functions of the attempt.
- PeerStore.DhtStore.SampleInfohashes: says which samples are possible, not how likely each is.
- Tokens.TokenDeadEventually: takes the gaps between the calls of `maybe_rotate` as given; `CrawlTimer.TokenDeadUnderTraffic` derives them from the crawl loop's traffic.
- TrackerRuns.OnlyIdHoldersAnnounce: says who announced, not when ids are redrawn; a drawn id that repeats a held one replaces it, as in the code.
