/** The peer address manager as a state machine on values: the fields of `AddrManImpl`, the small
    updates its methods are made of, and the invariant that `CheckAddrman` tests at run time. */
module AddrManSpec {
  import opened Options

  type Pos = n: nat | 0 < n witness 1

  /** The networks an address can belong to. */
  datatype Network = Unroutable | Ipv4 | Ipv6 | Onion | I2p | Cjdns | Internal

  datatype NetAddr = NetAddr(net: Network, bytes: seq<int>)
  datatype Service = Service(ip: NetAddr, port: int)

  /** A gossiped address: an endpoint, the time it was last seen and its service bits. */
  datatype Address = Address(svc: Service, time: int, services: set<nat>)

  datatype AddrInfo = AddrInfo(
    addr: Service, source: NetAddr, time: int, services: set<nat>,
    lastTry: int, lastCountAttempt: int, lastSuccess: int, attempts: int,
    refCount: int, inTried: bool, randomPos: int)

  /** The internal number of an entry. */
  datatype NodeId = NodeId(n: int)

  datatype Slot = Slot(bucket: int, pos: int)

  datatype Count = Count(nNew: int, nTried: int)

  /** Table sizes, the keyed hashes (uninterpreted), and what an address is classified as. */
  datatype Params = Params(
    newBuckets: Pos, triedBuckets: Pos, bucketSize: Pos,
    newHash: (int, Service, NetAddr) -> nat,
    triedHash: (int, Service) -> nat,
    posHash: (int, bool, int, Service) -> nat,
    network: Service -> Network,
    netClass: Service -> Network,
    valid: Service -> bool,
    routable: Service -> bool,
    asmapChecksum: int)

  const NEW_BUCKETS_PER_ADDRESS := 8
  const TRIED_COLLISION_SIZE := 10

  const MINUTE := 60
  const HOUR := 3600
  const DAY := 86400
  const HORIZON := 30 * DAY
  const RETRIES := 3
  const MAX_FAILURES := 10
  const MIN_FAIL := 7 * DAY
  const REPLACEMENT := 4 * HOUR
  const TEST_WINDOW := 40 * MINUTE

  datatype State = State(
    key: int, idCount: int,
    info: map<NodeId, AddrInfo>, ids: map<Service, NodeId>, random: seq<NodeId>,
    nTried: int, triedTab: map<Slot, NodeId>,
    nNew: int, newTab: map<Slot, NodeId>,
    lastGood: int, collisions: set<NodeId>,
    counts: map<Network, Count>)

  // ---------------------------------------------------------------- placement

  function NewBucket(p: Params, key: int, svc: Service, src: NetAddr): int {
    p.newHash(key, svc, src) % p.newBuckets
  }

  function TriedBucket(p: Params, key: int, svc: Service): int {
    p.triedHash(key, svc) % p.triedBuckets
  }

  function BucketPos(p: Params, key: int, inNew: bool, bucket: int, svc: Service): int {
    p.posHash(key, inNew, bucket, svc) % p.bucketSize
  }

  function NewSlotIn(p: Params, key: int, svc: Service, bucket: int): Slot {
    Slot(bucket, BucketPos(p, key, true, bucket, svc))
  }

  /** The slot of the new table an address belongs to when heard from `src`. */
  function NewSlot(p: Params, key: int, svc: Service, src: NetAddr): Slot {
    NewSlotIn(p, key, svc, NewBucket(p, key, svc, src))
  }

  /** The one slot of the tried table an address can occupy. */
  function TriedSlot(p: Params, key: int, svc: Service): Slot {
    var b := TriedBucket(p, key, svc);
    Slot(b, BucketPos(p, key, false, b, svc))
  }

  predicate IsTerrible(i: AddrInfo, now: int) {
    if now - i.lastTry <= MINUTE then false
    else if i.time > now + 10 * MINUTE then true
    else if now - i.time > HORIZON then true
    else if i.lastSuccess == 0 && i.attempts >= RETRIES then true
    else now - i.lastSuccess > MIN_FAIL && i.attempts >= MAX_FAILURES
  }

  // ---------------------------------------------------------------- invariant

  function SlotsOf(tab: map<Slot, NodeId>, id: NodeId): set<Slot> {
    set sl | sl in tab && tab[sl] == id
  }

  /** Ids that count as new (all of them, or those of one network); `uncounted` ids are in transit. */
  function NewIds(p: Params, info: map<NodeId, AddrInfo>, uncounted: set<NodeId>, net: Option<Network>): set<NodeId> {
    set id | id in info && !info[id].inTried && id !in uncounted && InNet(p, info[id], net)
  }

  function TriedIds(p: Params, info: map<NodeId, AddrInfo>, net: Option<Network>): set<NodeId> {
    set id | id in info && info[id].inTried && InNet(p, info[id], net)
  }

  predicate InNet(p: Params, i: AddrInfo, net: Option<Network>) {
    net.None? || p.network(i.addr) == net.value
  }

  function CountOf(counts: map<Network, Count>, net: Network): Count {
    if net in counts then counts[net] else Count(0, 0)
  }

  /** `random` and `randomPos` are inverse to each other. */
  ghost predicate RandomOk(info: map<NodeId, AddrInfo>, random: seq<NodeId>) {
    && (forall id :: id in info ==>
          0 <= info[id].randomPos < |random| && random[info[id].randomPos] == id)
    && (forall k :: 0 <= k < |random| ==> random[k] in info && info[random[k]].randomPos == k)
  }

  /** `ids` is the inverse of "the address of an id"; every id was handed out before. */
  ghost predicate IdsOk(info: map<NodeId, AddrInfo>, ids: map<Service, NodeId>, idCount: int) {
    && 0 <= idCount
    && (forall id :: id in info ==> 0 <= id.n < idCount && info[id].addr in ids && ids[info[id].addr] == id)
    && (forall a :: a in ids ==> ids[a] in info && info[ids[a]].addr == a)
  }

  ghost predicate TriedOk(p: Params, key: int, info: map<NodeId, AddrInfo>, triedTab: map<Slot, NodeId>) {
    && (forall sl :: sl in triedTab ==>
          triedTab[sl] in info && info[triedTab[sl]].inTried && sl == TriedSlot(p, key, info[triedTab[sl]].addr))
    && (forall id :: id in info && info[id].inTried ==>
          && info[id].refCount == 0
          && TriedSlot(p, key, info[id].addr) in triedTab
          && triedTab[TriedSlot(p, key, info[id].addr)] == id)
  }

  /** Each new entry sits in exactly `refCount` slots, each at its own position of the bucket.
      Ids in `loose` are in no slot: they have just been created or are about to be moved. */
  ghost predicate NewOk(p: Params, key: int, info: map<NodeId, AddrInfo>, newTab: map<Slot, NodeId>,
                        loose: set<NodeId>) {
    && (forall sl :: sl in newTab ==>
          && newTab[sl] in info
          && !info[newTab[sl]].inTried
          && newTab[sl] !in loose
          && 0 <= sl.bucket < p.newBuckets
          && sl == NewSlotIn(p, key, info[newTab[sl]].addr, sl.bucket))
    && (forall id :: id in info && !info[id].inTried ==>
          && info[id].refCount == |SlotsOf(newTab, id)| <= NEW_BUCKETS_PER_ADDRESS
          && (info[id].refCount == 0 <==> id in loose))
  }

  ghost predicate CountsOk(p: Params, info: map<NodeId, AddrInfo>, nNew: int, nTried: int,
                           counts: map<Network, Count>, uncounted: set<NodeId>) {
    && nNew == |NewIds(p, info, uncounted, None)|
    && nTried == |TriedIds(p, info, None)|
    && (forall net ::
          CountOf(counts, net) == Count(|NewIds(p, info, uncounted, Some(net))|, |TriedIds(p, info, Some(net))|))
  }

  ghost predicate LooseOk(info: map<NodeId, AddrInfo>, zero: set<NodeId>, uncounted: set<NodeId>) {
    && (forall id :: id in zero ==> id in info && !info[id].inTried && id !in uncounted)
    && (forall id :: id in uncounted ==> id in info && !info[id].inTried)
  }

  /** The invariant with entries in transit: ids in `zero` are counted as new but hold no slot, ids
      in `uncounted` hold no slot and are counted nowhere. Between operations both are empty. */
  ghost predicate Inv(p: Params, s: State, zero: set<NodeId>, uncounted: set<NodeId>) {
    && RandomOk(s.info, s.random)
    && IdsOk(s.info, s.ids, s.idCount)
    && TriedOk(p, s.key, s.info, s.triedTab)
    && NewOk(p, s.key, s.info, s.newTab, zero + uncounted)
    && CountsOk(p, s.info, s.nNew, s.nTried, s.counts, uncounted)
    && LooseOk(s.info, zero, uncounted)
  }
}
