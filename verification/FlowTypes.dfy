/** The structures of stats.h, flow.h and the uthash handles embedded in each flow. */
module FlowTypes {

  type uint16 = x: int | 0 <= x < 0x1_0000
  type uint32 = x: int | 0 <= x < 0x1_0000_0000

  /** flow_key_t: the 5-tuple, every field in network byte order. */
  datatype FlowKey = FlowKey(srcIp: uint32, dstIp: uint32, srcPort: uint16, dstPort: uint16, protocol: nat)

  /** The hash function is any deterministic function of the key. */
  type Hash = FlowKey -> nat

  /** struct timeval. */
  datatype Timeval = Timeval(sec: int, usec: int)

  datatype Direction = Outbound | Inbound | Lateral | Unknown

  /** UT_hash_bucket. */
  datatype Bucket = Bucket(hhHead: Flow?, count: nat, expandMult: nat)

  /** flow_t: the record of one microflow, with its UT_hash_handle embedded. */
  class Flow {
    const key: FlowKey

    var direction: Direction
    var packetCount: uint32
    var byteCount: uint32
    var minPacketSize: uint16
    var maxPacketSize: uint16
    var startTime: Timeval
    var lastSeen: Timeval
    var totalIatUsec: int
    var synCount: uint32
    var finCount: uint32
    var rstCount: uint32
    var ackCount: uint32

    var tbl: Table?
    var prev: Flow?
    var next: Flow?
    var hhPrev: Flow?
    var hhNext: Flow?
    var hashv: nat

    /** Set when the node is given back to the allocator. */
    ghost var freed: bool

    /** flow_create: calloc leaves every counter zero and every pointer null. */
    constructor (key: FlowKey)
      ensures this.key == key && !freed
      ensures direction == Outbound && packetCount == byteCount == minPacketSize == maxPacketSize == 0
      ensures startTime == lastSeen == Timeval(0, 0) && totalIatUsec == 0
      ensures synCount == finCount == rstCount == ackCount == 0
    {
      this.key := key;
      direction, packetCount, byteCount, minPacketSize, maxPacketSize := Outbound, 0, 0, 0, 0;
      startTime, lastSeen, totalIatUsec := Timeval(0, 0), Timeval(0, 0), 0;
      synCount, finCount, rstCount, ackCount := 0, 0, 0, 0;
      tbl, prev, next, hhPrev, hhNext, hashv := null, null, null, null, null, 0;
      freed := false;
    }
  }

  /** UT_hash_table. The ghost model is what the pointers are proved to represent. */
  class Table {
    var buckets: array<Bucket>
    var numBuckets: nat
    var log2NumBuckets: nat
    var numItems: nat
    var tail: Flow
    var idealChainMaxlen: nat
    var nonidealItems: nat
    var ineffExpands: nat
    var noexpand: bool

    ghost var model: Model
    ghost var freed: bool

    constructor (buckets: array<Bucket>, tail: Flow)
      ensures this.buckets == buckets && this.tail == tail && !freed
    {
      this.buckets, this.tail := buckets, tail;
      freed := false;
    }
  }

  /** What a table holds: its items in application order, its chains from the head of each bucket on,
      the growth counters, and one entry for each doubling in its life: whether that doubling left more
      than half the items beyond the ideal chain length. A NULL head is Absent. */
  datatype Model =
    | Absent
    | Tbl(order: seq<Flow>, chains: seq<seq<Flow>>, mults: seq<nat>, log2: nat,
          ideal: nat, nonideal: nat, ineff: nat, noexpand: bool, expansions: seq<bool>)
}
