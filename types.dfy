/** The records the statistics accessors fill in (devIocStats.h). `unsigned long` is a
    target-dependent width, so fields are natural numbers here and each target module
    states the modulus its arithmetic wraps at. */
module IocStatsTypes {

  /** MAX_NFS_STATS: capacity of every per-mount table. */
  const MAX_NFS_STATS: nat := 8
  /** sizeof(nfsStat.mount) and sizeof(nfsStat.ip). */
  const MOUNT_LEN: nat := 128
  const IP_LEN: nat := 32

  /** ipStatInfo. */
  datatype IpStatInfo = IpStatInfo(
    ipRecv: nat, ipErr: nat,
    udpRecv: nat, udpSend: nat, udpErr: nat,
    tcpRecv: nat, tcpSend: nat, tcpErr: nat)

  /** The numeric fields of nfsStat. */
  datatype NfsCounters = NfsCounters(
    port: nat, uid: nat, gid: nat, liveNodes: nat,
    rpcRequests: nat, rpcRetries: nat, rpcErrors: nat, rpcTimeouts: nat,
    retryPeriodMS: nat)

  /** nfsStatInfo, held column by column: entry `i` of `mounts[]` is `counters[i]` together
      with the characters `mount[i * MOUNT_LEN ..][..MOUNT_LEN]` and `ip[i * IP_LEN ..][..IP_LEN]`. */
  class NfsStatInfo {
    var numMounts: int
    const counters: array<NfsCounters>
    const mount: array<char>
    const ip: array<char>

    ghost predicate Valid()
      reads this
    {
      && counters.Length == MAX_NFS_STATS
      && mount.Length == MAX_NFS_STATS * MOUNT_LEN
      && ip.Length == MAX_NFS_STATS * IP_LEN
      && mount != ip
    }

    /** A record with the given contents in every entry, as a caller might pass it. */
    constructor (n: int, c: NfsCounters, fill: char)
      ensures Valid() && fresh(counters) && fresh(mount) && fresh(ip)
      ensures numMounts == n
      ensures forall i :: 0 <= i < MAX_NFS_STATS ==> counters[i] == c
      ensures forall k :: 0 <= k < mount.Length ==> mount[k] == fill
      ensures forall k :: 0 <= k < ip.Length ==> ip[k] == fill
    {
      numMounts := n;
      counters := new NfsCounters[MAX_NFS_STATS](_ => c);
      mount := new char[MAX_NFS_STATS * MOUNT_LEN](_ => fill);
      ip := new char[MAX_NFS_STATS * IP_LEN](_ => fill);
    }
  }

  /** `i * width`: where slot `i` of a column of `width`-character fields begins. It is
      written as a sum over the slots before it, so that reasoning about slots needs only
      linear arithmetic. */
  function Offset(i: nat, width: nat): nat
  {
    if i == 0 then 0 else Offset(i - 1, width) + width
  }

  lemma {:induction false} OffsetIsProduct(i: nat, width: nat)
    ensures Offset(i, width) == i * width
  {
    if i > 0 {
      OffsetIsProduct(i - 1, width);
      assert (i - 1) * width + width == i * width;
    }
  }

  /** Slot `i` lies wholly before slot `j` when `i < j`. */
  lemma {:induction false} SlotsApart(i: nat, j: nat, width: nat)
    requires i < j
    ensures Offset(i, width) + width <= Offset(j, width)
    decreases j
  {
    if i + 1 < j {
      SlotsApart(i, j - 1, width);
    }
  }

  /** A column of MAX_NFS_STATS fields of `width` characters. */
  predicate Column(a: seq<char>, width: nat)
  {
    |a| == MAX_NFS_STATS * width
  }

  /** Every slot of a column lies inside it. */
  lemma SlotInside(i: nat, width: nat)
    requires i < MAX_NFS_STATS
    ensures Offset(i, width) + width <= MAX_NFS_STATS * width
  {
    OffsetIsProduct(MAX_NFS_STATS, width);
    SlotsApart(i, MAX_NFS_STATS, width);
  }

  /** Characters `[i * width, (i + 1) * width)` of a column: one entry's char field. */
  function Slot(a: seq<char>, i: nat, width: nat): (r: seq<char>)
    requires Column(a, width) && i < MAX_NFS_STATS
    ensures |r| == width
  {
    SlotInside(i, width);
    a[Offset(i, width) .. Offset(i, width) + width]
  }
}
