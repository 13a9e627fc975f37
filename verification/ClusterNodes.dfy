module ClusterNodes {
  import opened OptionType

  /** A bitmap of all hash slots, eight to a byte. */
  const BITMAP_BYTES: nat := 2048

  /**
   clusterNode (cluster.h). A 40-byte node ID is taken as the number it spells,
   high byte first, so that memcmp orders IDs as the numbers are ordered.
   */
  class ClusterNode {
    var name: nat
    var configEpoch: nat
    var isMaster: bool
    var inHandshake: bool
    var failed: bool
    var linked: bool
    var slots: seq<bv8>
    var numslots: nat
    var votedTime: int
    var slaveof: ClusterNode?

    /** createClusterNode */
    constructor (name: nat, isMaster: bool, inHandshake: bool)
      ensures this.name == name && this.isMaster == isMaster && this.inHandshake == inHandshake
      ensures configEpoch == 0 && !failed && !linked && numslots == 0 && votedTime == 0 && slaveof == null
      ensures slots == seq(BITMAP_BYTES, _ => 0)
    {
      this.name, this.isMaster, this.inHandshake, slaveof := name, isMaster, inHandshake, null;
      configEpoch, failed, linked, numslots, votedTime := 0, false, false, 0, 0;
      slots := seq(BITMAP_BYTES, _ => 0);
    }
  }

  ghost function NameOf(n: ClusterNode?): Option<nat>
    reads (if n == null then {} else {n})`name
  {
    if n == null then None else Some(n.name)
  }
}
