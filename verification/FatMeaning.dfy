/** Where bytes of files are (fat.hpp). */
module FatMeaning {
  // includeos-patch/fat.hpp: tables of 16-bit and 32-bit entries, and the place of every byte of a chain of clusters.

  import opened Basics
  import opened Fat

  /** Two bytes an entry, the low one first. */
  function Table16(entries: seq<nat>): (t: seq<Byte>)
    requires forall i :: 0 <= i < |entries| ==> entries[i] < 0x1_0000
    ensures |t| == 2 * |entries|
  {
    seq(2 * |entries|, k requires 0 <= k < 2 * |entries| =>
      if k % 2 == 0 then entries[k / 2] % 256 else entries[k / 2] / 256)
  }

  /** Four bytes an entry, the low one first. */
  function Table32(entries: seq<nat>): (t: seq<Byte>)
    requires forall i :: 0 <= i < |entries| ==> entries[i] < 0x1_0000_0000
    ensures |t| == 4 * |entries|
  {
    seq(4 * |entries|, k requires 0 <= k < 4 * |entries| => Byte32(entries[k / 4], k % 4))
  }

  function Byte32(x: nat, j: nat): Byte
    requires x < 0x1_0000_0000 && j < 4
  {
    if j == 0 then x % 0x100
    else if j == 1 then x / 0x100 % 0x100
    else if j == 2 then x / 0x1_0000 % 0x100
    else x / 0x100_0000
  }

  lemma Fat16Entries(entries: seq<nat>, cl: nat)
    requires (forall i :: 0 <= i < |entries| ==> entries[i] < 0x1_0000) && cl < |entries|
    ensures InTable(FAT16, Table16(entries), cl) && NextCluster(FAT16, Table16(entries), cl) == entries[cl]
  {
    var t := Table16(entries);
    assert t[2 * cl] == entries[cl] % 256 && t[2 * cl + 1] == entries[cl] / 256;
  }

  lemma Fat32Entries(entries: seq<nat>, cl: nat)
    requires (forall i :: 0 <= i < |entries| ==> entries[i] < 0x1_0000_0000) && cl < |entries|
    ensures InTable(FAT32, Table32(entries), cl) && NextCluster(FAT32, Table32(entries), cl) == entries[cl]
  {
    var t, x := Table32(entries), entries[cl];
    assert t[4 * cl] == Byte32(x, 0) && t[4 * cl + 1] == Byte32(x, 1) && t[4 * cl + 2] == Byte32(x, 2) && t[4 * cl + 3] == Byte32(x, 3);
    JoinedBytes(x);
    hide Byte32;
  }

  lemma JoinedBytes(x: nat)
    requires x < 0x1_0000_0000
    ensures Byte32(x, 0) + 256 * (Byte32(x, 1) + 256 * (Byte32(x, 2) + 256 * Byte32(x, 3))) == x
  {
    assert x / 0x100 / 0x100 == x / 0x1_0000 && x / 0x1_0000 / 0x100 == x / 0x100_0000;
  }

  // ----- chains -----

  /** These clusters follow one another in the table, and the device can read them. None is one of the
      numbers that stand for the root directory. */
  predicate IsChain(v: Volume, cs: seq<nat>) {
    && (forall i :: 0 <= i < |cs| ==> cs[i] > 2 && InTable(v.fatType, v.table, cs[i]))
    && (forall i :: 0 <= i < |cs| ==> v.lbaBase + v.dataIndex + (cs[i] - 1) * v.sectorsPerCluster <= |v.disk|)
    && (forall i, j {:trigger cs[i], cs[j]} :: 0 <= i && j == i + 1 < |cs| ==> cs[j] == NextCluster(v.fatType, v.table, cs[i]))
  }

  /** Place `q` of the sector `j` after `first`. */
  lemma {:induction false} SectorByte(v: Volume, first: nat, n: nat, j: nat, q: nat)
    requires VolumeOk(v) && first + n <= |v.disk| && j < n && q < v.sectorSize
    ensures |Sectors(v, first, n)| == v.sectorSize * n
    ensures 0 <= v.sectorSize * j + q < |Sectors(v, first, n)| && Sectors(v, first, n)[v.sectorSize * j + q] == v.disk[first + j][q]
    decreases n
  {
    SectorsSize(v, first, n);
    SectorsSize(v, first, n - 1);
    if j < n - 1 {
      SectorByte(v, first, n - 1, j, q);
    }
  }

  lemma {:induction false} ChainIsFollowed(v: Volume, cs: seq<nat>)
    requires IsChain(v, cs) && cs != []
    ensures HasChain(v, cs[0], |cs|)
    decreases |cs|
  {
    assert Readable(v, cs[0]);
    if |cs| > 1 {
      ChainIsFollowed(v, cs[1..]);
    } else {
      assert HasChain(v, NextCluster(v.fatType, v.table, cs[0]), 0);
    }
  }

  lemma {:induction false} FollowedCluster(v: Volume, cs: seq<nat>, k: nat)
    requires VolumeOk(v) && IsChain(v, cs) && k < |cs|
    ensures HasChain(v, cs[0], k) && Follow(v, cs[0], k) == cs[k]
  {
    ChainIsFollowed(v, cs);
    ChainStep(v, cs[0], |cs|, k);
    if k > 0 {
      FollowedCluster(v, cs, k - 1);
      ChainStep(v, cs[0], |cs|, k - 1);
      assert cs[k] == NextCluster(v.fatType, v.table, cs[k - 1]);
    }
  }

  /** The first sector of a cluster of the data area. */
  function DataSector(v: Volume, cl: nat): nat
    requires cl > 2
  {
    v.lbaBase + v.dataIndex + (cl - 2) * v.sectorsPerCluster
  }

  /** The device has byte `x` at place `q` of the sector. */
  predicate OnDisk(v: Volume, sector: nat, q: nat, x: Byte) {
    sector < |v.disk| && q < |v.disk[sector]| && v.disk[sector][q] == x
  }

  /** The position in the file of place `q` of sector `j` of its cluster `k`. */
  function Position(v: Volume, k: nat, j: nat, q: nat): nat {
    Offset(k, ClusterSize(v)) + (v.sectorSize * j + q)
  }

  lemma ClusterByte(v: Volume, cl: nat, j: nat, q: nat)
    requires VolumeOk(v) && Readable(v, cl) && cl > 2 && j < v.sectorsPerCluster && q < v.sectorSize
    ensures v.sectorSize * j + q < ClusterSize(v) == |ClusterBytes(v, cl)|
    ensures OnDisk(v, DataSector(v, cl) + j, q, ClusterBytes(v, cl)[v.sectorSize * j + q])
  {
    SectorByte(v, DataSector(v, cl), v.sectorsPerCluster, j, q);
    hide Sectors;
  }

  /** Cluster `k` of a chain, sector `j` of the cluster, place `q` of the sector. */
  lemma ChainByte(v: Volume, cs: seq<nat>, k: nat, j: nat, q: nat)
    requires VolumeOk(v) && IsChain(v, cs) && k < |cs| && j < v.sectorsPerCluster && q < v.sectorSize
    ensures HasChain(v, cs[0], |cs|) && Position(v, k, j, q) < |ChainBytes(v, cs[0], |cs|)|
    ensures OnDisk(v, DataSector(v, cs[k]) + j, q, ChainBytes(v, cs[0], |cs|)[Position(v, k, j, q)])
  {
    hide HasChain;
    hide ChainBytes;
    hide ClusterBytes;
    hide ClusterSize;
    hide VolumeOk;
    hide Readable;
    hide OnDisk;
    hide DataSector;
    hide Follow;
    hide Offset;
    ChainIsFollowed(v, cs);
    FollowedCluster(v, cs, k);
    ChainStep(v, cs[0], |cs|, k);
    ClusterByte(v, cs[k], j, q);
    ByteOfChain(v, cs[0], |cs|, k, v.sectorSize * j + q);
  }

  /** The bytes of a file, from its clusters on the device. */
  lemma FileByte(v: Volume, cs: seq<nat>, s: nat, e: nat, k: nat, j: nat, q: nat)
    requires VolumeOk(v) && IsChain(v, cs) && |cs| == Count(e, ClusterSize(v)) && e <= |cs| * ClusterSize(v)
    requires k < |cs| && j < v.sectorsPerCluster && q < v.sectorSize && s <= Position(v, k, j, q) < e
    ensures HasChain(v, cs[0], |cs|) && |FileBytes(v, cs[0], s, e)| == e - s
    ensures OnDisk(v, DataSector(v, cs[k]) + j, q, FileBytes(v, cs[0], s, e)[Position(v, k, j, q) - s])
  {
    hide IsChain;
    hide VolumeOk;
    hide HasChain;
    hide ChainBytes;
    hide OnDisk;
    hide Position;
    hide ClusterSize;
    hide Count;
    ChainByte(v, cs, k, j, q);
    ChainSize(v, cs[0], |cs|);
  }
}
