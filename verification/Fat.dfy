/** Reading files from a FAT file system (includeos-patch/fat_sync.cpp). */
module Fat {
  // Also includeos-patch/fat.hpp; the Microsoft FAT32 File System Specification, section "FAT Data
  // Structure".

  import opened Basics

  datatype FatType = FAT12 | FAT16 | FAT32

  // ----- links between clusters -----

  /** The bytes of the table that the entry of cluster `cl` takes. */
  predicate InTable(t: FatType, table: seq<Byte>, cl: nat) {
    match t
    case FAT12 => cl / 2 * 3 + 2 < |table|
    case FAT16 => 2 * cl + 1 < |table|
    case FAT32 => 4 * cl + 3 < |table|
  }

  /** `next_cluster`. The bits that are joined do not overlap, so that joining them is adding. */
  function NextCluster(t: FatType, table: seq<Byte>, cl: nat): nat
    requires InTable(t, table, cl)
  {
    match t
    case FAT12 =>
      if cl % 2 == 1 then At(table, cl / 2 * 3 + 1) / 16 + At(table, cl / 2 * 3 + 2) * 16
      else At(table, cl / 2 * 3 + 1) % 16 * 256 + At(table, cl / 2 * 3)
    case FAT16 => At(table, 2 * cl) + 256 * At(table, 2 * cl + 1)
    case FAT32 => At(table, 4 * cl) + 256 * (At(table, 4 * cl + 1) + 256 * (At(table, 4 * cl + 2) + 256 * At(table, 4 * cl + 3)))
  }

  function At(table: seq<Byte>, i: nat): nat
    requires i < |table|
  {
    table[i]
  }

  /** The two entries that three bytes of a FAT12 table hold. */
  function Pack12(x: nat, y: nat): (p: seq<Byte>)
    requires x < 4096 && y < 4096
    ensures |p| == 3
  {
    [x % 256, x / 256 + y % 16 * 16, y / 16]
  }

  function Table12(entries: seq<nat>): (t: seq<Byte>)
    requires |entries| % 2 == 0 && forall i :: 0 <= i < |entries| ==> entries[i] < 4096
    ensures |t| == |entries| / 2 * 3
  {
    if entries == [] then [] else Pack12(entries[0], entries[1]) + Table12(entries[2..])
  }

  /** FAT12 links are decoded as the packed 12-bit entries. */
  lemma {:induction false} Fat12Entries(entries: seq<nat>, cl: nat)
    requires |entries| % 2 == 0 && (forall i :: 0 <= i < |entries| ==> entries[i] < 4096) && cl < |entries|
    ensures InTable(FAT12, Table12(entries), cl) && NextCluster(FAT12, Table12(entries), cl) == entries[cl]
  {
    hide NextCluster;
    hide Pack12;
    var p, rest := Pack12(entries[0], entries[1]), Table12(entries[2..]);
    if cl >= 2 {
      Fat12Entries(entries[2..], cl - 2);
      SkipPair(p, rest, cl - 2);
    } else {
      FirstPair(entries[0], entries[1], rest, cl);
    }
  }

  lemma SkipPair(p: seq<Byte>, rest: seq<Byte>, cl: nat)
    requires |p| == 3 && InTable(FAT12, rest, cl)
    ensures InTable(FAT12, p + rest, cl + 2) && NextCluster(FAT12, p + rest, cl + 2) == NextCluster(FAT12, rest, cl)
  {
    assert (cl + 2) / 2 * 3 == cl / 2 * 3 + 3 && (cl + 2) % 2 == cl % 2;
  }

  lemma FirstPair(x: nat, y: nat, rest: seq<Byte>, cl: nat)
    requires x < 4096 && y < 4096 && cl < 2
    ensures InTable(FAT12, Pack12(x, y) + rest, cl) && NextCluster(FAT12, Pack12(x, y) + rest, cl) == if cl == 0 then x else y
  {
    var t := Pack12(x, y) + rest;
    assert t[0] == x % 256 && t[1] == x / 256 + y % 16 * 16 && t[2] == y / 16;
    HighNibble(x / 256, y % 16);
  }

  lemma HighNibble(lo: nat, hi: nat)
    requires lo < 16
    ensures (lo + hi * 16) / 16 == hi && (lo + hi * 16) % 16 == lo
  {
  }

  // ----- files -----

  /** A mounted file system on a device whose blocks are as large as its sectors. */
  datatype Volume = Volume(
    fatType: FatType,
    table: seq<Byte>,
    sectorSize: nat,
    sectorsPerCluster: nat,
    lbaBase: nat,
    dataIndex: nat,
    rootCluster: nat,
    rootDirSectors: nat,
    disk: seq<seq<Byte>>)        // the sectors of the device

  ghost predicate VolumeOk(v: Volume) {
    && v.sectorSize > 0 && v.sectorsPerCluster > 0
    && forall i :: 0 <= i < |v.disk| ==> |v.disk[i]| == v.sectorSize
  }

  function ClusterSize(v: Volume): (C: nat)
    ensures v.sectorSize > 0 && v.sectorsPerCluster > 0 ==> C > 0
  {
    v.sectorSize * v.sectorsPerCluster
  }

  /** `cl_to_sector`. */
  function ClusterToSector(v: Volume, cl: nat): int {
    if cl <= 2 then v.lbaBase + v.dataIndex + (v.rootCluster - 2) * v.sectorsPerCluster - v.rootDirSectors
    else v.lbaBase + v.dataIndex + (cl - 2) * v.sectorsPerCluster
  }

  function Sectors(v: Volume, first: nat, n: nat): (s: seq<Byte>)
    requires first + n <= |v.disk|
  {
    if n == 0 then [] else Sectors(v, first, n - 1) + v.disk[first + n - 1]
  }

  lemma {:induction false} SectorsSize(v: Volume, first: nat, n: nat)
    requires VolumeOk(v) && first + n <= |v.disk|
    ensures |Sectors(v, first, n)| == v.sectorSize * n
  {
    if n > 0 {
      SectorsSize(v, first, n - 1);
    }
  }

  /** The device can read the sectors of the cluster. */
  predicate Readable(v: Volume, cl: nat) {
    0 <= ClusterToSector(v, cl) && ClusterToSector(v, cl) + v.sectorsPerCluster <= |v.disk|
  }

  function ClusterBytes(v: Volume, cl: nat): seq<Byte>
    requires Readable(v, cl)
  {
    Sectors(v, ClusterToSector(v, cl), v.sectorsPerCluster)
  }

  /** The chain from `cl` on has at least `n` clusters that the device can read. */
  predicate HasChain(v: Volume, cl: nat, n: nat)
    decreases n
  {
    n == 0 || (Readable(v, cl) && InTable(v.fatType, v.table, cl) && HasChain(v, NextCluster(v.fatType, v.table, cl), n - 1))
  }

  /** Cluster number `k` of the chain. */
  function Follow(v: Volume, cl: nat, k: nat): nat
    requires HasChain(v, cl, k)
    decreases k
  {
    if k == 0 then cl else Follow(v, NextCluster(v.fatType, v.table, cl), k - 1)
  }

  /** The concatenated clusters of the chain. */
  function ChainBytes(v: Volume, cl: nat, n: nat): seq<Byte>
    requires HasChain(v, cl, n)
    decreases n
  {
    if n == 0 then [] else ClusterBytes(v, cl) + ChainBytes(v, NextCluster(v.fatType, v.table, cl), n - 1)
  }

  lemma {:induction false} ChainStep(v: Volume, cl: nat, n: nat, k: nat)
    requires VolumeOk(v) && HasChain(v, cl, n) && k < n
    ensures HasChain(v, cl, k)
    ensures var c := Follow(v, cl, k);
            && Readable(v, c) && InTable(v.fatType, v.table, c) && |ClusterBytes(v, c)| == ClusterSize(v)
            && HasChain(v, cl, k + 1) && Follow(v, cl, k + 1) == NextCluster(v.fatType, v.table, c)
    decreases k
  {
    if k > 0 {
      ChainStep(v, NextCluster(v.fatType, v.table, cl), n - 1, k - 1);
    } else {
      SectorsSize(v, ClusterToSector(v, cl), v.sectorsPerCluster);
      assert HasChain(v, cl, 1);
    }
  }

  /** Where cluster number `k` starts in the file. */
  function Offset(k: nat, C: nat): nat {
    k * C
  }

  lemma OffsetStep(k: nat, C: nat)
    ensures Offset(0, C) == 0 && Offset(k + 1, C) == Offset(k, C) + C
  {
  }

  lemma OffsetMono(k: nat, n: nat, C: nat)
    requires k <= n
    ensures Offset(k, C) <= Offset(n, C)
  {
    assert (n - k) * C >= 0;
  }

  lemma {:induction false} ChainSize(v: Volume, cl: nat, n: nat)
    requires VolumeOk(v) && HasChain(v, cl, n)
    ensures |ChainBytes(v, cl, n)| == Offset(n, ClusterSize(v))
    decreases n
  {
    hide ClusterBytes;
    hide ClusterSize;
    hide Offset;
    OffsetStep(0, ClusterSize(v));
    if n > 0 {
      ChainStep(v, cl, n, 0);
      OffsetStep(n - 1, ClusterSize(v));
      ChainSize(v, NextCluster(v.fatType, v.table, cl), n - 1);
    }
  }

  /** Cluster `k` of the chain holds the bytes of the file from its offset on. */
  lemma {:induction false} ChainCluster(v: Volume, cl: nat, n: nat, k: nat)
    requires VolumeOk(v) && HasChain(v, cl, n) && k < n
    ensures HasChain(v, cl, k) && Readable(v, Follow(v, cl, k)) && |ClusterBytes(v, Follow(v, cl, k))| == ClusterSize(v)
    ensures Offset(k, ClusterSize(v)) + ClusterSize(v) <= |ChainBytes(v, cl, n)|
    ensures ChainBytes(v, cl, n)[Offset(k, ClusterSize(v))..Offset(k, ClusterSize(v)) + ClusterSize(v)] == ClusterBytes(v, Follow(v, cl, k))
    decreases k
  {
    hide ClusterBytes;
    hide ClusterSize;
    hide Offset;
    hide Readable;
    var C, next := ClusterSize(v), NextCluster(v.fatType, v.table, cl);
    ChainStep(v, cl, n, 0);
    ChainStep(v, cl, n, k);
    OffsetStep(k, C);
    var a, b := ClusterBytes(v, cl), ChainBytes(v, next, n - 1);
    if k == 0 {
      assert (a + b)[0..C] == a;
    } else {
      ChainCluster(v, next, n - 1, k - 1);
      OffsetStep(k - 1, C);
      Shifted(a, b, Offset(k - 1, C), C);
    }
  }

  lemma Shifted(a: seq<Byte>, b: seq<Byte>, i: nat, n: nat)
    requires i + n <= |b|
    ensures (a + b)[|a| + i..|a| + i + n] == b[i..i + n]
  {
  }

  // ----- reading -----

  /** The number of the cluster that holds position `s`, and the place in it. */
  function First(s: nat, C: nat): nat
    requires C > 0
  {
    s / C
  }

  function Rem(s: nat, C: nat): (r: nat)
    requires C > 0
    ensures r < C
  {
    s % C
  }

  /** How many clusters hold `e` bytes. */
  function Count(e: nat, C: nat): nat
    requires C > 0
  {
    (e + C - 1) / C
  }

  /** The part of cluster `cn` of `nclust` that `read` takes. */
  function Part(data: seq<Byte>, C: nat, stapos: nat, endpos: nat, cn: nat, nclust: nat): seq<Byte>
    requires C > 0 && |data| == C && (nclust == 1 ==> Rem(stapos, C) <= Rem(endpos, C) || Rem(endpos, C) == 0)
  {
    if nclust == 1 && Rem(endpos, C) != 0 then data[Rem(stapos, C)..Rem(endpos, C)]
    else if cn == 0 then data[Rem(stapos, C)..]
    else if cn == nclust - 1 && Rem(endpos, C) != 0 then data[..Rem(endpos, C)]
    else data
  }

  /** Positions are 64 bits wide. */
  function Wrapped(x: nat): nat {
    x % 0x1_0000_0000_0000_0000
  }

  /** `FAT_::read`. The read starts at cluster `block + k`, where k is the number of the cluster that
      holds `pos`, and follows the chain from there. If that is the cluster that holds `pos`, what it
      gets is exactly the part of the file from `pos` to `pos + n` or to the end. There is no result if
      the sum wraps around and falls short of the start: the length is then too large to be reserved. */
  method Read(v: Volume, block: nat, size: nat, pos: nat, n: nat) returns (r: Option<seq<Byte>>)
    requires VolumeOk(v)
    requires Min(size, pos) <= Min(size, Wrapped(pos + n)) ==> CanRead(v, block, Min(size, pos), Min(size, Wrapped(pos + n)))
    ensures var s, e := Min(size, pos), Min(size, Wrapped(pos + n));
            match r
            case None => s > e
            case Some(finaldata) =>
              && s <= e && finaldata == BytesRead(v, block, s, e) && |finaldata| == e - s
              && (HasChain(v, block, Count(e, ClusterSize(v))) && StartsRight(v, block, s) ==> finaldata == FileBytes(v, block, s, e))
  {
    hide HasChain;
    hide ChainBytes;
    hide Follow;
    hide VolumeOk;
    hide StartsRight;
    hide ClusterSize;
    hide Offset;
    hide First;
    hide Count;
    ClusterNotEmpty(v);
    var stapos, endpos := Min(size, pos), Min(size, Wrapped(pos + n));
    if stapos > endpos {
      return None;
    }
    var finaldata := ReadClusters(v, block, stapos, endpos);
    if HasChain(v, block, Count(endpos, ClusterSize(v))) && StartsRight(v, block, stapos) {
      if stapos == endpos {
        NothingRead(v, block, stapos);
      } else {
        StartsRightIsExact(v, block, stapos, endpos);
      }
    }
    return Some(finaldata);
  }

  method ReadClusters(v: Volume, block: nat, stapos: nat, endpos: nat) returns (finaldata: seq<Byte>)
    requires VolumeOk(v) && stapos <= endpos && CanRead(v, block, stapos, endpos)
    ensures var C := ClusterSize(v);
            var k, m := First(stapos, C), Count(endpos, C);
            if k < m then
              && Offset(k, C) <= stapos && endpos - Offset(k, C) <= |ChainBytes(v, block + k, m - k)|
              && finaldata == ChainBytes(v, block + k, m - k)[stapos - Offset(k, C)..endpos - Offset(k, C)]
            else finaldata == [] && stapos == endpos
  {
    hide ClusterBytes;
    hide HasChain;
    hide ChainBytes;
    hide Follow;
    hide Readable;
    hide VolumeOk;
    hide Offset;
    hide Part;
    hide First;
    hide Count;
    hide Rem;
    var C := ClusterSize(v);
    ClusterNotEmpty(v);
    hide ClusterSize;
    var cluster := First(stapos, C);
    var nclust := Count(endpos, C) - cluster;
    Ordered(stapos, endpos, C);
    finaldata := [];
    if nclust == 0 {
      return;
    }
    ghost var start := block + cluster;
    ghost var file := ChainBytes(v, start, nclust);
    Relative(stapos, endpos, C);
    ghost var s, e := stapos - Offset(cluster, C), endpos - Offset(cluster, C);
    LastCluster(e, C);
    ChainSize(v, start, nclust);
    NoSteps(v, start);
    var cn, cl := 0, block + cluster;
    while cn < nclust
      invariant 0 <= cn <= nclust
      invariant cn < nclust ==> HasChain(v, start, cn) && cl == Follow(v, start, cn)
      invariant cn == 0 ==> finaldata == []
      invariant cn > 0 ==> s <= Min(e, Offset(cn, C)) <= |file| && finaldata == file[s..Min(e, Offset(cn, C))]
    {
      ghost var before := finaldata;
      ChainCluster(v, start, nclust, cn);
      var data := ReadCluster(v, cl);
      PartFits(s, e, C, nclust);
      SameParts(data, C, stapos, endpos, s, e, cn, nclust);
      finaldata := finaldata + Part(data, C, stapos, endpos, cn, nclust);
      PartAdded(file, data, before, C, s, e, cn, nclust);
      ChainStep(v, start, nclust, cn);
      cn := cn + 1;
      if cn < nclust {
        cl := NextCluster(v.fatType, v.table, cl);
      }
    }
  }

  lemma NoSteps(v: Volume, cl: nat)
    ensures HasChain(v, cl, 0) && Follow(v, cl, 0) == cl
  {
  }

  lemma SameParts(data: seq<Byte>, C: nat, s: nat, e: nat, s': nat, e': nat, cn: nat, nclust: nat)
    requires C > 0 && |data| == C && (nclust == 1 ==> Rem(s', C) <= Rem(e', C) || Rem(e', C) == 0)
    requires Rem(s', C) == Rem(s, C) && Rem(e', C) == Rem(e, C)
    ensures nclust == 1 ==> Rem(s, C) <= Rem(e, C) || Rem(e, C) == 0
    ensures Part(data, C, s', e', cn, nclust) == Part(data, C, s, e, cn, nclust)
  {
  }

  /** Positions relative to the cluster that the read starts in. */
  lemma Relative(s: nat, e: nat, C: nat)
    requires C > 0 && s <= e && First(s, C) < Count(e, C)
    ensures var o := Offset(First(s, C), C);
            && o <= s && First(s - o, C) == 0 && Rem(s - o, C) == Rem(s, C)
            && Rem(e - o, C) == Rem(e, C) && Count(e - o, C) == Count(e, C) - First(s, C)
  {
    hide Offset;
    hide Rem;
    hide First;
    hide Count;
    FirstCluster(s, C);
    RelativeStart(s, C);
    FirstMono(s, e, C);
    RelativeEnd(e, First(s, C), C);
  }

  lemma RelativeStart(s: nat, C: nat)
    requires C > 0
    ensures Offset(First(s, C), C) <= s && First(s - Offset(First(s, C), C), C) == 0 && Rem(s - Offset(First(s, C), C), C) == Rem(s, C)
  {
    FirstCluster(s, C);
    Small(s % C, C);
  }

  lemma RelativeEnd(e: nat, k: nat, C: nat)
    requires C > 0 && k <= First(e, C)
    ensures Offset(k, C) <= e && Rem(e - Offset(k, C), C) == Rem(e, C) && Count(e - Offset(k, C), C) == Count(e, C) - k
  {
    var q, r := First(e, C), Rem(e, C);
    FirstCluster(e, C);
    Difference(q, k, C);
    var d := q - k;
    assert e - Offset(k, C) == d * C + r;
    Remainder(d, r, C);
    if r == 0 {
      Quotient(q, C - 1, C);
      Quotient(d, C - 1, C);
    } else {
      Difference(q + 1, 1, C);
      Difference(d + 1, 1, C);
      Quotient(q + 1, r - 1, C);
      Quotient(d + 1, r - 1, C);
    }
  }

  lemma Difference(q: nat, k: nat, C: nat)
    requires k <= q
    ensures (q - k) * C == q * C - k * C
  {
  }

  lemma Small(x: nat, C: nat)
    requires x < C
    ensures x / C == 0 && x % C == x
  {
  }

  lemma FirstMono(s: nat, e: nat, C: nat)
    requires C > 0 && s <= e
    ensures First(s, C) <= First(e, C)
  {
    var p, q := s / C, e / C;
    assert s == p * C + s % C && e == q * C + e % C;
    if q < p {
      Gap(q, p, C);
    }
  }

  lemma Remainder(q: nat, r: nat, C: nat)
    requires r < C
    ensures (q * C + r) % C == r
  {
    Quotient(q, r, C);
    var x := q * C + r;
    assert x == x / C * C + x % C;
  }

  /** The cluster that holds position `s`. */
  lemma FirstCluster(s: nat, C: nat)
    requires C > 0
    ensures Offset(First(s, C), C) + Rem(s, C) == s && Rem(s, C) < C
  {
  }

  /** The clusters that it takes to hold `e` bytes. */
  lemma LastCluster(e: nat, C: nat)
    requires C > 0
    ensures var m := Count(e, C);
            && e <= Offset(m, C)
            && (m > 0 ==> Offset(m - 1, C) < e && Offset(m, C) == Offset(m - 1, C) + C)
            && (Rem(e, C) == 0 ==> Offset(m, C) == e)
            && (Rem(e, C) != 0 ==> m > 0 && Offset(m - 1, C) + Rem(e, C) == e)
            && (m == 0 <==> e == 0)
  {
    hide Offset;
    hide Rem;
    hide First;
    hide Count;
    var q := First(e, C);
    FirstCluster(e, C);
    CountIs(e, C);
    OffsetStep(q, C);
    if q > 0 {
      OffsetStep(q - 1, C);
    }
  }

  lemma CountIs(e: nat, C: nat)
    requires C > 0
    ensures Count(e, C) == First(e, C) + if Rem(e, C) == 0 then 0 else 1
  {
    var q, r := First(e, C), Rem(e, C);
    FirstCluster(e, C);
    if r == 0 {
      Quotient(q, C - 1, C);
    } else {
      Difference(q + 1, 1, C);
      Quotient(q + 1, r - 1, C);
    }
  }

  lemma Quotient(q: nat, r: nat, C: nat)
    requires r < C
    ensures (q * C + r) / C == q
  {
    var x := q * C + r;
    Unique(x / C, q, x % C, r, C);
  }

  lemma Unique(p: nat, q: nat, a: nat, b: nat, C: nat)
    requires p * C + a == q * C + b && a < C && b < C
    ensures p == q
  {
    if p < q {
      Gap(p, q, C);
    } else if q < p {
      Gap(q, p, C);
    }
  }

  lemma Gap(p: nat, q: nat, C: nat)
    requires p < q
    ensures q * C >= p * C + C
  {
    Difference(q, p + 1, C);
    Difference(p + 1, 1, C);
    assert (q - (p + 1)) * C >= 0;
  }

  lemma Ordered(s: nat, e: nat, C: nat)
    requires C > 0 && s <= e
    ensures First(s, C) <= Count(e, C)
    ensures First(s, C) == Count(e, C) ==> s == e
  {
    hide Offset;
    hide First;
    hide Rem;
    hide Count;
    FirstCluster(s, C);
    LastCluster(e, C);
    var k, m := First(s, C), Count(e, C);
    if k > m {
      OffsetMono(m + 1, k, C);
      OffsetStep(m, C);
    }
  }

  lemma PartFits(s: nat, e: nat, C: nat, nclust: nat)
    requires C > 0 && s <= e && nclust == Count(e, C) - First(s, C)
    ensures nclust == 1 ==> Rem(s, C) <= Rem(e, C) || Rem(e, C) == 0
  {
    hide Offset;
    hide First;
    hide Rem;
    hide Count;
    FirstCluster(s, C);
    LastCluster(e, C);
  }

  /** What was read so far, and the part of the next cluster, are the next bytes of the file. */
  lemma PartAdded(file: seq<Byte>, data: seq<Byte>, before: seq<Byte>, C: nat, s: nat, e: nat, cn: nat, nclust: nat)
    requires C > 0 && s <= e && nclust == Count(e, C) - First(s, C) && cn < nclust && |data| == C
    requires nclust == 1 ==> Rem(s, C) <= Rem(e, C) || Rem(e, C) == 0
    requires var j := First(s, C) + cn; Offset(j, C) + C <= |file| && data == file[Offset(j, C)..Offset(j, C) + C]
    requires cn == 0 ==> before == []
    requires cn > 0 ==> s <= Min(e, Offset(First(s, C) + cn, C)) && before == file[s..Min(e, Offset(First(s, C) + cn, C))]
    ensures var t := Min(e, Offset(First(s, C) + cn + 1, C));
            s <= t <= |file| && before + Part(data, C, s, e, cn, nclust) == file[s..t]
  {
    hide Offset;
    hide First;
    hide Rem;
    hide Count;
    hide Part;
    var k, m := First(s, C), Count(e, C);
    var j := k + cn;
    FirstCluster(s, C);
    LastCluster(e, C);
    OffsetStep(j, C);
    OffsetMono(j, m - 1, C);
    OffsetMono(j + 1, m, C);
    if j + 1 < m {
      OffsetMono(j + 1, m - 1, C);
    }
    var o := Offset(j, C);
    if cn > 0 {
      assert o <= e;
      PartLater(file, data, C, s, e, cn, nclust, o);
    } else {
      PartFirst(file, data, C, s, e, nclust, o);
    }
  }

  lemma PartFirst(file: seq<Byte>, data: seq<Byte>, C: nat, s: nat, e: nat, nclust: nat, o: nat)
    requires C > 0 && s <= e && |data| == C && o + C <= |file| && data == file[o..o + C] && o + Rem(s, C) == s && nclust > 0
    requires nclust == 1 ==> Rem(s, C) <= Rem(e, C) || Rem(e, C) == 0
    requires nclust == 1 && Rem(e, C) != 0 ==> o + Rem(e, C) == e
    requires nclust > 1 || Rem(e, C) == 0 ==> o + C <= e
    ensures s <= Min(e, o + C) && Part(data, C, s, e, 0, nclust) == file[s..Min(e, o + C)]
  {
    hide Rem;
    if nclust == 1 && Rem(e, C) != 0 {
      Slice(file, o, C, Rem(s, C), Rem(e, C));
    } else {
      Slice(file, o, C, Rem(s, C), C);
      assert data[Rem(s, C)..] == data[Rem(s, C)..C];
    }
  }

  lemma Slice(file: seq<Byte>, o: nat, C: nat, a: nat, b: nat)
    requires a <= b <= C && o + C <= |file|
    ensures file[o..o + C][a..b] == file[o + a..o + b]
  {
    var l, r := file[o..o + C][a..b], file[o + a..o + b];
    forall i | 0 <= i < |l| ensures l[i] == r[i] {
      assert l[i] == file[o..o + C][a + i] == file[o + a + i];
    }
  }

  lemma PartLater(file: seq<Byte>, data: seq<Byte>, C: nat, s: nat, e: nat, cn: nat, nclust: nat, o: nat)
    requires C > 0 && |data| == C && o + C <= |file| && data == file[o..o + C] && 0 < cn < nclust && s <= o <= e
    requires cn == nclust - 1 && Rem(e, C) != 0 ==> o + Rem(e, C) == e
    requires cn < nclust - 1 || Rem(e, C) == 0 ==> o + C <= e
    ensures Part(data, C, s, e, cn, nclust) == file[o..Min(e, o + C)]
    ensures file[s..o] + Part(data, C, s, e, cn, nclust) == file[s..Min(e, o + C)]
  {
    hide Rem;
  }

  method ReadCluster(v: Volume, cl: nat) returns (data: seq<Byte>)
    requires Readable(v, cl)
    ensures data == ClusterBytes(v, cl)
  {
    data := Sectors(v, ClusterToSector(v, cl), v.sectorsPerCluster);
  }

  lemma ClusterNotEmpty(v: Volume)
    requires VolumeOk(v)
    ensures ClusterSize(v) > 0
  {
  }

  // ----- whole files -----

  /** The chain from cluster number `k` on is the rest of the file. */
  lemma {:induction false} ChainSplit(v: Volume, cl: nat, n: nat, k: nat)
    requires VolumeOk(v) && HasChain(v, cl, n) && k <= n
    ensures HasChain(v, cl, k) && HasChain(v, Follow(v, cl, k), n - k)
    ensures ChainBytes(v, cl, n) == ChainBytes(v, cl, k) + ChainBytes(v, Follow(v, cl, k), n - k)
    decreases k
  {
    hide ClusterBytes;
    if k == 0 {
      assert [] + ChainBytes(v, cl, n) == ChainBytes(v, cl, n);
    } else {
      var next := NextCluster(v.fatType, v.table, cl);
      ChainSplit(v, next, n - 1, k - 1);
      var a, b, c := ClusterBytes(v, cl), ChainBytes(v, next, k - 1), ChainBytes(v, Follow(v, next, k - 1), n - k);
      assert a + (b + c) == a + b + c;
    }
  }

  function Piece(s: seq<Byte>, a: int, b: int): seq<Byte> {
    if 0 <= a <= b <= |s| then s[a..b] else []
  }

  /** Bytes `s` to `e` of the file whose first cluster is `block`. */
  function FileBytes(v: Volume, block: nat, s: nat, e: nat): seq<Byte>
    requires VolumeOk(v) && HasChain(v, block, Count(e, ClusterSize(v)))
  {
    Piece(ChainBytes(v, block, Count(e, ClusterSize(v))), s, e)
  }

  /** What a read of them gets: the same places of the chain that starts `First` clusters after
      `block`, counted on the device and not along the chain. */
  function BytesRead(v: Volume, block: nat, s: nat, e: nat): seq<Byte>
    requires VolumeOk(v) && CanRead(v, block, s, e)
  {
    var C := ClusterSize(v);
    var k, m := First(s, C), Count(e, C);
    if k < m then Piece(ChainBytes(v, block + k, m - k), s - Offset(k, C), e - Offset(k, C)) else []
  }

  /** The device can read all clusters that a read of bytes `s` to `e` goes to. */
  predicate CanRead(v: Volume, block: nat, s: nat, e: nat)
    requires VolumeOk(v)
  {
    var C := ClusterSize(v);
    First(s, C) < Count(e, C) ==> HasChain(v, block + First(s, C), Count(e, C) - First(s, C))
  }

  /** The cluster that a read of byte `s` starts in is the one that holds the byte. */
  predicate StartsRight(v: Volume, block: nat, s: nat)
    requires VolumeOk(v)
  {
    var k := First(s, ClusterSize(v));
    HasChain(v, block, k) && block + k == Follow(v, block, k)
  }

  /** Neither of these two clusters is one that stands for the root directory. */
  predicate OrdinaryStart(v: Volume, block: nat, s: nat)
    requires VolumeOk(v)
  {
    var k := First(s, ClusterSize(v));
    HasChain(v, block, k) && block + k > 2 && Follow(v, block, k) > 2
  }

  /** A read of bytes `s` to `e` gets exactly these bytes of the file. */
  ghost predicate ReadsExactly(v: Volume, block: nat, s: nat, e: nat) {
    && VolumeOk(v) && HasChain(v, block, Count(e, ClusterSize(v))) && CanRead(v, block, s, e)
    && BytesRead(v, block, s, e) == FileBytes(v, block, s, e)
  }

  lemma NothingRead(v: Volume, block: nat, s: nat)
    requires VolumeOk(v) && HasChain(v, block, Count(s, ClusterSize(v))) && CanRead(v, block, s, s)
    ensures ReadsExactly(v, block, s, s)
  {
    hide ChainBytes;
    hide Offset;
    hide First;
    hide Count;
    assert forall t: seq<Byte>, i: int :: Piece(t, i, i) == [];
  }

  /** When the clusters before the read lie one after the other, as they do for every read that starts
      in the first cluster, what is read are the bytes `s` to `e` of the file. */
  lemma StartsRightIsExact(v: Volume, block: nat, s: nat, e: nat)
    requires VolumeOk(v) && s < e && HasChain(v, block, Count(e, ClusterSize(v))) && StartsRight(v, block, s)
    ensures ReadsExactly(v, block, s, e)
  {
    hide ChainBytes;
    hide HasChain;
    hide Follow;
    hide VolumeOk;
    hide ClusterSize;
    hide Offset;
    hide First;
    hide Count;
    hide Rem;
    var C := ClusterSize(v);
    ClusterNotEmpty(v);
    var k, m := First(s, C), Count(e, C);
    Ordered(s, e, C);
    ChainSplit(v, block, m, k);
    ChainSize(v, block, m);
    ChainSize(v, block, k);
    FirstCluster(s, C);
    LastCluster(e, C);
    Shifted(ChainBytes(v, block, k), ChainBytes(v, block + k, m - k), s - Offset(k, C), e - s);
  }

  // ----- reads that start in the wrong cluster -----

  /** Another volume with the same table and the same sizes; only the contents of the disk differ. */
  ghost predicate SameLayout(v: Volume, w: Volume) {
    VolumeOk(w) && w == v.(disk := w.disk) && |w.disk| == |v.disk|
  }

  lemma {:induction false} SameChains(v: Volume, w: Volume, cl: nat, n: nat)
    requires SameLayout(v, w)
    ensures HasChain(w, cl, n) <==> HasChain(v, cl, n)
    ensures HasChain(v, cl, n) ==> Follow(w, cl, n) == Follow(v, cl, n)
    decreases n
  {
    if n > 0 && HasChain(v, cl, 1) {
      SameChains(v, w, NextCluster(v.fatType, v.table, cl), n - 1);
    }
  }

  /** The same layout with ones in cluster `cl` and zeros everywhere else. */
  function Filled(v: Volume, cl: nat): (w: Volume)
    ensures |w.disk| == |v.disk| && w == v.(disk := w.disk)
  {
    var first := ClusterToSector(v, cl);
    v.(disk := seq(|v.disk|, i requires 0 <= i => seq(v.sectorSize, _ => if first <= i < first + v.sectorsPerCluster then 1 else 0)))
  }

  lemma {:induction false} SectorsAre(v: Volume, first: nat, n: nat, b: Byte)
    requires first + n <= |v.disk| && forall i, j :: first <= i < first + n && 0 <= j < |v.disk[i]| ==> v.disk[i][j] == b
    ensures forall j :: 0 <= j < |Sectors(v, first, n)| ==> Sectors(v, first, n)[j] == b
  {
    if n > 0 {
      SectorsAre(v, first, n - 1, b);
    }
  }

  /** Different clusters do not share sectors. */
  lemma Apart(v: Volume, c1: nat, c2: nat)
    requires c1 > 2 && c2 > 2 && c1 != c2
    ensures ClusterToSector(v, c1) + v.sectorsPerCluster <= ClusterToSector(v, c2)
            || ClusterToSector(v, c2) + v.sectorsPerCluster <= ClusterToSector(v, c1)
  {
    if c1 < c2 {
      Gap(c1 - 2, c2 - 2, v.sectorsPerCluster);
    } else {
      Gap(c2 - 2, c1 - 2, v.sectorsPerCluster);
    }
  }

  lemma FilledBytes(v: Volume, c: nat, cl: nat)
    requires VolumeOk(v) && Readable(v, c) && Readable(v, cl) && c > 2 && cl > 2
    ensures SameLayout(v, Filled(v, cl)) && ClusterSize(Filled(v, cl)) == ClusterSize(v) && Readable(Filled(v, cl), c)
    ensures forall j :: 0 <= j < |ClusterBytes(Filled(v, cl), c)| ==> ClusterBytes(Filled(v, cl), c)[j] == if c == cl then 1 else 0
  {
    var w := Filled(v, cl);
    if c != cl {
      Apart(v, c, cl);
    }
    SectorsAre(w, ClusterToSector(w, c), w.sectorsPerCluster, if c == cl then 1 else 0);
  }

  /** Place `r` of cluster number `k` of a chain. */
  lemma ByteOfChain(v: Volume, cl: nat, n: nat, k: nat, r: nat)
    requires VolumeOk(v) && HasChain(v, cl, n) && k < n && r < ClusterSize(v)
    ensures HasChain(v, cl, k) && Readable(v, Follow(v, cl, k))
    ensures |ClusterBytes(v, Follow(v, cl, k))| == ClusterSize(v)
    ensures Offset(k, ClusterSize(v)) + r < |ChainBytes(v, cl, n)|
    ensures ChainBytes(v, cl, n)[Offset(k, ClusterSize(v)) + r] == ClusterBytes(v, Follow(v, cl, k))[r]
  {
    ChainStep(v, cl, n, k);
    ChainCluster(v, cl, n, k);
    hide ClusterBytes;
    hide ChainBytes;
    hide Offset;
    hide ClusterSize;
    var o, C := Offset(k, ClusterSize(v)), ClusterSize(v);
    assert ChainBytes(v, cl, n)[o..o + C][r] == ChainBytes(v, cl, n)[o + r];
  }

  /** Place `r` of two different clusters, when only the second is filled with ones. */
  lemma FilledPlaces(v: Volume, c: nat, cl: nat, r: nat)
    requires VolumeOk(v) && Readable(v, c) && Readable(v, cl) && c > 2 && cl > 2 && c != cl
    requires r < |ClusterBytes(Filled(v, cl), c)| && r < |ClusterBytes(Filled(v, cl), cl)|
    ensures ClusterBytes(Filled(v, cl), c)[r] != ClusterBytes(Filled(v, cl), cl)[r]
  {
    FilledBytes(v, c, cl);
    FilledBytes(v, cl, cl);
  }

  lemma FilledLayout(v: Volume, cl: nat)
    requires VolumeOk(v)
    ensures SameLayout(v, Filled(v, cl)) && ClusterSize(Filled(v, cl)) == ClusterSize(v)
    ensures forall c :: Readable(Filled(v, cl), c) <==> Readable(v, c)
  {
  }

  /** A read that starts in the wrong cluster gets wrong bytes, for some contents of the disk. */
  lemma WrongStart(v: Volume, block: nat, s: nat, e: nat) returns (w: Volume)
    requires VolumeOk(v) && s < e && HasChain(v, block, Count(e, ClusterSize(v))) && CanRead(v, block, s, e)
    requires OrdinaryStart(v, block, s) && !StartsRight(v, block, s)
    ensures SameLayout(v, w) && !ReadsExactly(w, block, s, e)
  {
    hide Filled;
    hide ClusterSize;
    hide VolumeOk;
    hide ReadsExactly;
    hide SameLayout;
    hide First;
    hide Count;
    hide Rem;
    hide HasChain;
    hide Follow;
    hide ClusterBytes;
    hide Readable;
    ClusterNotEmpty(v);
    var k := First(s, ClusterSize(v));
    var good := Follow(v, block, k);
    w := Filled(v, good);
    FilledLayout(v, good);
    SameChains(v, w, block, k);
    if ReadsExactly(w, block, s, e) {
      WrongByte(w, block, s, e, k, Rem(s, ClusterSize(v)));
      FilledPlaces(v, block + k, good, Rem(s, ClusterSize(v)));
    }
  }

  /** The first byte that a read gets and the one that it should get. */
  lemma WrongByte(w: Volume, block: nat, s: nat, e: nat, k: nat, r: nat)
    requires ReadsExactly(w, block, s, e) && s < e && k == First(s, ClusterSize(w)) && r == Rem(s, ClusterSize(w))
    ensures HasChain(w, block, k) && Readable(w, Follow(w, block, k)) && Readable(w, block + k)
    ensures r < |ClusterBytes(w, block + k)| && r < |ClusterBytes(w, Follow(w, block, k))|
    ensures ClusterBytes(w, block + k)[r] == ClusterBytes(w, Follow(w, block, k))[r]
  {
    hide ClusterSize;
    hide VolumeOk;
    ClusterNotEmpty(w);
    var C := ClusterSize(w);
    var m := Count(e, C);
    hide ChainBytes;
    hide ClusterBytes;
    hide HasChain;
    hide Follow;
    hide Readable;
    hide ClusterSize;
    hide Offset;
    hide First;
    hide Count;
    hide Rem;
    Ordered(s, e, C);
    FirstCluster(s, C);
    LastCluster(e, C);
    ByteOfChain(w, block, m, k, r);
    ByteOfChain(w, block + k, m - k, 0, r);
    NoSteps(w, block + k);
    ChainSize(w, block, m);
    ChainSize(w, block + k, m - k);
    OffsetStep(0, C);
    Relative(s, e, C);
    LastCluster(e - Offset(k, C), C);
    var file, read := ChainBytes(w, block, m), ChainBytes(w, block + k, m - k);
    var o := Offset(k, C);
    assert FileBytes(w, block, s, e)[0] == file[s];
    assert BytesRead(w, block, s, e)[0] == read[s - o];
  }

  /** A read is exact, whatever the disk contains, if and only if it is empty or starts in the cluster
      that holds its first byte, that is, if the clusters that it skips lie one after the other. */
  lemma ReadIsExact(v: Volume, block: nat, s: nat, e: nat)
    requires VolumeOk(v) && s <= e && HasChain(v, block, Count(e, ClusterSize(v))) && CanRead(v, block, s, e)
    requires OrdinaryStart(v, block, s)
    ensures (forall w :: SameLayout(v, w) ==> ReadsExactly(w, block, s, e)) <==> s == e || StartsRight(v, block, s)
  {
    hide ReadsExactly;
    var C := ClusterSize(v);
    if s == e || StartsRight(v, block, s) {
      forall w | SameLayout(v, w) ensures ReadsExactly(w, block, s, e) {
        SameChains(v, w, block, Count(e, C));
        SameChains(v, w, block, First(s, C));
        if First(s, C) < Count(e, C) {
          SameChains(v, w, block + First(s, C), Count(e, C) - First(s, C));
        }
        if s == e {
          NothingRead(w, block, s);
        } else {
          StartsRightIsExact(w, block, s, e);
        }
      }
    } else {
      var w := WrongStart(v, block, s, e);
    }
  }

  // ----- a file that is not contiguous -----

  /** One byte per cluster, and a file whose clusters are 3 and 5. */
  function Fragmented(): Volume {
    Volume(FAT16, [0, 0, 0, 0, 0, 0, 5, 0, 255, 255, 255, 255], 1, 1, 0, 0, 2, 0, [[10], [11], [12], [13]])
  }

  lemma FragmentedChains()
    ensures var v := Fragmented();
            && VolumeOk(v) && HasChain(v, 3, 2) && HasChain(v, 4, 1)
            && ChainBytes(v, 3, 2) == [11, 13] && ChainBytes(v, 4, 1) == [12]
  {
    var v := Fragmented();
    assert NextCluster(FAT16, v.table, 3) == 5;
    assert ClusterBytes(v, 3) == [11] && ClusterBytes(v, 4) == [12] && ClusterBytes(v, 5) == [13];
    assert HasChain(v, 5, 0) && HasChain(v, 5, 1) && HasChain(v, 4, 1) && HasChain(v, 3, 2);
    assert ChainBytes(v, 5, 1) == [13] + [] && ChainBytes(v, 4, 1) == [12] + [];
    assert ChainBytes(v, 3, 2) == [11] + ChainBytes(v, 5, 1);
  }

  lemma FragmentedBytes()
    ensures var v := Fragmented();
            && VolumeOk(v) && HasChain(v, 3, Count(2, ClusterSize(v))) && CanRead(v, 3, 1, 2)
            && FileBytes(v, 3, 1, 2) == [13] && BytesRead(v, 3, 1, 2) == [12]
  {
    FragmentedChains();
    var v := Fragmented();
    assert ClusterSize(v) == 1 && First(1, 1) == 1 && Count(2, 1) == 2 && Offset(1, 1) == 1;
    hide Fragmented;
    hide HasChain;
    hide ChainBytes;
    assert [11, 13][1..2] == [13] && [12][0..1] == [12];
  }

  /** A read of its second byte goes to cluster 4 instead of 5. */
  method FragmentedRead() returns (data: Option<seq<Byte>>)
    ensures data == Some([12])
    ensures VolumeOk(Fragmented()) && HasChain(Fragmented(), 3, Count(2, ClusterSize(Fragmented())))
    ensures FileBytes(Fragmented(), 3, 1, 2) == [13]
  {
    FragmentedBytes();
    hide Fragmented;
    hide HasChain;
    hide VolumeOk;
    hide CanRead;
    hide BytesRead;
    hide FileBytes;
    hide Count;
    data := Read(Fragmented(), 3, 2, 1, 1);
  }
}
