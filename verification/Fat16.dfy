/**
  The FAT16 reader (fat/fat.c, fat/fat_helpers.c): following a cluster chain through the table on
  disk to produce the bytes of a file.  The disk image is a byte sequence; the `FILE*` is a cursor
  that every `fseek` and `fread` moves.
 */
module Fat16 {
  import opened Options

  newtype byte = n: int | 0 <= n < 256

  const ENTRY_SIZE := 32
  const BOOT_SECTOR_SIZE := 512

  /** The boot-sector fields the reader uses, with the start sector of the first partition. */
  datatype Volume = Volume(
    startSector: nat,
    reservedSectors: nat,
    numberOfFats: nat,
    fatSizeSectors: nat,
    rootDirEntries: nat,
    sectorSize: nat,
    sectorsPerCluster: nat)
  {
    /** The reader divides by the sector size, and an empty cluster would never fill a file. */
    predicate Usable() {
      sectorSize > 0 && sectorsPerCluster > 0
    }

    function ClusterSize(): nat { sectorsPerCluster * sectorSize }

    function FatStart(): nat { reservedSectors * sectorSize }

    function FirstDataByte(): nat
      requires Usable()
    {
      (startSector + reservedSectors + numberOfFats * fatSizeSectors + rootDirEntries * 32 / sectorSize) * sectorSize
    }

    function ClusterOffset(c: nat): int
      requires Usable()
    {
      FirstDataByte() + (c - 2) * sectorsPerCluster * sectorSize
    }

    function FatEntryOffset(c: nat): nat {
      startSector * 512 + FatStart() + c * 2
    }

    /** Where `main` finds the root directory: the cursor after the boot sector, moved on. */
    function RootOffset(): int {
      512 * startSector + BOOT_SECTOR_SIZE + (reservedSectors - 1 + fatSizeSectors * numberOfFats) * sectorSize
    }
  }

  predicate IsEndOfChain(cluster: nat) {
    cluster >= 0xFFFF
  }

  /** Where a chain loop stops: in the root directory at any value from 0xFFF8 on, in a subdirectory
      only at 0xFFFF. */
  predicate Stops(inRoot: bool, cluster: nat) {
    if inRoot then cluster >= 0xFFF8 else IsEndOfChain(cluster)
  }

  function Word(image: seq<byte>, at: nat): nat
    requires at + 2 <= |image|
  {
    image[at] as int + 256 * (image[at + 1] as int)
  }

  /** The cluster's table entry and its data lie on the image. */
  predicate Readable(image: seq<byte>, v: Volume, c: nat)
    requires v.Usable()
  {
    v.FatEntryOffset(c) + 2 <= |image| && 0 <= v.ClusterOffset(c) && v.ClusterOffset(c) + v.ClusterSize() <= |image|
  }

  function Next(image: seq<byte>, v: Volume, c: nat): nat
    requires v.Usable() && Readable(image, v, c)
  {
    Word(image, v.FatEntryOffset(c))
  }

  /** The first `n` clusters of the chain from `c`, if it has that many, are on the image. */
  ghost predicate ChainReadable(image: seq<byte>, v: Volume, inRoot: bool, c: nat, n: nat)
    requires v.Usable()
    decreases n
  {
    n == 0 || Stops(inRoot, c) ||
    (Readable(image, v, c) && ChainReadable(image, v, inRoot, Next(image, v, c), n - 1))
  }

  // ----- the simple specification -----------------------------------------------------------------

  /** The first `n` clusters of the chain from `c`, or all of them if there are fewer. */
  ghost function Chain(image: seq<byte>, v: Volume, inRoot: bool, c: nat, n: nat): (cs: seq<nat>)
    requires v.Usable() && ChainReadable(image, v, inRoot, c, n)
    ensures |cs| <= n
    ensures forall k :: 0 <= k < |cs| ==> Readable(image, v, cs[k])
    decreases n
  {
    if n == 0 || Stops(inRoot, c) then [] else [c] + Chain(image, v, inRoot, Next(image, v, c), n - 1)
  }

  ghost function Data(image: seq<byte>, v: Volume, c: nat): (d: seq<byte>)
    requires v.Usable() && Readable(image, v, c)
    ensures |d| == v.ClusterSize()
  {
    image[v.ClusterOffset(c)..v.ClusterOffset(c) + v.ClusterSize()]
  }

  /** The clusters' data, one after the other. */
  ghost function Concatenated(image: seq<byte>, v: Volume, cs: seq<nat>): (d: seq<byte>)
    requires v.Usable() && forall k :: 0 <= k < |cs| ==> Readable(image, v, cs[k])
    ensures |d| == |cs| * v.ClusterSize()
  {
    if cs == [] then []
    else
      TimesOneMore(|cs| - 1, v.ClusterSize());
      Data(image, v, cs[0]) + Concatenated(image, v, cs[1..])
  }

  lemma TimesOneMore(k: int, size: int)
    ensures (k + 1) * size == k * size + size
  {
  }

  function Min(x: int, y: int): int { if x < y then x else y }

  function Take(d: seq<byte>, n: nat): seq<byte> {
    d[..Min(|d|, n)]
  }

  /** `n` clusters hold at least `size` bytes. */
  predicate Enough(v: Volume, n: nat, size: nat) {
    n * v.ClusterSize() >= size
  }

  // ----- the loop as a function -----------------------------------------------------------------

  /** The bytes the chain loop emits when it stands at cluster `c` with `left` bytes to go. */
  ghost function FileBytes(image: seq<byte>, v: Volume, inRoot: bool, c: nat, left: nat, n: nat): seq<byte>
    requires v.Usable() && Enough(v, n, left) && ChainReadable(image, v, inRoot, c, n)
    decreases n
  {
    if Stops(inRoot, c) || left == 0 then []
    else
      var now := Min(left, v.ClusterSize());
      OneClusterLess(v, n, left);
      Data(image, v, c)[..now] + FileBytes(image, v, inRoot, Next(image, v, c), left - now, n - 1)
  }

  lemma OneClusterLess(v: Volume, n: nat, left: nat)
    requires v.Usable() && Enough(v, n, left) && left > 0
    ensures n > 0 && v.ClusterSize() > 0 && Enough(v, n - 1, left - Min(left, v.ClusterSize()))
  {
    TimesOneMore(n - 1, v.ClusterSize());
    assert v.ClusterSize() > 0;
  }

  lemma FileBytesStep(image: seq<byte>, v: Volume, inRoot: bool, c: nat, left: nat, n: nat)
    requires v.Usable() && Enough(v, n, left) && ChainReadable(image, v, inRoot, c, n)
    requires !Stops(inRoot, c) && left > 0
    ensures n > 0 && Readable(image, v, c)
    ensures var now := Min(left, v.ClusterSize());
            && 0 < now && Enough(v, n - 1, left - now)
            && ChainReadable(image, v, inRoot, Next(image, v, c), n - 1)
            && FileBytes(image, v, inRoot, c, left, n)
               == image[v.ClusterOffset(c)..v.ClusterOffset(c) + now]
                  + FileBytes(image, v, inRoot, Next(image, v, c), left - now, n - 1)
  {
    OneClusterLess(v, n, left);
  }

  lemma FileBytesEnd(image: seq<byte>, v: Volume, inRoot: bool, c: nat, left: nat, n: nat)
    requires v.Usable() && Enough(v, n, left) && ChainReadable(image, v, inRoot, c, n)
    requires Stops(inRoot, c) || left == 0
    ensures FileBytes(image, v, inRoot, c, left, n) == []
  {
  }

  /** Where a readable cluster lies, and what follows it. */
  lemma ReadableBounds(image: seq<byte>, v: Volume, c: nat, left: nat)
    requires v.Usable() && Readable(image, v, c)
    ensures 0 <= v.ClusterOffset(c) <= v.ClusterOffset(c) + v.ClusterSize() <= |image|
    ensures v.startSector * 512 + v.FatStart() + c * 2 + 2 <= |image|
    ensures Next(image, v, c) == Word(image, v.startSector * 512 + v.FatStart() + c * 2)
    ensures Min(left, v.ClusterSize()) == if left < v.ClusterSize() then left else v.ClusterSize()
  {
  }

  lemma TakeConcat(a: seq<byte>, b: seq<byte>, left: nat)
    ensures Take(a + b, left) == a[..Min(|a|, left)] + Take(b, left - Min(|a|, left))
  {
  }

  /** The loop refines the specification: it emits the first `left` bytes of the chain's clusters
      concatenated, or all of them if the chain is shorter. */
  lemma {:induction false} FileBytesArePrefix(image: seq<byte>, v: Volume, inRoot: bool, c: nat, left: nat, n: nat)
    requires v.Usable() && Enough(v, n, left) && ChainReadable(image, v, inRoot, c, n)
    ensures FileBytes(image, v, inRoot, c, left, n)
         == Take(Concatenated(image, v, Chain(image, v, inRoot, c, n)), left)
    decreases n
  {
    if !Stops(inRoot, c) && left > 0 {
      var now := Min(left, v.ClusterSize());
      OneClusterLess(v, n, left);
      var rest := Chain(image, v, inRoot, Next(image, v, c), n - 1);
      FileBytesArePrefix(image, v, inRoot, Next(image, v, c), left - now, n - 1);
      assert Chain(image, v, inRoot, c, n)[1..] == rest;
      TakeConcat(Data(image, v, c), Concatenated(image, v, rest), left);
    }
  }

  /** How many bytes come out: the file's size, or all the chain has. */
  lemma FileBytesLength(image: seq<byte>, v: Volume, inRoot: bool, c: nat, size: nat, n: nat)
    requires v.Usable() && Enough(v, n, size) && ChainReadable(image, v, inRoot, c, n)
    ensures |FileBytes(image, v, inRoot, c, size, n)|
         == Min(size, |Chain(image, v, inRoot, c, n)| * v.ClusterSize())
  {
    FileBytesArePrefix(image, v, inRoot, c, size, n);
  }

  /** The value at which the root loop's walk of at most `n` clusters stands in the end. */
  ghost function RootEnd(image: seq<byte>, v: Volume, c: nat, n: nat): nat
    requires v.Usable() && ChainReadable(image, v, true, c, n)
    decreases n
  {
    if n == 0 || Stops(true, c) then c else RootEnd(image, v, Next(image, v, c), n - 1)
  }

  lemma SamePrefix(a: seq<byte>, b: seq<byte>, c: seq<byte>)
    ensures a + b == a + c <==> b == c
  {
    if a + b == a + c {
      assert b == (a + b)[|a|..] == (a + c)[|a|..] == c;
    }
  }

  /** In spite of their different end markers both loops emit the same bytes if and only if the root loop
      emits all bytes of the file, or its chain ends with the one marker both loops know. */
  lemma {:induction false} MarkersAgreeIff(image: seq<byte>, v: Volume, c: nat, left: nat, n: nat)
    requires v.Usable() && Enough(v, n, left)
    requires ChainReadable(image, v, true, c, n) && ChainReadable(image, v, false, c, n)
    ensures FileBytes(image, v, false, c, left, n) == FileBytes(image, v, true, c, left, n)
       <==> |FileBytes(image, v, true, c, left, n)| == left || IsEndOfChain(RootEnd(image, v, c, n))
    decreases n
  {
    if left > 0 && !Stops(true, c) {
      OneClusterLess(v, n, left);
      var now, next := Min(left, v.ClusterSize()), Next(image, v, c);
      MarkersAgreeIff(image, v, next, left - now, n - 1);
      SamePrefix(Data(image, v, c)[..now], FileBytes(image, v, false, next, left - now, n - 1),
                 FileBytes(image, v, true, next, left - now, n - 1));
    } else if left > 0 && !Stops(false, c) {
      OneClusterLess(v, n, left);
    }
  }

  lemma {:induction false} LongChainIsReadable(image: seq<byte>, v: Volume, c: nat, n: nat)
    requires v.Usable() && ChainReadable(image, v, true, c, n) && |Chain(image, v, true, c, n)| == n
    ensures ChainReadable(image, v, false, c, n)
    decreases n
  {
    if n > 0 {
      LongChainIsReadable(image, v, Next(image, v, c), n - 1);
    }
  }

  /** A chain long enough for the file lets the root loop emit all its bytes, and then both loops agree. */
  lemma LongChainsAgree(image: seq<byte>, v: Volume, c: nat, left: nat, n: nat)
    requires v.Usable() && Enough(v, n, left)
    requires ChainReadable(image, v, true, c, n) && |Chain(image, v, true, c, n)| == n
    ensures ChainReadable(image, v, false, c, n)
    ensures FileBytes(image, v, false, c, left, n) == FileBytes(image, v, true, c, left, n)
  {
    hide FileBytes, Chain, ChainReadable, Readable, RootEnd;
    LongChainIsReadable(image, v, c, n);
    FileBytesLength(image, v, true, c, left, n);
    MarkersAgreeIff(image, v, c, left, n);
  }

  // ----- files in terms of the disk -----------------------------------------------------------------

  /** The address of a cluster's entry in the first copy of the table. */
  function TableAddress(v: Volume, c: nat): nat {
    512 * v.startSector + v.reservedSectors * v.sectorSize + 2 * c
  }

  /** The address of a byte of a cluster: clusters lie, from number 2 on, behind the tables and the root
      directory. */
  function DataAddress(v: Volume, c: nat, offset: nat): int
    requires v.sectorSize > 0
  {
    (v.startSector + v.reservedSectors + v.numberOfFats * v.fatSizeSectors + v.rootDirEntries * 32 / v.sectorSize
     + v.sectorsPerCluster * (c - 2)) * v.sectorSize + offset
  }

  /** The cluster's table entry and its bytes are on the image. */
  ghost predicate OnDisk(image: seq<byte>, v: Volume, c: nat)
    requires v.sectorSize > 0
  {
    && TableAddress(v, c) + 1 < |image|
    && 0 <= DataAddress(v, c, 0) && DataAddress(v, c, v.sectorsPerCluster * v.sectorSize) <= |image|
  }

  /** The table entry of cluster `c` on the disk is `next`. */
  ghost predicate LinksTo(image: seq<byte>, v: Volume, c: nat, next: nat) {
    && TableAddress(v, c) + 1 < |image|
    && next == image[TableAddress(v, c)] as int + 0x100 * (image[TableAddress(v, c) + 1] as int)
  }

  /** From `start` on the table links exactly the clusters `cs`, each below `marker`, and then leads to `end`. */
  ghost predicate Linked(image: seq<byte>, v: Volume, start: nat, cs: seq<nat>, end: nat, marker: nat)
    requires v.sectorSize > 0
  {
    var stops := cs + [end];
    && start == stops[0]
    && forall k :: 0 <= k < |cs| ==>
         cs[k] < marker && OnDisk(image, v, cs[k]) && LinksTo(image, v, cs[k], stops[k + 1])
  }

  /** `out` are the first `size` bytes of the clusters, in this order, or all if there are fewer. */
  ghost predicate IsFile(image: seq<byte>, v: Volume, cs: seq<nat>, size: nat, out: seq<byte>)
    requires v.sectorSize > 0
  {
    var unit := v.sectorsPerCluster * v.sectorSize;
    && |out| == (if size < |cs| * unit then size else |cs| * unit)
    && forall q: nat, r: nat :: q < |cs| && r < unit ==> ComesFrom(image, v, out, q * unit, cs[q], r)
  }

  /** If there is an `r`-th byte behind `at`, it is the `r`-th byte of cluster `c`. */
  ghost predicate ComesFrom(image: seq<byte>, v: Volume, out: seq<byte>, at: nat, c: nat, r: nat)
    requires v.sectorSize > 0
  {
    at + r < |out| ==> 0 <= DataAddress(v, c, r) < |image| && out[at + r] == image[DataAddress(v, c, r)]
  }

  lemma AddressesAre(v: Volume, c: nat, offset: nat)
    requires v.Usable()
    ensures v.FatEntryOffset(c) == TableAddress(v, c)
    ensures v.ClusterOffset(c) + offset == DataAddress(v, c, offset)
    ensures v.ClusterSize() == v.sectorsPerCluster * v.sectorSize
  {
    var sectors := v.startSector + v.reservedSectors + v.numberOfFats * v.fatSizeSectors
                   + v.rootDirEntries * 32 / v.sectorSize;
    Regroup(c - 2, v.sectorsPerCluster, v.sectorSize);
    Regroup(v.sectorsPerCluster, c - 2, v.sectorSize);
    Scale(sectors, v.sectorsPerCluster * (c - 2), v.sectorSize);
  }

  lemma OnDiskIsReadable(image: seq<byte>, v: Volume, c: nat, next: nat)
    requires v.Usable()
    ensures OnDisk(image, v, c) <==> Readable(image, v, c)
    ensures Readable(image, v, c) ==> (LinksTo(image, v, c, next) <==> Next(image, v, c) == next)
  {
    AddressesAre(v, c, 0);
    AddressesAre(v, c, v.ClusterSize());
  }

  lemma LinkedUnfolds(image: seq<byte>, v: Volume, start: nat, cs: seq<nat>, end: nat, marker: nat)
    requires v.Usable() && Linked(image, v, start, cs, end, marker)
    ensures cs == [] ==> start == end
    ensures cs != [] ==> && start == cs[0] < marker && Readable(image, v, start)
                         && Linked(image, v, Next(image, v, start), cs[1..], end, marker)
  {
    if cs != [] {
      var stops := cs + [end];
      assert stops[1..] == cs[1..] + [end];
      assert stops[0] == cs[0] && stops[1] == (cs[1..] + [end])[0];
      OnDiskIsReadable(image, v, start, stops[1]);
      hide OnDisk, LinksTo, Readable, Next;
      forall k | 0 <= k < |cs[1..]|
        ensures cs[1..][k] < marker && OnDisk(image, v, cs[1..][k])
        ensures LinksTo(image, v, cs[1..][k], (cs[1..] + [end])[k + 1])
      {
        assert cs[1..][k] == cs[k + 1] && stops[k + 2] == (cs[1..] + [end])[k + 1];
      }
    }
  }

  /** The chain the loop follows is the one the table links. */
  lemma {:induction false} ChainIsLinked(image: seq<byte>, v: Volume, inRoot: bool, start: nat, cs: seq<nat>, end: nat,
                                         n: nat)
    requires v.Usable() && Linked(image, v, start, cs, end, Marker(inRoot))
    requires end >= Marker(inRoot) || n <= |cs|
    ensures ChainReadable(image, v, inRoot, start, n)
    ensures Chain(image, v, inRoot, start, n) == cs[..Min(n, |cs|)]
    decreases |cs|
  {
    hide Linked, Readable, Next;
    LinkedUnfolds(image, v, start, cs, end, Marker(inRoot));
    if cs != [] && n > 0 {
      ChainIsLinked(image, v, inRoot, Next(image, v, start), cs[1..], end, n - 1);
      assert cs[..Min(n, |cs|)] == [cs[0]] + cs[1..][..Min(n - 1, |cs| - 1)];
    }
  }

  lemma InsideLonger(q: nat, r: nat, m: nat, unit: nat)
    requires q < m && r < unit
    ensures q * unit + r < m * unit
  {
    LongEnough(q + 1, m, unit);
    TimesOneMore(q, unit);
  }

  lemma ByteOfData(image: seq<byte>, v: Volume, c: nat, r: nat)
    requires v.Usable() && Readable(image, v, c) && r < v.ClusterSize()
    ensures 0 <= v.ClusterOffset(c) + r < |image| && Data(image, v, c)[r] == image[v.ClusterOffset(c) + r]
  {
  }

  /** Byte `r` of cluster `q`, which is byte `at` of the concatenation. */
  lemma {:induction false} ConcatenatedAt(image: seq<byte>, v: Volume, cs: seq<nat>, q: nat, r: nat, at: nat)
    requires v.Usable() && q < |cs| && r < v.ClusterSize() && at == q * v.ClusterSize() + r
    requires forall k :: 0 <= k < |cs| ==> Readable(image, v, cs[k])
    ensures at < |Concatenated(image, v, cs)|
    ensures Concatenated(image, v, cs)[at] == Data(image, v, cs[q])[r]
    decreases q
  {
    hide Data, Readable, Concatenated;
    var first, rest := Data(image, v, cs[0]), Concatenated(image, v, cs[1..]);
    ConcatenatedSplits(image, v, cs);
    InsideLonger(q, r, |cs|, v.ClusterSize());
    if q == 0 {
      assert (first + rest)[at] == first[at];
    } else {
      var before := at - v.ClusterSize();
      TimesOneMore(q - 1, v.ClusterSize());
      ConcatenatedAt(image, v, cs[1..], q - 1, r, before);
      assert (first + rest)[at] == rest[before];
    }
  }

  lemma ConcatenatedSplits(image: seq<byte>, v: Volume, cs: seq<nat>)
    requires v.Usable() && cs != [] && forall k :: 0 <= k < |cs| ==> Readable(image, v, cs[k])
    ensures Concatenated(image, v, cs) == Data(image, v, cs[0]) + Concatenated(image, v, cs[1..])
  {
  }

  function Marker(inRoot: bool): nat { if inRoot then 0xFFF8 else 0xFFFF }

  lemma EnoughClusters(image: seq<byte>, v: Volume, inRoot: bool, start: nat, cs: seq<nat>, end: nat, size: nat, n: nat)
    requires v.Usable() && Enough(v, n, size) && Linked(image, v, start, cs, end, Marker(inRoot))
    requires end >= Marker(inRoot) || n <= |cs|
    ensures ChainReadable(image, v, inRoot, start, n)
    ensures IsFile(image, v, cs, size, Take(Concatenated(image, v, Chain(image, v, inRoot, start, n)), size))
  {
    ChainIsLinked(image, v, inRoot, start, cs, end, n);
    var m := Min(n, |cs|);
    assert forall k :: 0 <= k < m ==> cs[k] == cs[..m][k];
    hide Linked, Chain, ChainReadable, Readable, Concatenated, IsFile;
    PrefixIsFile(image, v, cs, m, size);
  }

  /** The bytes do not depend on how many clusters are allowed for, as long as they are enough. */
  lemma {:induction false} AnyEnough(image: seq<byte>, v: Volume, inRoot: bool, c: nat, left: nat, n: nat, m: nat)
    requires v.Usable() && Enough(v, n, left) && ChainReadable(image, v, inRoot, c, n)
    requires Enough(v, m, left) && ChainReadable(image, v, inRoot, c, m)
    ensures FileBytes(image, v, inRoot, c, left, n) == FileBytes(image, v, inRoot, c, left, m)
    decreases n
  {
    if !Stops(inRoot, c) && left > 0 {
      OneClusterLess(v, n, left);
      OneClusterLess(v, m, left);
      AnyEnough(image, v, inRoot, Next(image, v, c), left - Min(left, v.ClusterSize()), n - 1, m - 1);
    }
  }

  /** The table links `cs` from the first cluster of a file of `size` bytes on, and leads from there to `end`:
      a value from 0xFFF8 on in the root directory, 0xFFFF in a subdirectory, or more clusters than the file fills. */
  ghost predicate LinkedFile(image: seq<byte>, v: Volume, inRoot: bool, start: nat, size: nat, cs: seq<nat>, end: nat)
    requires v.sectorSize > 0
  {
    var marker := if inRoot then 0xFFF8 else 0xFFFF;
    && Linked(image, v, start, cs, end, marker)
    && (end >= marker || |cs| * (v.sectorsPerCluster * v.sectorSize) >= size)
  }

  /** What the loop emits, said of the disk alone: the first `size` bytes of the clusters that the table links. */
  lemma FileIsItsClusters(image: seq<byte>, v: Volume, inRoot: bool, start: nat, cs: seq<nat>, end: nat, size: nat,
                          n: nat)
    requires v.Usable() && Enough(v, n, size) && ChainReadable(image, v, inRoot, start, n)
    requires LinkedFile(image, v, inRoot, start, size, cs, end)
    ensures IsFile(image, v, cs, size, Take(Concatenated(image, v, Chain(image, v, inRoot, start, n)), size))
  {
    assert Linked(image, v, start, cs, end, Marker(inRoot));
    hide Linked, FileBytes, Chain, ChainReadable, Concatenated, IsFile, Take;
    if end >= Marker(inRoot) {
      EnoughClusters(image, v, inRoot, start, cs, end, size, n);
    } else {
      EnoughClusters(image, v, inRoot, start, cs, end, size, |cs|);
      AnyEnough(image, v, inRoot, start, size, n, |cs|);
      FileBytesArePrefix(image, v, inRoot, start, size, n);
      FileBytesArePrefix(image, v, inRoot, start, size, |cs|);
    }
  }

  /** `out` is the file of `size` bytes from cluster `start` on, whatever clusters the table links. */
  ghost predicate EmitsFile(image: seq<byte>, v: Volume, inRoot: bool, start: nat, size: nat, out: seq<byte>)
    requires v.sectorSize > 0
  {
    forall cs, end: nat | LinkedFile(image, v, inRoot, start, size, cs, end) :: IsFile(image, v, cs, size, out)
  }

  lemma FilesAreTheirClusters(image: seq<byte>, v: Volume, inRoot: bool, start: nat, size: nat, n: nat)
    requires v.Usable() && Enough(v, n, size) && ChainReadable(image, v, inRoot, start, n)
    ensures EmitsFile(image, v, inRoot, start, size,
                      Take(Concatenated(image, v, Chain(image, v, inRoot, start, n)), size))
  {
    hide IsFile, LinkedFile, Chain, ChainReadable, Concatenated, Take;
    forall cs, end: nat | LinkedFile(image, v, inRoot, start, size, cs, end)
      ensures IsFile(image, v, cs, size, Take(Concatenated(image, v, Chain(image, v, inRoot, start, n)), size))
    {
      FileIsItsClusters(image, v, inRoot, start, cs, end, size, n);
    }
  }

  lemma PrefixIsFile(image: seq<byte>, v: Volume, cs: seq<nat>, m: nat, size: nat)
    requires v.Usable() && m <= |cs| && (m == |cs| || m * v.ClusterSize() >= size)
    requires forall k :: 0 <= k < m ==> Readable(image, v, cs[k])
    ensures IsFile(image, v, cs, size, Take(Concatenated(image, v, cs[..m]), size))
  {
    var out := Take(Concatenated(image, v, cs[..m]), size);
    AddressesAre(v, 2, 0);
    LongEnough(m, |cs|, v.ClusterSize());
    hide Concatenated, Readable, ComesFrom;
    forall q: nat, r: nat | q < |cs| && r < v.ClusterSize()
      ensures ComesFrom(image, v, out, q * v.ClusterSize(), cs[q], r)
    {
      PrefixByte(image, v, cs, m, size, q, r);
    }
  }

  lemma ByteIsAt(image: seq<byte>, v: Volume, cs: seq<nat>, q: nat, r: nat, at: nat)
    requires v.Usable() && q < |cs| && r < v.ClusterSize() && at == q * v.ClusterSize() + r
    requires forall k :: 0 <= k < |cs| ==> Readable(image, v, cs[k])
    ensures at < |Concatenated(image, v, cs)|
    ensures 0 <= DataAddress(v, cs[q], r) < |image|
    ensures Concatenated(image, v, cs)[at] == image[DataAddress(v, cs[q], r)]
  {
    ConcatenatedAt(image, v, cs, q, r, at);
    ByteOfData(image, v, cs[q], r);
    AddressesAre(v, cs[q], r);
    hide *;
  }

  lemma PrefixByte(image: seq<byte>, v: Volume, cs: seq<nat>, m: nat, size: nat, q: nat, r: nat)
    requires v.Usable() && m <= |cs| && q < |cs| && r < v.ClusterSize()
    requires forall k :: 0 <= k < m ==> Readable(image, v, cs[k])
    ensures ComesFrom(image, v, Take(Concatenated(image, v, cs[..m]), size), q * v.ClusterSize(), cs[q], r)
  {
    hide Concatenated, Readable, Take, DataAddress;
    var all, unit := Concatenated(image, v, cs[..m]), v.ClusterSize();
    var at := q * unit + r;
    if at < |Take(all, size)| {
      TakeAt(all, size, at);
      InsideFirst(q, r, m, unit);
      ByteIsAt(image, v, cs[..m], q, r, at);
    }
  }

  lemma TakeAt(d: seq<byte>, n: nat, k: nat)
    requires k < |Take(d, n)|
    ensures k < |d| && Take(d, n)[k] == d[k]
  {
  }

  lemma InsideFirst(q: nat, r: nat, m: nat, unit: nat)
    requires q * unit + r < m * unit
    ensures q < m
  {
    Scale(q - m, m, unit);
    assert q >= m ==> (q - m) * unit >= 0;
  }

  lemma LongEnough(n: nat, m: nat, unit: nat)
    ensures n <= m ==> m * unit >= n * unit
  {
    if n <= m {
      Scale(m - n, n, unit);
      assert (m - n) * unit >= 0;
    }
  }

  // ----- directories ----------------------------------------------------------------------------

  /** A directory entry: its 32 bytes on disk and the two numbers the reader takes from them. */
  datatype Entry = Entry(raw: seq<byte>, startingCluster: nat, fileSize: nat)

  function ParseEntry(raw: seq<byte>): Entry
    requires |raw| == ENTRY_SIZE
  {
    Entry(raw, Word(raw, 26), Word(raw, 28) + 0x1_0000 * Word(raw, 30))
  }

  /** A number below 65536 as the disk stores it. */
  function WordBytes(n: nat): (bs: seq<byte>)
    requires n < 0x1_0000
    ensures |bs| == 2 && Word(bs, 0) == n
  {
    [(n % 256) as byte, (n / 256) as byte]
  }

  /** An entry as FAT writes it: name, extension, attributes, reserved bytes, time, date, cluster, size. */
  function EntryBytes(name: seq<byte>, ext: seq<byte>, attributes: byte, reserved: seq<byte>,
                      time: nat, date: nat, cluster: nat, size: nat): (raw: seq<byte>)
    requires |name| == 8 && |ext| == 3 && |reserved| == 10
    requires time < 0x1_0000 && date < 0x1_0000 && cluster < 0x1_0000 && size < 0x1_0000_0000
    ensures |raw| == ENTRY_SIZE
  {
    name + ext + [attributes] + reserved + WordBytes(time) + WordBytes(date) + WordBytes(cluster)
    + WordBytes(size % 0x1_0000) + WordBytes(size / 0x1_0000)
  }

  /** Cluster and size are found where they are written. */
  lemma EntryRoundTrip(name: seq<byte>, ext: seq<byte>, attributes: byte, reserved: seq<byte>,
                       time: nat, date: nat, cluster: nat, size: nat)
    requires |name| == 8 && |ext| == 3 && |reserved| == 10
    requires time < 0x1_0000 && date < 0x1_0000 && cluster < 0x1_0000 && size < 0x1_0000_0000
    ensures var e := ParseEntry(EntryBytes(name, ext, attributes, reserved, time, date, cluster, size));
            e.startingCluster == cluster && e.fileSize == size && e.raw[..8] == name
  {
    var front := name + ext + [attributes] + reserved + WordBytes(time) + WordBytes(date);
    var c, lo, hi := WordBytes(cluster), WordBytes(size % 0x1_0000), WordBytes(size / 0x1_0000);
    var raw := EntryBytes(name, ext, attributes, reserved, time, date, cluster, size);
    assert |front| == 26 && raw == front + c + lo + hi;
    assert raw[26] == c[0] && raw[27] == c[1] && raw[28] == lo[0] && raw[29] == lo[1];
    assert raw[30] == hi[0] && raw[31] == hi[1];
  }

  /** The search stops at a used entry whose name compares equal; `named` is that comparison. */
  predicate Hit(e: Entry, named: Entry -> bool) {
    |e.raw| > 0 && e.raw[0] != 0 && named(e)
  }

  /** `count` entries from byte `at` on. */
  function Entries(image: seq<byte>, at: int, count: nat): (es: seq<Entry>)
    requires 0 <= at && at + count * ENTRY_SIZE <= |image|
    ensures |es| == count
    ensures forall k :: 0 <= k < count ==>
              es[k] == ParseEntry(image[at + k * ENTRY_SIZE..at + (k + 1) * ENTRY_SIZE])
  {
    seq(count, k requires 0 <= k < count => ParseEntry(image[at + k * ENTRY_SIZE..at + (k + 1) * ENTRY_SIZE]))
  }

  lemma NthEntry(image: seq<byte>, at: nat, count: nat, i: nat)
    requires at + count * ENTRY_SIZE <= |image| && i < count
    ensures at + i * ENTRY_SIZE + ENTRY_SIZE <= |image|
    ensures Entries(image, at, count)[i] == ParseEntry(image[at + i * ENTRY_SIZE..at + i * ENTRY_SIZE + ENTRY_SIZE])
    ensures Entries(image, at, count)[i].raw == image[at + i * ENTRY_SIZE..at + i * ENTRY_SIZE + ENTRY_SIZE]
  {
  }

  /** The index of the first hit, or the number of entries if there is none. */
  function FirstHit(es: seq<Entry>, named: Entry -> bool): (k: nat)
    ensures k <= |es|
    ensures k < |es| ==> Hit(es[k], named) && es[k].raw[0] != 0 && named(es[k])
    ensures forall j :: 0 <= j < k ==> !Hit(es[j], named)
    ensures forall j :: 0 <= j < k && es[j].raw != [] ==> es[j].raw[0] == 0 || !named(es[j])
  {
    if es == [] || Hit(es[0], named) then 0 else 1 + FirstHit(es[1..], named)
  }

  lemma FirstHitIs(es: seq<Entry>, named: Entry -> bool, k: nat)
    requires k <= |es| && (k < |es| ==> Hit(es[k], named)) && forall j :: 0 <= j < k ==> !Hit(es[j], named)
    ensures FirstHit(es, named) == k
  {
  }

  /** How many clusters a file of `size` bytes fills. */
  function ClustersFor(v: Volume, size: nat): nat
    requires v.Usable()
  {
    ClusterSizePositive(v);
    (size + v.ClusterSize() - 1) / v.ClusterSize()
  }

  lemma ClusterSizePositive(v: Volume)
    requires v.Usable()
    ensures v.ClusterSize() > 0
  {
  }

  lemma RoundedUp(size: nat, unit: nat)
    requires unit > 0
    ensures var n := (size + unit - 1) / unit; n * unit >= size && (n == 0 || (n - 1) * unit < size)
  {
    var n := (size + unit - 1) / unit;
    assert n * unit + (size + unit - 1) % unit == size + unit - 1;
    TimesOneMore(n - 1, unit);
  }

  /** As many clusters as the size fills are enough, and one fewer would not be. */
  lemma ClustersForSuffice(v: Volume, size: nat)
    requires v.Usable()
    ensures var n := ClustersFor(v, size); Enough(v, n, size) && (n > 0 ==> !Enough(v, n - 1, size))
  {
    ClusterSizePositive(v);
    RoundedUp(size, v.ClusterSize());
  }

  /** All clusters a file's bytes come from are on the image. */
  ghost predicate FileReadable(image: seq<byte>, v: Volume, inRoot: bool, e: Entry)
    requires v.Usable()
  {
    ChainReadable(image, v, inRoot, e.startingCluster, ClustersFor(v, e.fileSize))
  }

  /** What `read` should emit for an entry: the first `FileSize` bytes of its clusters in chain order. */
  ghost function FileContents(image: seq<byte>, v: Volume, inRoot: bool, e: Entry): seq<byte>
    requires v.Usable() && FileReadable(image, v, inRoot, e)
  {
    Take(Concatenated(image, v, Chain(image, v, inRoot, e.startingCluster, ClustersFor(v, e.fileSize))), e.fileSize)
  }

  ghost predicate AllReadable(image: seq<byte>, v: Volume, inRoot: bool, es: seq<Entry>, named: Entry -> bool)
    requires v.Usable()
  {
    forall k :: 0 <= k < |es| && Hit(es[k], named) ==> FileReadable(image, v, inRoot, es[k])
  }

  /** What `read` should emit for a directory: the first hit's file, if there is a hit. */
  ghost function Lookup(image: seq<byte>, v: Volume, inRoot: bool, es: seq<Entry>, named: Entry -> bool)
    : Option<seq<byte>>
    requires v.Usable() && AllReadable(image, v, inRoot, es, named)
  {
    var k := FirstHit(es, named);
    if k < |es| then Some(FileContents(image, v, inRoot, es[k])) else None
  }

  lemma LookupHit(image: seq<byte>, v: Volume, inRoot: bool, es: seq<Entry>, named: Entry -> bool, e: Entry)
    requires v.Usable() && AllReadable(image, v, inRoot, es, named)
    requires FirstHit(es, named) < |es| && es[FirstHit(es, named)] == e
    ensures var n := ClustersFor(v, e.fileSize);
            && Enough(v, n, e.fileSize)
            && ChainReadable(image, v, inRoot, e.startingCluster, n)
            && Lookup(image, v, inRoot, es, named)
               == Some(Take(Concatenated(image, v, Chain(image, v, inRoot, e.startingCluster, n)), e.fileSize))
  {
    ClustersForSuffice(v, e.fileSize);
  }

  /** Entry `k` is used and compares equal, and no entry before it is. */
  ghost predicate FirstMatch(es: seq<Entry>, named: Entry -> bool, k: nat) {
    && k < |es| && es[k].raw != [] && es[k].raw[0] != 0 && named(es[k])
    && forall j :: 0 <= j < k && es[j].raw != [] ==> es[j].raw[0] == 0 || !named(es[j])
  }

  /** What a lookup gives, said of the entries and the disk alone: nothing if no used entry compares equal, and
      otherwise the file of the first that does. */
  lemma LookupIsFirstMatch(image: seq<byte>, v: Volume, inRoot: bool, es: seq<Entry>, named: Entry -> bool)
    requires v.Usable() && AllReadable(image, v, inRoot, es, named)
    ensures match Lookup(image, v, inRoot, es, named)
            case None => forall j :: 0 <= j < |es| && es[j].raw != [] ==> es[j].raw[0] == 0 || !named(es[j])
            case Some(data) =>
              exists k: nat :: FirstMatch(es, named, k)
                               && EmitsFile(image, v, inRoot, es[k].startingCluster, es[k].fileSize, data)
  {
    hide FileReadable, FileContents, EmitsFile;
    var k := FirstHit(es, named);
    if k < |es| {
      assert FileReadable(image, v, inRoot, es[k]);
      FileIsEmitted(image, v, inRoot, es[k]);
      assert FirstMatch(es, named, k);
    }
  }

  lemma FileIsEmitted(image: seq<byte>, v: Volume, inRoot: bool, e: Entry)
    requires v.Usable() && FileReadable(image, v, inRoot, e)
    ensures EmitsFile(image, v, inRoot, e.startingCluster, e.fileSize, FileContents(image, v, inRoot, e))
  {
    ClustersForSuffice(v, e.fileSize);
    FilesAreTheirClusters(image, v, inRoot, e.startingCluster, e.fileSize, ClustersFor(v, e.fileSize));
  }

  lemma LookupMiss(image: seq<byte>, v: Volume, inRoot: bool, es: seq<Entry>, named: Entry -> bool)
    requires v.Usable() && AllReadable(image, v, inRoot, es, named) && FirstHit(es, named) == |es|
    ensures Lookup(image, v, inRoot, es, named) == None
  {
  }

  function EntriesPerCluster(v: Volume): nat { v.ClusterSize() / ENTRY_SIZE }

  function ClusterEntries(image: seq<byte>, v: Volume, c: nat): seq<Entry>
    requires v.Usable() && Readable(image, v, c)
  {
    Entries(image, v.ClusterOffset(c), EntriesPerCluster(v))
  }

  /** The directory search from cluster `c` comes to its end, by a hit or by the end marker, within `d`
      clusters.  It would go on for ever on a cyclic directory without a hit. */
  ghost predicate SearchEnds(image: seq<byte>, v: Volume, c: nat, named: Entry -> bool, d: nat)
    requires v.Usable()
    decreases d
  {
    Stops(false, c) ||
    (d > 0 && Readable(image, v, c) &&
     (FirstHit(ClusterEntries(image, v, c), named) < EntriesPerCluster(v) ||
      SearchEnds(image, v, Next(image, v, c), named, d - 1)))
  }

  /** The entries the search passes, in directory order. */
  ghost function SearchedEntries(image: seq<byte>, v: Volume, c: nat, named: Entry -> bool, d: nat): seq<Entry>
    requires v.Usable() && SearchEnds(image, v, c, named, d)
    decreases d
  {
    if Stops(false, c) then []
    else
      var es := ClusterEntries(image, v, c);
      if FirstHit(es, named) < |es| then es
      else es + SearchedEntries(image, v, Next(image, v, c), named, d - 1)
  }

  /** The lookup in the entries searched from cluster `c` on, provided the file it hits is readable. */
  ghost predicate SearchFinds(image: seq<byte>, v: Volume, c: nat, named: Entry -> bool, d: nat,
                              found: Option<seq<byte>>)
    requires v.Usable()
  {
    && SearchEnds(image, v, c, named, d)
    && AllReadable(image, v, false, SearchedEntries(image, v, c, named, d), named)
    && Lookup(image, v, false, SearchedEntries(image, v, c, named, d), named) == found
  }

  lemma SearchHits(image: seq<byte>, v: Volume, c: nat, named: Entry -> bool, d: nat, found: Option<seq<byte>>)
    requires v.Usable() && SearchFinds(image, v, c, named, d, found) && !IsEndOfChain(c)
    ensures d > 0 && Readable(image, v, c)
    ensures var es := ClusterEntries(image, v, c);
            var k := FirstHit(es, named);
            k < |es| ==>
              var e := es[k];
              var n := ClustersFor(v, e.fileSize);
              && Enough(v, n, e.fileSize) && ChainReadable(image, v, false, e.startingCluster, n)
              && found
                 == Some(Take(Concatenated(image, v, Chain(image, v, false, e.startingCluster, n)), e.fileSize))
  {
    var es := ClusterEntries(image, v, c);
    var k := FirstHit(es, named);
    if k < |es| {
      LookupHit(image, v, false, es, named, es[k]);
    }
  }

  lemma SearchGoesOn(image: seq<byte>, v: Volume, c: nat, named: Entry -> bool, d: nat, found: Option<seq<byte>>)
    requires v.Usable() && SearchFinds(image, v, c, named, d, found) && !IsEndOfChain(c)
    requires Readable(image, v, c) && FirstHit(ClusterEntries(image, v, c), named) == EntriesPerCluster(v)
    ensures d > 0 && SearchFinds(image, v, Next(image, v, c), named, d - 1, found)
  {
    hide Chain, ChainReadable, Readable, Next, Entries, FileReadable, Concatenated, AllReadable, Lookup, FirstHit;
    var es, rest := ClusterEntries(image, v, c), SearchedEntries(image, v, Next(image, v, c), named, d - 1);
    assert SearchedEntries(image, v, c, named, d) == es + rest;
    LookupSkips(image, v, false, es, rest, named);
  }

  /** Entries without a hit do not matter. */
  lemma LookupSkips(image: seq<byte>, v: Volume, inRoot: bool, es: seq<Entry>, rest: seq<Entry>, named: Entry -> bool)
    requires v.Usable() && AllReadable(image, v, inRoot, es + rest, named) && FirstHit(es, named) == |es|
    ensures AllReadable(image, v, inRoot, rest, named)
    ensures Lookup(image, v, inRoot, es + rest, named) == Lookup(image, v, inRoot, rest, named)
  {
    hide FileReadable, FileContents, FirstHit;
    FirstHitInPrefix(es, rest, named);
    forall k | 0 <= k < |rest| && Hit(rest[k], named)
      ensures FileReadable(image, v, inRoot, rest[k])
    {
      assert (es + rest)[|es| + k] == rest[k];
    }
    var k := FirstHit(rest, named);
    assert FirstHit(es + rest, named) == |es| + k;
    if k < |rest| {
      assert (es + rest)[|es| + k] == rest[k];
    }
  }

  lemma SearchBegins(image: seq<byte>, v: Volume, c: nat, named: Entry -> bool, d: nat)
    requires v.Usable() && SearchEnds(image, v, c, named, d)
    requires AllReadable(image, v, false, SearchedEntries(image, v, c, named, d), named)
    ensures SearchFinds(image, v, c, named, d,
                        Lookup(image, v, false, SearchedEntries(image, v, c, named, d), named))
  {
  }

  lemma SearchFails(image: seq<byte>, v: Volume, c: nat, named: Entry -> bool, d: nat, found: Option<seq<byte>>)
    requires v.Usable() && SearchFinds(image, v, c, named, d, found) && IsEndOfChain(c)
    ensures found == None
  {
  }

  /** The search reads cluster `c`, finds no hit there and goes on. */
  ghost predicate Passed(image: seq<byte>, v: Volume, c: nat, named: Entry -> bool)
    requires v.Usable()
  {
    !Stops(false, c) && Readable(image, v, c)
    && FirstHit(ClusterEntries(image, v, c), named) == EntriesPerCluster(v)
  }

  ghost predicate PassedTo(image: seq<byte>, v: Volume, c: nat, next: nat, named: Entry -> bool)
    requires v.Usable()
  {
    Passed(image, v, c, named) && Next(image, v, c) == next
  }

  /** The search from cluster `c` runs off the image, without a hit, within `d` clusters. */
  ghost predicate RunsOff(image: seq<byte>, v: Volume, c: nat, named: Entry -> bool, d: nat)
    requires v.Usable()
    decreases d
  {
    !Stops(false, c) &&
    (!Readable(image, v, c) ||
     (d > 0 && Passed(image, v, c, named) && RunsOff(image, v, Next(image, v, c), named, d - 1)))
  }

  lemma SearchAfter(image: seq<byte>, v: Volume, c: nat, named: Entry -> bool, d: nat)
    requires v.Usable() && Passed(image, v, c, named)
    ensures Readable(image, v, c)
    ensures SearchEnds(image, v, c, named, d) <==> d > 0 && SearchEnds(image, v, Next(image, v, c), named, d - 1)
    ensures RunsOff(image, v, c, named, d) <==> d > 0 && RunsOff(image, v, Next(image, v, c), named, d - 1)
  {
  }

  /** From every cluster of `ring` the search goes on to another one of `ring`. */
  ghost predicate Endless(image: seq<byte>, v: Volume, ring: set<nat>, named: Entry -> bool)
    requires v.Usable()
  {
    forall c :: c in ring ==> Passed(image, v, c, named) && Next(image, v, c) in ring
  }

  /** Once among such clusters, the search neither ends nor runs off the image. */
  lemma {:induction false} EndlessSearch(image: seq<byte>, v: Volume, ring: set<nat>, c: nat, named: Entry -> bool,
                                         d: nat)
    requires v.Usable() && Endless(image, v, ring, named) && c in ring
    ensures !SearchEnds(image, v, c, named, d) && !RunsOff(image, v, c, named, d)
    decreases d
  {
    hide SearchEnds, RunsOff, Passed, Readable;
    SearchAfter(image, v, c, named, d);
    if d > 0 {
      EndlessSearch(image, v, ring, Next(image, v, c), named, d - 1);
    }
  }

  /** The cluster after `cs[j]` on a chain that runs back into itself at `cs[m]`. */
  function After(cs: seq<nat>, m: nat, j: nat): nat
    requires m < |cs| && j < |cs|
  {
    if j == |cs| - 1 then cs[m] else cs[j + 1]
  }

  /** A directory whose clusters `cs` form a chain that runs back into itself, with no hit in it, is searched
      for ever from each of them. */
  lemma CyclicSearchNeverEnds(image: seq<byte>, v: Volume, cs: seq<nat>, m: nat, k: nat, named: Entry -> bool, d: nat)
    requires v.Usable() && m < |cs| && k < |cs|
    requires forall j: nat :: j < |cs| ==> PassedTo(image, v, cs[j], After(cs, m, j), named)
    ensures !SearchEnds(image, v, cs[k], named, d)
  {
    hide SearchEnds;
    var ring := set c | c in cs;
    forall c | c in ring
      ensures Passed(image, v, c, named) && Next(image, v, c) in ring
    {
      var j :| 0 <= j < |cs| && cs[j] == c;
      assert PassedTo(image, v, cs[j], After(cs, m, j), named);
    }
    EndlessSearch(image, v, ring, cs[k], named, d);
  }

  lemma {:induction false} RunningOffIsNoEnd(image: seq<byte>, v: Volume, c: nat, named: Entry -> bool, d: nat, e: nat)
    requires v.Usable() && RunsOff(image, v, c, named, d)
    ensures !SearchEnds(image, v, c, named, e)
    decreases e
  {
    if e > 0 && Readable(image, v, c) {
      RunningOffIsNoEnd(image, v, Next(image, v, c), named, d - 1, e - 1);
    }
  }

  /** All the cluster numbers there are. */
  function ClusterNumbers(n: nat): (cs: set<nat>)
    ensures |cs| == n && forall c: nat :: c in cs <==> c < n
  {
    if n == 0 then {}
    else
      var less := ClusterNumbers(n - 1);
      assert n - 1 !in less;
      less + {n - 1}
  }

  lemma SubsetSize<T>(a: set<T>, b: set<T>)
    requires a <= b
    ensures |a| <= |b| && (|a| == |b| ==> a == b)
  {
    assert b == a + (b - a);
  }

  lemma SeenLeavesRoom(image: seq<byte>, v: Volume, c: nat, seen: set<nat>, named: Entry -> bool)
    requires v.Usable() && c !in seen && !Stops(false, c)
    requires forall p :: p in seen ==> Passed(image, v, p, named)
    ensures |seen| < 0xFFFF
  {
    var all := ClusterNumbers(0xFFFF);
    SubsetSize(seen, all);
    assert c in all;
  }

  /** A search that has passed the clusters `seen` and does not end within as many more clusters as there are
      left has run off the image or into a ring. */
  lemma Explore(image: seq<byte>, v: Volume, c: nat, seen: set<nat>, named: Entry -> bool, d: nat)
      returns (ring: set<nat>)
    requires v.Usable() && !SearchEnds(image, v, c, named, d) && |seen| + d >= 0xFFFF
    requires forall p :: p in seen ==> Passed(image, v, p, named) && (Next(image, v, p) in seen || Next(image, v, p) == c)
    ensures RunsOff(image, v, c, named, d) || (c in ring && Endless(image, v, ring, named))
    decreases d
  {
    ring := seen;
    if c !in seen && Readable(image, v, c) {
      SeenLeavesRoom(image, v, c, seen, named);
      assert Passed(image, v, c, named);
      SearchAfter(image, v, c, named, d);
      ring := Explore(image, v, Next(image, v, c), seen + {c}, named, d - 1);
      ring := ring + {c};
    }
  }

  /** When the search of a subdirectory ends, over all images and starting clusters: it does if and only if
      it does within the 65535 clusters there are, and it does not if and only if it runs off the image or
      comes into a ring of hit-free clusters that it cannot leave. */
  lemma SearchEndsIff(image: seq<byte>, v: Volume, c: nat, named: Entry -> bool, limit: nat)
    requires v.Usable() && limit >= 0xFFFF
    ensures (exists d: nat :: SearchEnds(image, v, c, named, d)) <==> SearchEnds(image, v, c, named, limit)
    ensures !SearchEnds(image, v, c, named, limit)
       <==> RunsOff(image, v, c, named, limit) || exists ring :: c in ring && Endless(image, v, ring, named)
    ensures !(RunsOff(image, v, c, named, limit) && exists ring :: c in ring && Endless(image, v, ring, named))
  {
    hide SearchEnds, RunsOff, Endless, Stops;
    if !SearchEnds(image, v, c, named, limit) {
      var ring := Explore(image, v, c, {}, named, limit);
    }
    forall d: nat | RunsOff(image, v, c, named, limit)
      ensures !SearchEnds(image, v, c, named, d)
    {
      RunningOffIsNoEnd(image, v, c, named, limit, d);
    }
    forall ring, d: nat | c in ring && Endless(image, v, ring, named)
      ensures !SearchEnds(image, v, c, named, d) && !RunsOff(image, v, c, named, d)
    {
      EndlessSearch(image, v, ring, c, named, d);
    }
  }

  /** A small volume: boot sector, one table, a root directory of one sector, clusters of one sector. */
  const SMALL := Volume(0, 1, 1, 1, 16, 512, 1)

  /** An image of it on which clusters 2 and 3 point to each other and hold no used entry. */
  function CyclicImage(): (image: seq<byte>)
    ensures |image| == 2560
  {
    seq(2560, i => if i == 516 then 3 else if i == 518 then 2 else 0)
  }

  lemma CyclicImageLinks(c: nat)
    requires c == 2 || c == 3
    ensures Readable(CyclicImage(), SMALL, c) && Next(CyclicImage(), SMALL, c) == 5 - c
    ensures forall i :: SMALL.ClusterOffset(c) <= i < SMALL.ClusterOffset(c) + SMALL.ClusterSize() ==>
              CyclicImage()[i] == 0
  {
    assert SMALL.ClusterOffset(c) == 512 + 512 * c && SMALL.FatEntryOffset(c) == 512 + 2 * c;
  }

  lemma TwoClusterRing(image: seq<byte>, v: Volume, c: nat, e: nat, named: Entry -> bool)
    requires v.Usable() && PassedTo(image, v, c, e, named) && PassedTo(image, v, e, c, named)
    ensures Endless(image, v, {c, e}, named)
  {
    hide Readable, Next, FirstHit, Entries;
  }

  /** Such directories exist: the search from cluster 2 never ends, whatever name is looked for. */
  lemma CyclicDirectoryExists(named: Entry -> bool, d: nat)
    ensures WellFormed(SMALL) && !SearchEnds(CyclicImage(), SMALL, 2, named, d)
  {
    hide CyclicImage, SearchEnds, RunsOff, PassedTo, Endless;
    CyclicImagePasses(2, named);
    CyclicImagePasses(3, named);
    TwoClusterRing(CyclicImage(), SMALL, 2, 3, named);
    EndlessSearch(CyclicImage(), SMALL, {2, 3}, 2, named, d);
  }

  lemma CyclicImagePasses(c: nat, named: Entry -> bool)
    requires c == 2 || c == 3
    ensures PassedTo(CyclicImage(), SMALL, c, 5 - c, named)
  {
    hide CyclicImage, Next, FirstHit, Entries;
    CyclicImageLinks(c);
    BlankIsPassed(CyclicImage(), SMALL, c, named);
  }

  /** A cluster of zeros has no hit. */
  lemma BlankIsPassed(image: seq<byte>, v: Volume, c: nat, named: Entry -> bool)
    requires v.Usable() && Readable(image, v, c) && !Stops(false, c)
    requires forall i :: v.ClusterOffset(c) <= i < v.ClusterOffset(c) + v.ClusterSize() ==> image[i] == 0
    ensures Passed(image, v, c, named)
  {
    EntriesFit(image, v, c);
    var es := ClusterEntries(image, v, c);
    forall k | 0 <= k < |es|
      ensures !Hit(es[k], named)
    {
      assert k * ENTRY_SIZE < v.ClusterSize();
      assert es[k].raw[0] == image[v.ClusterOffset(c) + k * ENTRY_SIZE];
    }
    FirstHitIs(es, named, |es|);
  }

  /** The entries of one cluster fit into it. */
  lemma EntriesFit(image: seq<byte>, v: Volume, c: nat)
    requires v.Usable() && Readable(image, v, c)
    ensures 0 <= v.ClusterOffset(c) && v.ClusterOffset(c) + EntriesPerCluster(v) * ENTRY_SIZE <= |image|
    ensures ClusterEntries(image, v, c) == Entries(image, v.ClusterOffset(c), EntriesPerCluster(v))
  {
    assert v.ClusterSize() / ENTRY_SIZE * ENTRY_SIZE <= v.ClusterSize();
  }

  /** The entries of a cluster tile it: entry `k` lies at byte 32 k, and what is left is too short for another. */
  lemma EntriesTile(image: seq<byte>, v: Volume, c: nat)
    requires v.Usable() && Readable(image, v, c)
    ensures var es, unit := ClusterEntries(image, v, c), v.sectorsPerCluster * v.sectorSize;
            && |es| * 32 <= unit < (|es| + 1) * 32
            && forall k :: 0 <= k < |es| ==>
                 0 <= DataAddress(v, c, 32 * k) && DataAddress(v, c, 32 * k) + 32 <= |image|
                 && es[k] == ParseEntry(image[DataAddress(v, c, 32 * k)..DataAddress(v, c, 32 * k) + 32])
  {
    EntriesFit(image, v, c);
    var es := ClusterEntries(image, v, c);
    AddressesAre(v, c, 0);
    forall k | 0 <= k < |es|
      ensures 0 <= DataAddress(v, c, 32 * k) && DataAddress(v, c, 32 * k) + 32 <= |image|
      ensures es[k] == ParseEntry(image[DataAddress(v, c, 32 * k)..DataAddress(v, c, 32 * k) + 32])
    {
      AddressesAre(v, c, 32 * k);
      NthEntry(image, v.ClusterOffset(c), EntriesPerCluster(v), k);
    }
  }

  /** All entries of a directory: those of its clusters, one after the other. */
  ghost function DirectoryEntries(image: seq<byte>, v: Volume, cs: seq<nat>): (es: seq<Entry>)
    requires v.Usable() && forall k :: 0 <= k < |cs| ==> Readable(image, v, cs[k])
  {
    if cs == [] then [] else ClusterEntries(image, v, cs[0]) + DirectoryEntries(image, v, cs[1..])
  }

  /** The search of a subdirectory whose clusters the table links: it ends, and finds the first hit among all
      the entries of these clusters, or finds none because there is none. */
  lemma {:induction false} WholeDirectoryIsSearched(image: seq<byte>, v: Volume, start: nat, cs: seq<nat>, end: nat,
                                                    named: Entry -> bool, d: nat)
    requires v.Usable() && Linked(image, v, start, cs, end, 0xFFFF) && end >= 0xFFFF && d >= |cs|
    ensures SearchEnds(image, v, start, named, d)
    ensures forall k :: 0 <= k < |cs| ==> Readable(image, v, cs[k])
    ensures var found, all := SearchedEntries(image, v, start, named, d), DirectoryEntries(image, v, cs);
            && found <= all
            && (FirstHit(all, named) < |all| <==> FirstHit(found, named) < |found|)
            && (FirstHit(all, named) < |all| ==> FirstHit(all, named) == FirstHit(found, named))
    decreases |cs|
  {
    hide Linked, Readable, Next, ClusterEntries, FirstHit;
    LinkedUnfolds(image, v, start, cs, end, 0xFFFF);
    if cs != [] {
      var next := Next(image, v, start);
      WholeDirectoryIsSearched(image, v, next, cs[1..], end, named, d - 1);
      assert forall k :: 0 < k < |cs| ==> cs[k] == cs[1..][k - 1];
      PrefixHits(ClusterEntries(image, v, start), SearchedEntries(image, v, next, named, d - 1),
                 DirectoryEntries(image, v, cs[1..]), named);
    }
  }

  lemma PrefixHits(es: seq<Entry>, tail: seq<Entry>, rest: seq<Entry>, named: Entry -> bool)
    requires tail <= rest
    requires FirstHit(rest, named) < |rest| <==> FirstHit(tail, named) < |tail|
    requires FirstHit(rest, named) < |rest| ==> FirstHit(rest, named) == FirstHit(tail, named)
    ensures var found, all := if FirstHit(es, named) < |es| then es else es + tail, es + rest;
            && found <= all
            && (FirstHit(all, named) < |all| <==> FirstHit(found, named) < |found|)
            && (FirstHit(all, named) < |all| ==> FirstHit(all, named) == FirstHit(found, named))
  {
    hide FirstHit;
    FirstHitInPrefix(es, rest, named);
    FirstHitInPrefix(es, tail, named);
  }

  lemma FirstHitInPrefix(es: seq<Entry>, fs: seq<Entry>, named: Entry -> bool)
    ensures FirstHit(es + fs, named)
         == if FirstHit(es, named) < |es| then FirstHit(es, named) else |es| + FirstHit(fs, named)
  {
    var k := if FirstHit(es, named) < |es| then FirstHit(es, named) else |es| + FirstHit(fs, named);
    FirstHitIs(es + fs, named, k);
  }

  // ----- layout -------------------------------------------------------------------------------------

  /** The byte range of one of the copies of the table. */
  function FatCopyStart(v: Volume, k: nat): nat {
    v.startSector * 512 + v.FatStart() + k * v.fatSizeSectors * v.sectorSize
  }

  lemma Scale(a: int, b: int, size: int)
    ensures (a + b) * size == a * size + b * size
    ensures (a - b) * size == a * size - b * size
  {
  }

  lemma Regroup(a: int, b: int, c: int)
    ensures a * b * c == a * (b * c)
    ensures a * b == b * a
  {
  }

  /** Copies of the table lie one after the other. */
  lemma FatCopiesTile(v: Volume, k: nat)
    ensures FatCopyStart(v, k + 1) == FatCopyStart(v, k) + v.fatSizeSectors * v.sectorSize
  {
    Regroup(k, v.fatSizeSectors, v.sectorSize);
    Regroup(k + 1, v.fatSizeSectors, v.sectorSize);
    Scale(k, 1, v.fatSizeSectors * v.sectorSize);
  }

  /** Clusters lie one after the other. */
  lemma ClustersTile(v: Volume, c: nat)
    requires v.Usable()
    ensures v.ClusterOffset(c + 1) == v.ClusterOffset(c) + v.ClusterSize()
  {
    Regroup(c - 2, v.sectorsPerCluster, v.sectorSize);
    Regroup(c + 1 - 2, v.sectorsPerCluster, v.sectorSize);
    Scale(c - 2, 1, v.ClusterSize());
  }

  /** The root directory starts where the last copy of the table ends exactly when sectors have the
      512 bytes of the boot sector. */
  lemma RootFollowsFats(v: Volume)
    ensures v.RootOffset() == FatCopyStart(v, v.numberOfFats) + 512 - v.sectorSize
    ensures v.RootOffset() == FatCopyStart(v, v.numberOfFats) <==> v.sectorSize == 512
  {
    var s, fats := v.sectorSize, v.fatSizeSectors * v.numberOfFats;
    Regroup(v.numberOfFats, v.fatSizeSectors, s);
    Regroup(v.fatSizeSectors, v.numberOfFats, s);
    Scale(v.reservedSectors - 1, fats, s);
    Scale(v.reservedSectors, 1, s);
    assert (v.reservedSectors - 1 + fats) * s == v.reservedSectors * s - s + fats * s;
    assert v.numberOfFats * v.fatSizeSectors == fats;
  }

  /** With 512-byte sectors the first cluster starts where the root directory ends exactly when the
      root directory fills whole sectors; otherwise it starts inside the root directory. */
  lemma DataFollowsRoot(v: Volume)
    requires v.Usable() && v.sectorSize == 512
    ensures v.ClusterOffset(2) == v.RootOffset() + v.rootDirEntries * ENTRY_SIZE - v.rootDirEntries * ENTRY_SIZE % 512
    ensures v.ClusterOffset(2) == v.RootOffset() + v.rootDirEntries * ENTRY_SIZE
       <==> v.rootDirEntries * ENTRY_SIZE % 512 == 0
  {
    Regroup(v.fatSizeSectors, v.numberOfFats, 1);
    var bytes := v.rootDirEntries * ENTRY_SIZE;
    assert bytes / 512 * 512 + bytes % 512 == bytes;
    assert v.ClusterOffset(2) == v.FirstDataByte() by {
      Regroup(0, v.sectorsPerCluster, v.sectorSize);
    }
  }

  lemma {:induction false} ClustersAscend(v: Volume, c: nat, d: nat)
    requires v.Usable() && c <= d
    ensures v.ClusterOffset(d) == v.ClusterOffset(c) + (d - c) * v.ClusterSize()
    decreases d - c
  {
    if c < d {
      ClustersAscend(v, c + 1, d);
      ClustersTile(v, c);
      TimesOneMore(d - c - 1, v.ClusterSize());
    }
  }

  lemma {:induction false} FatCopiesAscend(v: Volume, k: nat, l: nat)
    requires k <= l
    ensures FatCopyStart(v, k) + (l - k) * (v.fatSizeSectors * v.sectorSize) == FatCopyStart(v, l)
    decreases l - k
  {
    if k < l {
      FatCopiesAscend(v, k + 1, l);
      FatCopiesTile(v, k);
      TimesOneMore(l - k - 1, v.fatSizeSectors * v.sectorSize);
    }
  }

  lemma AtLeastOneUnit(n: int, unit: int)
    requires n >= 1 && unit >= 0
    ensures n * unit >= unit
  {
  }

  /** A FAT16 volume as the specification lays it out. */
  predicate WellFormed(v: Volume) {
    v.Usable() && v.sectorSize == 512 && v.rootDirEntries * ENTRY_SIZE % 512 == 0
  }

  /** No two copies of the table overlap; they lie in order. */
  lemma FatCopiesDisjoint(v: Volume, k: nat, l: nat)
    requires k < l
    ensures FatCopyStart(v, k) + v.fatSizeSectors * v.sectorSize <= FatCopyStart(v, l)
  {
    FatCopiesAscend(v, k, l);
    AtLeastOneUnit(l - k, v.fatSizeSectors * v.sectorSize);
  }

  /** Every copy of the table lies before the root directory. */
  lemma RootAfterFats(v: Volume, k: nat)
    requires v.sectorSize == 512 && k < v.numberOfFats
    ensures FatCopyStart(v, k) + v.fatSizeSectors * 512 <= v.RootOffset()
  {
    RootFollowsFats(v);
    FatCopiesDisjoint(v, k, v.numberOfFats);
  }

  /** Every cluster lies behind the root directory of a well-formed volume. */
  lemma ClustersAfterRoot(v: Volume, c: nat)
    requires WellFormed(v) && 2 <= c
    ensures v.RootOffset() + v.rootDirEntries * ENTRY_SIZE <= v.ClusterOffset(c)
  {
    DataFollowsRoot(v);
    ClustersAscend(v, 2, c);
    if c > 2 {
      AtLeastOneUnit(c - 2, v.ClusterSize());
    }
  }

  /** No two clusters overlap; they lie in order. */
  lemma ClustersDisjoint(v: Volume, c: nat, d: nat)
    requires v.Usable() && c < d
    ensures v.ClusterOffset(c) + v.ClusterSize() <= v.ClusterOffset(d)
  {
    ClustersAscend(v, c, d);
    AtLeastOneUnit(d - c, v.ClusterSize());
  }

  /** A look-up stays inside the first copy of the table exactly for the clusters the table describes. */
  lemma LookupInFirstFat(v: Volume, c: nat)
    requires v.sectorSize == 512
    ensures FatCopyStart(v, 0) <= v.FatEntryOffset(c)
    ensures v.FatEntryOffset(c) + 2 <= FatCopyStart(v, 1) <==> c < v.fatSizeSectors * 256
  {
    FatCopiesTile(v, 0);
    Regroup(0, v.fatSizeSectors, v.sectorSize);
  }

  // ----- the cursor ---------------------------------------------------------------------------------

  class Disk {
    const image: seq<byte>
    var pos: nat

    constructor (image: seq<byte>)
      ensures this.image == image && pos == 0
    {
      this.image := image;
      pos := 0;
    }

    /** `fseek(in, offset, SEEK_SET)`: a negative offset is refused and leaves the cursor. */
    method Seek(offset: int)
      modifies this
      ensures pos == if offset >= 0 then offset else old(pos)
    {
      if offset >= 0 {
        pos := offset;
      }
    }

    /** `fread` of `n` bytes: fewer come back at the end of the image. */
    method Read(n: nat) returns (data: seq<byte>)
      modifies this
      ensures pos == old(pos) + |data| && |data| <= n
      ensures old(pos) + n <= |image| ==> data == image[old(pos)..old(pos) + n]
      ensures old(pos) + n > |image| ==> data == if old(pos) <= |image| then image[old(pos)..] else []
    {
      if pos + n <= |image| {
        data := image[pos..pos + n];
      } else {
        data := if pos <= |image| then image[pos..] else [];
      }
      pos := pos + |data|;
    }

    /** `get_next_cluster` */
    method GetNextCluster(startSector: nat, fatStart: nat, cluster: nat) returns (next: nat)
      requires startSector * 512 + fatStart + cluster * 2 + 2 <= |image|
      modifies this
      ensures next == Word(image, startSector * 512 + fatStart + cluster * 2) && next <= 0xFFFF
    {
      var fatEntryOffset := startSector * 512 + fatStart + cluster * 2;
      Seek(fatEntryOffset);
      var raw := Read(2);
      next := raw[0] as int + 256 * (raw[1] as int);
    }

    /** The inner loop of `read`: emit a file of `size` bytes that starts at cluster `start`.
        It ends on every chain, also on a cyclic one.  `n` is any number of clusters that is enough. */
    method ReadFile(v: Volume, inRoot: bool, start: nat, size: nat, ghost n: nat) returns (out: seq<byte>)
      requires v.Usable() && Enough(v, n, size) && ChainReadable(image, v, inRoot, start, n)
      modifies this
      ensures out == Take(Concatenated(image, v, Chain(image, v, inRoot, start, n)), size)
      ensures EmitsFile(image, v, inRoot, start, size, out)
    {
      hide *;
      var clusterSize := v.ClusterSize();
      var current := start;
      var bytesRead := 0;
      out := [];
      ghost var m := n;
      while !Stops(inRoot, current) && bytesRead < size
        invariant bytesRead <= size
        invariant Enough(v, m, size - bytesRead) && ChainReadable(image, v, inRoot, current, m)
        invariant FileBytes(image, v, inRoot, start, size, n)
               == out + FileBytes(image, v, inRoot, current, size - bytesRead, m)
        decreases size - bytesRead
      {
        FileBytesStep(image, v, inRoot, current, size - bytesRead, m);
        ReadableBounds(image, v, current, size - bytesRead);
        var clusterOffset := v.ClusterOffset(current);
        Seek(clusterOffset);
        var bytesToRead := if size - bytesRead < clusterSize then size - bytesRead else clusterSize;
        var data := Read(bytesToRead);
        out := out + data;
        bytesRead := bytesRead + bytesToRead;
        current := GetNextCluster(v.startSector, v.FatStart(), current);
        m := m - 1;
      }
      FileBytesEnd(image, v, inRoot, current, size - bytesRead, m);
      FileBytesArePrefix(image, v, inRoot, start, size, n);
      FilesAreTheirClusters(image, v, inRoot, start, size, n);
    }

    /** One directory block: read up to `count` entries from the cursor and stop at the first hit. */
    method FindIn(count: nat, named: Entry -> bool) returns (hit: Option<Entry>)
      requires pos + count * ENTRY_SIZE <= |image|
      modifies this
      ensures var es, k := Entries(image, old(pos), count), FirstHit(Entries(image, old(pos), count), named);
              hit == if k < count then Some(es[k]) else None
      ensures var es := Entries(image, old(pos), count);
              match hit
              case Some(e) => e in es && e.raw[0] != 0 && named(e)
              case None => forall k :: 0 <= k < count ==> es[k].raw[0] == 0 || !named(es[k])
    {
      hide Entries, ParseEntry;
      ghost var es := Entries(image, pos, count);
      var i := 0;
      while i < count
        invariant i <= count && pos == old(pos) + i * ENTRY_SIZE
        invariant forall j :: 0 <= j < i ==> es[j].raw != [] && (es[j].raw[0] == 0 || !named(es[j]))
      {
        NthEntry(image, old(pos), count, i);
        var raw := Read(ENTRY_SIZE);
        var entry := ParseEntry(raw);
        if entry.raw[0] != 0x00 && named(entry) {
          FirstHitIs(es, named, i);
          return Some(entry);
        }
        i := i + 1;
      }
      FirstHitIs(es, named, count);
      return None;
    }

    /** `read` when the current directory is the root. */
    method ReadFromRoot(v: Volume, named: Entry -> bool) returns (out: Option<seq<byte>>)
      requires v.Usable() && 0 <= v.RootOffset() && v.RootOffset() + v.rootDirEntries * ENTRY_SIZE <= |image|
      requires AllReadable(image, v, true, Entries(image, v.RootOffset(), v.rootDirEntries), named)
      modifies this
      ensures out == Lookup(image, v, true, Entries(image, v.RootOffset(), v.rootDirEntries), named)
    {
      Seek(v.RootOffset());
      var hit := FindIn(v.rootDirEntries, named);
      ghost var es := Entries(image, v.RootOffset(), v.rootDirEntries);
      match hit {
        case Some(entry) =>
          LookupHit(image, v, true, es, named, entry);
          var data := ReadFile(v, true, entry.startingCluster, entry.fileSize, ClustersFor(v, entry.fileSize));
          out := Some(data);
        case None =>
          LookupMiss(image, v, true, es, named);
          out := None;
      }
    }

    /** `read` in a subdirectory whose first cluster is `start`; `d` bounds the clusters searched. */
    method ReadFromSubdirectory(v: Volume, start: nat, named: Entry -> bool, ghost d: nat)
      returns (out: Option<seq<byte>>)
      requires v.Usable() && SearchEnds(image, v, start, named, d)
      requires AllReadable(image, v, false, SearchedEntries(image, v, start, named, d), named)
      modifies this
      ensures out == Lookup(image, v, false, SearchedEntries(image, v, start, named, d), named)
    {
      hide *;
      ghost var found := Lookup(image, v, false, SearchedEntries(image, v, start, named, d), named);
      ghost var left := d;
      var current := start;
      assert SearchFinds(image, v, current, named, left, found) by {
        SearchBegins(image, v, start, named, d);
      }
      while !IsEndOfChain(current)
        invariant SearchFinds(image, v, current, named, left, found)
        decreases left
      {
        SearchHits(image, v, current, named, left, found);
        EntriesFit(image, v, current);
        ReadableBounds(image, v, current, 0);
        Seek(v.ClusterOffset(current));
        var hit := FindIn(EntriesPerCluster(v), named);
        if hit != None {
          var entry := hit.value;
          var data := ReadFile(v, false, entry.startingCluster, entry.fileSize, ClustersFor(v, entry.fileSize));
          return Some(data);
        }
        SearchGoesOn(image, v, current, named, left, found);
        current := GetNextCluster(v.startSector, v.FatStart(), current);
        left := left - 1;
      }
      SearchFails(image, v, current, named, left, found);
      return None;
    }
  }
}
