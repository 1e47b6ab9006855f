/** Reading files from a FAT volume: a cursor over the cluster chain against the flat bytes of the file. */
module Fat {
  import opened Wrappers

  const END_OF_CLUSTERCHAIN := 0x0fff_ffff

  /** The allocation table and the contents of the clusters. */
  datatype Volume = Volume(fat: seq<nat>, clusters: seq<seq<byte>>, bytesPerCluster: nat)

  /** NextCluster. */
  function NextCluster(v: Volume, cluster: nat): nat
    requires cluster < |v.fat|
  {
    if v.fat[cluster] >= 0x0fff_fff8 then END_OF_CLUSTERCHAIN else v.fat[cluster]
  }

  /** The clusters of a file, linked from the first to the last. */
  ghost predicate Chain(v: Volume, chain: seq<nat>) {
    && v.bytesPerCluster > 0 && |v.clusters| == |v.fat| <= 0x0fff_fff8
    && (forall i {:trigger chain[i]} :: 0 <= i < |chain| ==> 0 < chain[i] < |v.fat| && |v.clusters[chain[i]]| == v.bytesPerCluster)
    && (forall i: nat {:trigger Links(v, chain, i)} :: i < |chain| ==> Links(v, chain, i))
  }

  /** The table links cluster `i` of the chain to the next one, and marks the last one as such. */
  predicate Links(v: Volume, chain: seq<nat>, i: nat)
    requires i < |chain|
  {
    chain[i] < |v.fat| && if i + 1 < |chain| then v.fat[chain[i]] == chain[i + 1] else v.fat[chain[i]] >= 0x0fff_fff8
  }

  /** The cluster at a place of the chain; after the last one comes the end mark. */
  function ClusterAt(chain: seq<nat>, i: nat): nat {
    if i < |chain| then chain[i] else END_OF_CLUSTERCHAIN
  }

  /** Where a file starts: GetFirstCluster gives 0 for a file without clusters. */
  function First(chain: seq<nat>): nat { if chain == [] then 0 else chain[0] }

  /** The bytes of the chain from its `k`th cluster on. */
  ghost function Rest(v: Volume, chain: seq<nat>, k: nat): (r: seq<byte>)
    requires Chain(v, chain) && k <= |chain|
    ensures k < |chain| ==> |r| >= v.bytesPerCluster
    decreases |chain| - k
  {
    if k == |chain| then [] else v.clusters[chain[k]] + Rest(v, chain, k + 1)
  }

  ghost function Flat(v: Volume, chain: seq<nat>): seq<byte>
    requires Chain(v, chain)
  {
    Rest(v, chain, 0)
  }

  /** Behind the cursor that stands at byte `off` of cluster `k` lie the bytes from `pos` on. */
  ghost predicate Cursor(v: Volume, chain: seq<nat>, pos: nat, k: nat, off: nat)
    requires Chain(v, chain)
  {
    && k <= |chain| && off < v.bytesPerCluster && off <= |Rest(v, chain, k)|
    && pos <= |Flat(v, chain)| && Flat(v, chain)[pos..] == Rest(v, chain, k)[off..]
  }

  /** The cursor moves within its cluster, and to the next one at the cluster's end. */
  lemma CursorMoves(v: Volume, chain: seq<nat>, pos: nat, k: nat, off: nat, n: nat)
    requires Chain(v, chain) && Cursor(v, chain, pos, k, off) && pos < |Flat(v, chain)| && n <= v.bytesPerCluster - off
    ensures k < |chain| && pos + n <= |Flat(v, chain)|
    ensures v.clusters[chain[k]][off..off + n] == Flat(v, chain)[pos..pos + n]
    ensures if off + n == v.bytesPerCluster then Cursor(v, chain, pos + n, k + 1, 0) else Cursor(v, chain, pos + n, k, off + n)
  {
    var flat, rest := Flat(v, chain), Rest(v, chain, k);
    assert rest == v.clusters[chain[k]] + Rest(v, chain, k + 1);
    assert flat[pos..][..n] == rest[off..][..n];
    assert flat[pos + n..] == flat[pos..][n..] == rest[off..][n..] == rest[off + n..];
    assert off + n == v.bytesPerCluster ==> rest[off + n..] == Rest(v, chain, k + 1)[0..];
    assert flat[pos..][..n] == flat[pos..pos + n];
    assert rest[off..][..n] == v.clusters[chain[k]][off..off + n];
  }

  /** The length that Read allows: the size and the offset are unsigned, so that their difference wraps. */
  function Wanted(len: nat, size: nat, offset: nat): nat {
    Min(len, (size - offset) % 0x1_0000_0000_0000_0000)
  }

  /** The check keeps a read inside the file exactly when it starts inside it. */
  lemma SizeCheck(len: nat, size: nat, offset: nat)
    requires size < 0x1_0000_0000 && offset < 0x1_0000_0000_0000_0000
    ensures offset <= size ==> Wanted(len, size, offset) == Min(len, size - offset)
    ensures offset > size ==> Wanted(len, size, offset) == Min(len, 0x1_0000_0000_0000_0000 - (offset - size))
    ensures offset + Wanted(len, size, offset) <= size || Wanted(len, size, offset) == 0 <==> offset <= size || len == 0
  {
    if offset > size {
      assert (size - offset) % 0x1_0000_0000_0000_0000 == size - offset + 0x1_0000_0000_0000_0000;
    }
  }

  /** The bytes of a file: those of its chain, cut at its size. */
  ghost function Content(v: Volume, chain: seq<nat>, size: nat): seq<byte>
    requires Chain(v, chain) && size <= |Flat(v, chain)|
  {
    Flat(v, chain)[..size]
  }

  /** What one read at `offset` gives. */
  ghost function Slice(content: seq<byte>, offset: nat, len: nat): seq<byte>
    requires offset <= |content|
  {
    content[offset..offset + Min(len, |content| - offset)]
  }

  /** What a series of reads gives. */
  ghost function Reads(content: seq<byte>, offset: nat, lens: seq<nat>): seq<byte>
    requires offset <= |content|
    decreases |lens|
  {
    if lens == [] then []
    else
      var s := Slice(content, offset, lens[0]);
      s + Reads(content, offset + |s|, lens[1..])
  }

  function Sum(lens: seq<nat>): nat {
    if lens == [] then 0 else lens[0] + Sum(lens[1..])
  }

  /** Any series of reads gives what one large read would. */
  lemma {:induction false} ReadsAreOne(content: seq<byte>, offset: nat, lens: seq<nat>)
    requires offset <= |content|
    ensures Reads(content, offset, lens) == Slice(content, offset, Sum(lens))
    decreases |lens|
  {
    if lens != [] {
      var n := Min(lens[0], |content| - offset);
      ReadsAreOne(content, offset + n, lens[1..]);
      SliceJoins(content, offset, lens[0], Sum(lens[1..]));
    }
  }

  lemma SliceJoins(content: seq<byte>, offset: nat, a: nat, b: nat)
    requires offset <= |content|
    ensures var s := Slice(content, offset, a);
      |s| == Min(a, |content| - offset) && s + Slice(content, offset + |s|, b) == Slice(content, offset, a + b)
  {
  }

  /** LoadFile does not look at the size: it agrees with a read from the start exactly when it is not
      asked for more than the file has, or the file fills its clusters. */
  lemma LoadFileAgrees(v: Volume, chain: seq<nat>, size: nat, len: nat)
    requires Chain(v, chain) && size <= |Flat(v, chain)|
    ensures Flat(v, chain)[..Min(len, |Flat(v, chain)|)] == Slice(Content(v, chain, size), 0, len)
      <==> len <= size || |Flat(v, chain)| == size
  {
    var flat, c := Flat(v, chain), Content(v, chain, size);
    assert |Slice(c, 0, len)| == Min(len, size);
    if len <= size || |flat| == size {
      assert flat[..Min(len, |flat|)] == c[..Min(len, size)];
    }
  }

  /** Load visits no cluster but those of the chain. */
  ghost predicate LoadStays(v: Volume, chain: seq<nat>, size: nat, offset: nat, len: nat)
    requires Chain(v, chain)
  {
    var n := Wanted(len, size, offset);
    offset + n <= |Flat(v, chain)| || (n == 0 && offset < |Flat(v, chain)| + v.bytesPerCluster)
  }

  /** A file of five bytes in a cluster of 4096 is mapped, and the first fault is six bytes into the mapping: the
      page that is then loaded from there leaves the chain. Two bytes from there are bytes behind the file. */
  lemma LoadPastEnd()
    ensures var v := Volume([0, 0, END_OF_CLUSTERCHAIN], [[], [], seq(4096, i => if i < 5 then 1 else 7)], 4096);
      && Chain(v, [2]) && |Flat(v, [2])| == 4096 && !LoadStays(v, [2], 5, 6, 0x1000)
      && LoadStays(v, [2], 5, 6, 2) && Wanted(2, 5, 6) == 2 && Flat(v, [2])[6..8] == [7, 7]
  {
    var bytes: seq<byte> := seq(4096, i => if i < 5 then 1 else 7);
    var v := Volume([0, 0, END_OF_CLUSTERCHAIN], [[], [], bytes], 4096);
    assert Chain(v, [2]);
    assert Rest(v, [2], 1) == [];
    assert Rest(v, [2], 0) == bytes + [] == bytes;
  }

  /** A file of one byte in a cluster of two: LoadFile gives both. */
  lemma LoadFilePastSize()
    ensures var v := Volume([0, 0, END_OF_CLUSTERCHAIN], [[], [], [7, 8]], 2);
      && Chain(v, [2]) && Flat(v, [2]) == [7, 8] && Slice(Content(v, [2], 1), 0, 2) == [7]
      && Flat(v, [2])[..Min(2, |Flat(v, [2])|)] != Slice(Content(v, [2], 1), 0, 2)
  {
    var v := Volume([0, 0, END_OF_CLUSTERCHAIN], [[], [], [7, 8]], 2);
    assert Chain(v, [2]);
    assert Rest(v, [2], 1) == [];
    assert Rest(v, [2], 0) == [7, 8] + [];
  }

  /** The copy of `n` bytes into a buffer. */
  method CopyIn(buf: array<byte>, d: nat, src: seq<byte>)
    requires d + |src| <= buf.Length
    modifies buf
    ensures buf[..d + |src|] == old(buf[..d]) + src
  {
    forall i | 0 <= i < |src| { buf[d + i] := src[i]; }
    assert buf[..d] == old(buf[..d]) && buf[d..d + |src|] == src;
    assert buf[..d + |src|] == buf[..d] + buf[d..d + |src|];
  }

  /** LoadFile. */
  method LoadFile(v: Volume, ghost chain: seq<nat>, first: nat, buf: array<byte>, len: nat) returns (n: nat)
    requires Chain(v, chain) && first == First(chain) && len <= buf.Length
    modifies buf
    ensures n == Min(len, |Flat(v, chain)|) && buf[..n] == Flat(v, chain)[..n]
  {
    hide Chain, Rest;
    ghost var flat := Flat(v, chain);
    var cluster := first;
    var p: nat := 0;
    ghost var k: nat := 0;
    Start(v, chain);
    while cluster != 0 && cluster != END_OF_CLUSTERCHAIN
      invariant k <= |chain| && p <= len && p <= |flat| && Cursor(v, chain, p, k, 0) && buf[..p] == flat[..p]
      invariant if chain == [] then cluster == 0 else cluster == ClusterAt(chain, k)
      decreases |chain| - k
    {
      ClusterFacts(v, chain, k);
      BytesLeft(v, chain, p, k);
      if v.bytesPerCluster >= len - p {
        CursorMoves(v, chain, p, k, 0, len - p);
        CopyIn(buf, p, v.clusters[cluster][..len - p]);
        assert flat[..len] == flat[..p] + flat[p..len];
        return len;
      }
      CursorMoves(v, chain, p, k, 0, v.bytesPerCluster);
      CopyIn(buf, p, v.clusters[cluster][..v.bytesPerCluster]);
      assert flat[..p + v.bytesPerCluster] == flat[..p] + flat[p..p + v.bytesPerCluster];
      p := p + v.bytesPerCluster;
      cluster := NextCluster(v, cluster);
      k := k + 1;
    }
    AtEnd(v, chain, p, k, cluster);
    n := p;
  }

  lemma Start(v: Volume, chain: seq<nat>)
    requires Chain(v, chain)
    ensures Cursor(v, chain, 0, 0, 0) && Behind(v, chain, 0, 0) && v.bytesPerCluster > 0
    ensures First(chain) == if chain == [] then 0 else ClusterAt(chain, 0)
  {
  }

  lemma ClusterFacts(v: Volume, chain: seq<nat>, k: nat)
    requires Chain(v, chain) && k <= |chain|
    ensures ClusterAt(chain, k) != 0
    ensures ClusterAt(chain, k) != END_OF_CLUSTERCHAIN <==> k < |chain|
    ensures k < |chain| ==> chain[k] < |v.fat| == |v.clusters| && |v.clusters[chain[k]]| == v.bytesPerCluster
    ensures k < |chain| ==> NextCluster(v, chain[k]) == ClusterAt(chain, k + 1)
  {
    if k < |chain| { NextIs(v, chain, k); }
  }

  /** NextCluster follows the links, and gives the end mark behind the last cluster. */
  lemma NextIs(v: Volume, chain: seq<nat>, k: nat)
    requires Chain(v, chain) && k < |chain|
    ensures NextCluster(v, chain[k]) == ClusterAt(chain, k + 1)
  {
    assert Links(v, chain, k);
    assert k + 1 < |chain| ==> chain[k + 1] < |v.fat|;
  }

  /** There are bytes while there are clusters. */
  lemma BytesLeft(v: Volume, chain: seq<nat>, pos: nat, k: nat)
    requires Chain(v, chain) && Cursor(v, chain, pos, k, 0)
    ensures k < |chain| ==> pos < |Flat(v, chain)|
  {
  }

  lemma AtEnd(v: Volume, chain: seq<nat>, pos: nat, k: nat, cluster: nat)
    requires Chain(v, chain) && Cursor(v, chain, pos, k, 0) && (cluster == 0 || cluster == END_OF_CLUSTERCHAIN)
    requires if chain == [] then cluster == 0 else cluster == ClusterAt(chain, k)
    ensures pos == |Flat(v, chain)|
  {
    ClusterFacts(v, chain, k);
  }

  class FileDescriptor {
    const volume: Volume
    /** The directory entry: the first cluster and the size. */
    const first: nat
    const size: nat
    ghost const chain: seq<nat>
    var rd_offset: nat
    var rd_cluster: nat
    var rd_cluster_offset: nat

    ghost predicate Valid()
      reads this
    {
      && Chain(volume, chain) && first == First(chain) && size <= |Flat(volume, chain)| && size < 0x1_0000_0000
      && if rd_cluster == 0 then rd_offset == 0 && rd_cluster_offset == 0
         else exists k: nat :: At(k)
    }

    ghost predicate At(k: nat)
      reads this
      requires Chain(volume, chain)
    {
      Cursor(volume, chain, rd_offset, k, rd_cluster_offset) && rd_cluster == ClusterAt(chain, k)
    }

    ghost function Bytes(): seq<byte>
      requires Chain(volume, chain) && size <= |Flat(volume, chain)|
    {
      Content(volume, chain, size)
    }

    constructor (volume: Volume, first: nat, size: nat, ghost chain: seq<nat>)
      requires Chain(volume, chain) && first == First(chain) && size <= |Flat(volume, chain)| && size < 0x1_0000_0000
      ensures Valid() && rd_offset == 0 && this.volume == volume && this.chain == chain && this.size == size
    {
      this.volume, this.first, this.size, this.chain := volume, first, size, chain;
      rd_offset, rd_cluster, rd_cluster_offset := 0, 0, 0;
    }

    /** One turn of Read's loop: bytes up to the end of the cluster, and the cursor behind them. */
    method CopyOut(buf: array<byte>, at: nat, left: nat, ghost pos: nat, ghost k: nat) returns (m: nat, ghost k': nat)
      requires Chain(volume, chain) && pos < |Flat(volume, chain)| && 0 < left && at + left <= buf.Length
      requires Cursor(volume, chain, pos, k, rd_cluster_offset) && rd_cluster == ClusterAt(chain, k)
      modifies this`rd_cluster, this`rd_cluster_offset, buf
      ensures 0 < m <= left && pos + m <= |Flat(volume, chain)|
      ensures buf[..at + m] == old(buf[..at]) + Flat(volume, chain)[pos..pos + m]
      ensures Cursor(volume, chain, pos + m, k', rd_cluster_offset) && rd_cluster == ClusterAt(chain, k')
    {
      hide Chain, Rest, Cursor, NextCluster;
      CursorFacts(volume, chain, pos, k, rd_cluster_offset);
      ClusterFacts(volume, chain, k);
      var sec := volume.clusters[rd_cluster];
      m := Min(left, volume.bytesPerCluster - rd_cluster_offset);
      CursorMoves(volume, chain, pos, k, rd_cluster_offset, m);
      CopyIn(buf, at, sec[rd_cluster_offset..rd_cluster_offset + m]);
      k' := k;
      rd_cluster_offset := rd_cluster_offset + m;
      if rd_cluster_offset == volume.bytesPerCluster {
        rd_cluster := NextCluster(volume, rd_cluster);
        rd_cluster_offset := 0;
        k' := k + 1;
      }
    }

    /** FileDescriptor::Read. The answer `inside` is false where the next cluster that it would visit is none
        of the file's, which does not happen to a cursor within the file. */
    method Read(buf: array<byte>, len: nat) returns (inside: bool, total: nat)
      requires Valid() && len <= buf.Length
      modifies this, buf
      ensures inside <==> old(rd_offset) + Wanted(len, size, old(rd_offset)) <= |Flat(volume, chain)|
      ensures inside ==> Valid() && total == Wanted(len, size, old(rd_offset)) && rd_offset == old(rd_offset) + total
      ensures inside ==> buf[..total] == Flat(volume, chain)[old(rd_offset)..old(rd_offset) + total]
      ensures old(rd_offset) <= size ==> inside && rd_offset <= size && total == Min(len, size - old(rd_offset))
      ensures old(rd_offset) <= size ==> buf[..total] == Slice(Bytes(), old(rd_offset), len)
    {
      hide Chain, Rest, Cursor, NextCluster, Wanted, Content, Slice, Min, Flat, First, ClusterAt;
      ghost var flat, start := Flat(volume, chain), rd_offset;
      WithinFile(volume, chain, size, start, len);
      Start(volume, chain);
      ghost var k: nat := 0;
      if rd_cluster == 0 {
        rd_cluster := first;
      } else {
        k :| At(k);
      }
      CursorFacts(volume, chain, start, k, rd_cluster_offset);
      var n := Wanted(len, size, rd_offset);
      total := 0;
      while total < n
        invariant total <= n <= len && rd_offset == start && k <= |chain|
        invariant Cursor(volume, chain, start + total, k, rd_cluster_offset)
        invariant rd_cluster == ClusterAt(chain, k) || (chain == [] && rd_cluster == start == rd_cluster_offset == 0)
        invariant start + total <= |flat| && buf[..total] == flat[start..start + total]
        decreases n - total
      {
        CursorFacts(volume, chain, start + total, k, rd_cluster_offset);
        ClusterFacts(volume, chain, k);
        if rd_cluster == 0 || rd_cluster == END_OF_CLUSTERCHAIN {
          return false, total;
        }
        var m: nat;
        m, k := CopyOut(buf, total, n - total, start + total, k);
        CursorFacts(volume, chain, start + total + m, k, rd_cluster_offset);
        assert flat[start..start + total + m] == flat[start..start + total] + flat[start + total..start + total + m];
        total := total + m;
      }
      rd_offset := rd_offset + total;
      ClusterFacts(volume, chain, k);
      assert rd_cluster != 0 ==> At(k);
      inside := true;
    }

    /** FileDescriptor::Load: a cursor of its own is moved to the offset, and reads from there. */
    method Load(buf: array<byte>, len: nat, offset: nat) returns (inside: bool, n: nat)
      requires Valid() && len <= buf.Length
      modifies buf
      ensures inside <==> LoadStays(volume, chain, size, offset, len)
      ensures inside ==> n == Wanted(len, size, offset)
      ensures inside && n > 0 ==> buf[..n] == Flat(volume, chain)[offset..offset + n]
      ensures offset <= size ==> inside && n == Min(len, size - offset) && buf[..n] == Slice(Bytes(), offset, len)
    {
      hide Chain, Rest, Cursor, Behind, NextCluster, Content, Wanted, Slice;
      WithinFile(volume, chain, size, offset, len);
      var fd := new FileDescriptor(volume, first, size, chain);
      fd.rd_offset := offset;
      var cluster := first;
      var left := offset;
      ghost var k: nat := 0;
      Start(volume, chain);
      while left >= volume.bytesPerCluster
        invariant fd.rd_offset == offset && k <= |chain| && 0 <= left <= offset && Behind(volume, chain, offset - left, k)
        invariant cluster == if chain == [] then 0 else ClusterAt(chain, k)
      {
        ClusterFacts(volume, chain, k);
        BehindEnd(volume, chain, offset - left, k);
        if cluster == 0 || cluster == END_OF_CLUSTERCHAIN {
          return false, 0;
        }
        NextBehind(volume, chain, offset - left, k);
        left := left - volume.bytesPerCluster;
        cluster := NextCluster(volume, cluster);
        k := k + 1;
      }
      ClusterFacts(volume, chain, k);
      BehindEnd(volume, chain, offset - left, k);
      fd.rd_cluster := cluster;
      fd.rd_cluster_offset := left;
      // Behind the last cluster there is nothing to read.
      if left > 0 && (cluster == 0 || cluster == END_OF_CLUSTERCHAIN) {
        return Wanted(len, size, offset) == 0, 0;
      }
      CursorBehind(volume, chain, offset, k, left);
      assert cluster != 0 ==> fd.At(k);
      inside, n := fd.Read(buf, len);
    }
  }

  /** What the size check allows, and for an offset within the file what that is. */
  lemma WithinFile(v: Volume, chain: seq<nat>, size: nat, start: nat, len: nat)
    requires Chain(v, chain) && size <= |Flat(v, chain)| && size < 0x1_0000_0000
    ensures Wanted(len, size, start) <= len
    ensures start <= size ==> Wanted(len, size, start) == Min(len, size - start) && start + Wanted(len, size, start) <= size
    ensures start <= size ==>
      Slice(Content(v, chain, size), start, len) == Flat(v, chain)[start..start + Wanted(len, size, start)]
  {
    hide Flat, Chain;
    if start <= size {
      SizeCheck(len, size, start);
      var end := start + Wanted(len, size, start);
      assert Flat(v, chain)[..size][start..end] == Flat(v, chain)[start..end];
    }
  }

  lemma CursorFacts(v: Volume, chain: seq<nat>, pos: nat, k: nat, off: nat)
    requires Chain(v, chain) && Cursor(v, chain, pos, k, off)
    ensures k <= |chain| && 0 <= off < v.bytesPerCluster && pos <= |Flat(v, chain)| && (pos < |Flat(v, chain)| <==> k < |chain|)
  {
  }

  /** Cluster `k` begins at place `pos` of the chain. */
  ghost predicate Behind(v: Volume, chain: seq<nat>, pos: nat, k: nat)
    requires Chain(v, chain)
  {
    k <= |chain| && pos <= |Flat(v, chain)| && Flat(v, chain)[pos..] == Rest(v, chain, k)
  }

  lemma BehindEnd(v: Volume, chain: seq<nat>, pos: nat, k: nat)
    requires Chain(v, chain) && Behind(v, chain, pos, k)
    ensures k <= |chain| && pos <= |Flat(v, chain)| && (k == |chain| <==> pos == |Flat(v, chain)|)
    ensures k < |chain| ==> pos + v.bytesPerCluster <= |Flat(v, chain)|
  {
  }

  lemma NextBehind(v: Volume, chain: seq<nat>, pos: nat, k: nat)
    requires Chain(v, chain) && Behind(v, chain, pos, k) && k < |chain|
    ensures Behind(v, chain, pos + v.bytesPerCluster, k + 1)
  {
    CursorMoves(v, chain, pos, k, 0, v.bytesPerCluster);
  }

  /** Within a cluster of the chain, or right behind the last one. */
  lemma CursorBehind(v: Volume, chain: seq<nat>, offset: nat, k: nat, left: nat)
    requires Chain(v, chain) && left <= offset && Behind(v, chain, offset - left, k) && left < v.bytesPerCluster
    requires k < |chain| || left == 0
    ensures Cursor(v, chain, offset, k, left) && (chain == [] ==> offset == 0)
  {
    var flat := Flat(v, chain);
    assert flat[offset - left..] == Rest(v, chain, k);
    assert flat[offset..] == flat[offset - left..][left..];
  }
}
