/** node_bytes after a restart: the sum of a node's listing is the sum of what its disk holds,
    which is the node's share of all committed files. */
module Totals {
  import opened Sums
  import opened ChunkNames
  import opened Load
  import opened Cluster
  import opened Bytes
  import opened Rebuild
  import opened Restart

  ghost function Lengths(disk: map<string, string>): map<string, int> {
    map n | n in disk :: |disk[n]|
  }

  /** What compute_node_size finds on this disk. */
  ghost function DiskBytes(disk: map<string, string>): int {
    Sum(Lengths(disk))
  }

  lemma DiskBytesWithout(disk: map<string, string>, name: string)
    ensures DiskBytes(disk - {name}) == DiskBytes(disk) - (if name in disk then |disk[name]| else 0)
  {
    assert Lengths(disk - {name}) == Lengths(disk) - {name};
    SumWithout(Lengths(disk), name);
  }

  // --------------------------------------------------------------------------- listings

  lemma {:induction false} BytesListedConcat(a: seq<Entry>, b: seq<Entry>, i: nat)
    ensures BytesListed(a + b, i) == BytesListed(a, i) + BytesListed(b, i)
    decreases |b|
  {
    if b == [] {
      assert a + b == a;
    } else {
      var ab := a + b;
      assert ab[..|ab| - 1] == a + b[..|b| - 1] && ab[|ab| - 1] == b[|b| - 1];
      BytesListedConcat(a, b[..|b| - 1], i);
    }
  }

  lemma ListsInit(entries: seq<(string, nat)>, disk: map<string, string>)
    requires Lists(entries, disk) && entries != []
    ensures Lists(entries[..|entries| - 1], disk - {entries[|entries| - 1].0})
  {
    var init, last := entries[..|entries| - 1], entries[|entries| - 1];
    var less := disk - {last.0};
    forall n | n in less ensures (n, |less[n]|) in init {
      var r :| 0 <= r < |entries| && entries[r] == (n, |disk[n]|);
      assert init[r] == entries[r];
    }
    forall e | e in init ensures e.0 in less && e.1 == |less[e.0]| {
      var r :| 0 <= r < |init| && init[r] == e;
      assert entries[r] in entries;
    }
  }

  /** The lines of one node add up to what its disk holds, whatever their order. */
  lemma {:induction false} ListingBytes(node: nat, entries: seq<(string, nat)>, disk: map<string, string>, i: nat)
    requires Lists(entries, disk)
    ensures BytesListed(Tag(node, entries), i) == if i == node then DiskBytes(disk) else 0
    decreases |entries|
  {
    if entries == [] {
      assert forall n :: n in disk ==> (n, |disk[n]|) in entries;
      assert Lengths(disk) == map[];
    } else {
      var init, last := entries[..|entries| - 1], entries[|entries| - 1];
      var tags := Tag(node, entries);
      assert tags[..|tags| - 1] == Tag(node, init);
      assert last in entries;
      ListsInit(entries, disk);
      ListingBytes(node, init, disk - {last.0}, i);
      DiskBytesWithout(disk, last.0);
    }
  }

  lemma {:induction false} LogBytes(listings: seq<seq<(string, nat)>>, disks: Disks, m: nat, i: nat)
    requires ListsAll(listings, disks, m)
    ensures BytesListed(Log(listings, m), i) == if i < m then DiskBytes(disks[i]) else 0
  {
    if m > 0 {
      LogBytes(listings, disks, m - 1, i);
      BytesListedConcat(Log(listings, m - 1), Tag(m - 1, listings[m - 1]), i);
      ListingBytes(m - 1, listings[m - 1], disks[m - 1], i);
    }
  }

  // ----------------------------------------------------------------------------- shares

  /** This disk holds exactly node i's copies of the committed chunks, in the right sizes. */
  ghost predicate HoldsShare(meta: map<string, FileMeta>, disk: map<string, string>, i: nat) {
    && (forall n :: n in disk ==> IsChunkFile(n))
    && (forall f, k: nat :: ChunkName(f, k) in disk <==> ListedCopy(meta, f, k, i))
    && (forall f, k: nat :: ChunkName(f, k) in disk && ListedCopy(meta, f, k, i) ==>
          |disk[ChunkName(f, k)]| == meta[f].chunks[k].size)
  }

  ghost predicate DistinctReplicas(meta: map<string, FileMeta>) {
    forall f, k :: f in meta && 0 <= k < |meta[f].chunks| ==> Distinct(meta[f].chunks[k].ids)
  }

  function WithoutLast(m: FileMeta): FileMeta
    requires m.chunks != []
  {
    m.(chunks := m.chunks[..|m.chunks| - 1])
  }

  /** Forgetting the last chunk of f, in the metadata and on the disk. */
  lemma ShareWithoutLast(meta: map<string, FileMeta>, disk: map<string, string>, i: nat, f: string)
    requires HoldsShare(meta, disk, i) && DistinctReplicas(meta) && f in meta && meta[f].chunks != []
    ensures var last := |meta[f].chunks| - 1;
            && HoldsShare(meta[f := WithoutLast(meta[f])], disk - {ChunkName(f, last)}, i)
            && DistinctReplicas(meta[f := WithoutLast(meta[f])])
  {
    var last := |meta[f].chunks| - 1;
    var less, rest := meta[f := WithoutLast(meta[f])], disk - {ChunkName(f, last)};
    forall g, k: nat
      ensures ChunkName(g, k) in rest <==> ListedCopy(less, g, k, i)
      ensures ChunkName(g, k) in rest && ListedCopy(less, g, k, i) ==>
                |rest[ChunkName(g, k)]| == less[g].chunks[k].size
    {
      if ChunkName(g, k) == ChunkName(f, last) {
        ChunkNameInjective(g, k, f, last);
      }
    }
  }

  lemma CommittedWithoutLast(meta: map<string, FileMeta>, f: string, i: nat)
    requires DistinctReplicas(meta) && f in meta && meta[f].chunks != []
    ensures var last := meta[f].chunks[|meta[f].chunks| - 1];
            Committed(meta, i) == Committed(meta[f := WithoutLast(meta[f])], i) + if i in last.ids then last.size else 0
  {
    var last := meta[f].chunks[|meta[f].chunks| - 1];
    CommittedWith(meta, f, WithoutLast(meta[f]), i);
    BytesOnConcat(Flatten(meta[f].chunks[..|meta[f].chunks| - 1]), CopiesOf(last), i);
    BytesOfDistinct(last, last.ids, i);
    assert last.(ids := last.ids) == last;
  }

  lemma CommittedNothing(i: nat)
    ensures Committed(map[], i) == 0
  {
    assert FileBytes(map[], i) == map[];
  }

  lemma NothingLeft(disk: map<string, string>, i: nat)
    requires HoldsShare(map[], disk, i)
    ensures DiskBytes(disk) == 0
  {
    forall n ensures n !in disk {
      if IsChunkFile(n) {
        var f, k: nat :| n == ChunkName(f, k);
        assert !ListedCopy(map[], f, k, i);
      }
    }
    assert Lengths(disk) == map[];
  }

  /** Forgetting a file without chunks. */
  lemma ShareWithout(meta: map<string, FileMeta>, disk: map<string, string>, i: nat, f: string)
    requires HoldsShare(meta, disk, i) && f in meta && meta[f].chunks == []
    ensures HoldsShare(meta - {f}, disk, i)
  {
  }

  /** By taking away one chunk after the other: the sum over the disk's files is the sum over
      the node's listed copies. */
  lemma {:induction false} ShareBytes(meta: map<string, FileMeta>, disk: map<string, string>, i: nat, f: string)
    requires HoldsShare(meta, disk, i) && DistinctReplicas(meta) && f in meta
    ensures DiskBytes(disk) == Committed(meta, i)
    decreases |meta|, |meta[f].chunks|
  {
    if meta[f].chunks == [] {
      var rest := meta - {f};
      SmallerMap(meta, f);
      CommittedWithout(meta, f, i);
      ShareWithout(meta, disk, i, f);
      if rest == map[] {
        CommittedNothing(i);
        NothingLeft(disk, i);
      } else {
        var g :| g in rest;
        ShareBytes(rest, disk, i, g);
      }
    } else {
      var last := |meta[f].chunks| - 1;
      var less := meta[f := WithoutLast(meta[f])];
      assert less.Keys == meta.Keys;
      assert |less| == |less.Keys| == |meta.Keys| == |meta|;
      ShareWithoutLast(meta, disk, i, f);
      ShareBytes(less, disk - {ChunkName(f, last)}, i, f);
      CommittedWithoutLast(meta, f, i);
      DiskBytesWithout(disk, ChunkName(f, last));
      assert ChunkName(f, last) in disk <==> ListedCopy(meta, f, last, i);
    }
  }

  lemma AnyShareBytes(meta: map<string, FileMeta>, disk: map<string, string>, i: nat)
    requires HoldsShare(meta, disk, i) && DistinctReplicas(meta)
    ensures DiskBytes(disk) == Committed(meta, i)
  {
    if meta == map[] {
      CommittedNothing(i);
      NothingLeft(disk, i);
    } else {
      var f :| f in meta;
      ShareBytes(meta, disk, i, f);
    }
  }

  /** After a restart with all nodes reachable and the disks exact, node_bytes[i] is the size of
      node i's store and its share of the committed files, in the old metadata as in the new. */
  lemma RestartBytes(meta: map<string, FileMeta>, disks: Disks, listings: seq<seq<(string, nat)>>, i: nat)
    requires ExactDisks(meta, disks) && WellFormedMeta(meta)
    requires |listings| == |disks| && ListsAll(listings, disks, |disks|) && i < |disks|
    ensures BytesListed(Log(listings, |disks|), i) == DiskBytes(disks[i]) == Committed(meta, i)
  {
    LogBytes(listings, disks, |disks|, i);
    forall f, k: nat ensures ChunkName(f, k) in disks[i] <==> ListedCopy(meta, f, k, i)
      ensures ChunkName(f, k) in disks[i] && ListedCopy(meta, f, k, i) ==>
                |disks[i][ChunkName(f, k)]| == meta[f].chunks[k].size
    {
      assert OnDisk(disks, i, ChunkName(f, k)) <==> ListedCopy(meta, f, k, i);
    }
    forall n | n in disks[i] ensures IsChunkFile(n) {
      assert OnDisk(disks, i, n);
    }
    forall f | f in meta ensures WellFormedFile(meta[f]) {
    }
    AnyShareBytes(meta, disks[i], i);
  }
}
