/** Restart: when the disks hold exactly the committed placements, rebuilding from the nodes'
    listings gives the metadata back, and with it every guarantee of the running server. */
module Restart {
  import opened Text
  import opened ChunkNames
  import opened Load
  import opened Cluster
  import opened Rebuild

  /** The nodes that listed this name, in order, and the size listed last. */
  function NodesOf(log: seq<Entry>, name: string): seq<nat> {
    if log == [] then [] else
      NodesOf(log[..|log| - 1], name) + if log[|log| - 1].name == name then [log[|log| - 1].node] else []
  }

  function SizeOf(log: seq<Entry>, name: string): nat {
    if log == [] then 0
    else if log[|log| - 1].name == name then log[|log| - 1].size
    else SizeOf(log[..|log| - 1], name)
  }

  /** Every listed name is the name of a chunk with an index in int range. */
  ghost predicate ChunkFilesOnly(log: seq<Entry>) {
    forall e :: e in log ==> IsChunkFile(e.name)
  }

  ghost predicate IsChunkFile(name: string) {
    exists f, k: nat :: k <= INT_MAX && name == ChunkName(f, k)
  }

  /** The collected map says of every chunk exactly what the listings said. */
  ghost predicate Reflects(t: Temp, log: seq<Entry>) {
    && (forall f :: f in t ==> t[f] != map[])
    && (forall f, k: nat :: (f in t && k in t[f]) <==> NodesOf(log, ChunkName(f, k)) != [])
    && (forall f, k :: f in t && k in t[f] ==>
          t[f][k] == Found(SizeOf(log, ChunkName(f, k)), NodesOf(log, ChunkName(f, k))))
  }

  lemma AbsorbReflects(t: Temp, log: seq<Entry>, e: Entry, f0: string, k0: nat)
    requires Reflects(t, log) && e.name == ChunkName(f0, k0) && k0 <= INT_MAX
    ensures Absorb(t, e).Some? && Reflects(Absorb(t, e).value, log + [e])
  {
    hide ParseChunkName, ChunkName;
    ChunkNameRoundTrip(f0, k0);
    var t' := Absorb(t, e).value;
    var all := log + [e];
    assert all[..|all| - 1] == log && all[|all| - 1] == e;
    forall f, k: nat
      ensures (f in t' && k in t'[f]) <==> NodesOf(all, ChunkName(f, k)) != []
      ensures f in t' && k in t'[f] ==>
                t'[f][k] == Found(SizeOf(all, ChunkName(f, k)), NodesOf(all, ChunkName(f, k)))
    {
      if ChunkName(f, k) == e.name {
        ChunkNameInjective(f, k, f0, k0);
      }
    }
    forall f | f in t' ensures t'[f] != map[] {
      if f == f0 {
        assert k0 in t'[f];
      }
    }
  }

  lemma {:induction false} CollectReflects(log: seq<Entry>)
    requires ChunkFilesOnly(log)
    ensures Collect(log).Some? && Reflects(Collect(log).value, log)
    decreases |log|, 1
  {
    if log == [] {
      assert Reflects(map[], []);
    } else {
      var init, e := log[..|log| - 1], log[|log| - 1];
      assert e in log && log == init + [e];
      var f, k: nat :| k <= INT_MAX && e.name == ChunkName(f, k);
      CollectInit(log);
      AbsorbReflects(Collect(init).value, init, e, f, k);
    }
  }

  lemma CollectInit(log: seq<Entry>)
    requires ChunkFilesOnly(log) && log != []
    ensures ChunkFilesOnly(log[..|log| - 1])
    ensures Collect(log[..|log| - 1]).Some? && Reflects(Collect(log[..|log| - 1]).value, log[..|log| - 1])
    decreases |log|, 0
  {
    var init := log[..|log| - 1];
    forall e | e in init ensures IsChunkFile(e.name) {
      assert e in log;
    }
    CollectReflects(init);
  }

  // ------------------------------------------------------------------------- listings

  /** NODE_LIST on one node: every file once, in some order, with its size. */
  ghost predicate Lists(entries: seq<(string, nat)>, disk: map<string, string>) {
    && (forall a, b :: 0 <= a < b < |entries| ==> entries[a].0 != entries[b].0)
    && (forall e :: e in entries ==> e.0 in disk && e.1 == |disk[e.0]|)
    && (forall n :: n in disk ==> (n, |disk[n]|) in entries)
  }

  function Tag(node: nat, entries: seq<(string, nat)>): seq<Entry> {
    seq(|entries|, r requires 0 <= r < |entries| => Entry(node, entries[r].0, entries[r].1))
  }

  /** The lines of nodes 0 to m - 1 in order. */
  function Log(listings: seq<seq<(string, nat)>>, m: nat): seq<Entry>
    requires m <= |listings|
  {
    if m == 0 then [] else Log(listings, m - 1) + Tag(m - 1, listings[m - 1])
  }

  /** The nodes below m that hold a file of this name, ascending. */
  function Holders(disks: Disks, name: string, m: nat): seq<nat> {
    if m == 0 then [] else Holders(disks, name, m - 1) + if OnDisk(disks, m - 1, name) then [m - 1] else []
  }

  lemma {:induction false} NodesOfConcat(a: seq<Entry>, b: seq<Entry>, name: string)
    ensures NodesOf(a + b, name) == NodesOf(a, name) + NodesOf(b, name)
    ensures SizeOf(a + b, name) == if NodesOf(b, name) != [] then SizeOf(b, name) else SizeOf(a, name)
    decreases |b|
  {
    if b == [] {
      assert a + b == a;
    } else {
      var ab := a + b;
      assert ab[..|ab| - 1] == a + b[..|b| - 1] && ab[|ab| - 1] == b[|b| - 1];
      NodesOfConcat(a, b[..|b| - 1], name);
    }
  }

  lemma {:induction false} TagNodes(node: nat, entries: seq<(string, nat)>, name: string)
    requires forall a, b :: 0 <= a < b < |entries| ==> entries[a].0 != entries[b].0
    ensures NodesOf(Tag(node, entries), name) == if exists e :: e in entries && e.0 == name then [node] else []
    ensures forall e :: e in entries && e.0 == name ==> SizeOf(Tag(node, entries), name) == e.1
    decreases |entries|
  {
    if entries != [] {
      var init, last := entries[..|entries| - 1], entries[|entries| - 1];
      var tags := Tag(node, entries);
      assert tags[..|tags| - 1] == Tag(node, init);
      TagNodes(node, init, name);
      assert entries == init + [last];
      if last.0 == name {
        assert forall e :: e in init ==> e.0 != name;
      }
    }
  }

  /** Listings of what the first m disks hold, node by node. */
  ghost predicate ListsAll(listings: seq<seq<(string, nat)>>, disks: Disks, m: nat) {
    && m <= |listings| && m <= |disks|
    && (m > 0 ==> ListsAll(listings, disks, m - 1) && Lists(listings[m - 1], disks[m - 1]))
  }

  /** What one node's listing adds about one name. */
  lemma NodeListing(node: nat, entries: seq<(string, nat)>, disk: map<string, string>, name: string)
    requires Lists(entries, disk)
    ensures NodesOf(Tag(node, entries), name) == if name in disk then [node] else []
    ensures name in disk ==> SizeOf(Tag(node, entries), name) == |disk[name]|
  {
    TagNodes(node, entries, name);
    if name in disk {
      assert (name, |disk[name]|) in entries;
    }
  }

  /** Appending one node's listing to the log. */
  lemma LogStep(log: seq<Entry>, node: nat, entries: seq<(string, nat)>, disk: map<string, string>, name: string)
    requires Lists(entries, disk)
    ensures NodesOf(log + Tag(node, entries), name) == NodesOf(log, name) + if name in disk then [node] else []
    ensures SizeOf(log + Tag(node, entries), name) == if name in disk then |disk[name]| else SizeOf(log, name)
  {
    NodeListing(node, entries, disk, name);
    NodesOfConcat(log, Tag(node, entries), name);
  }

  lemma {:induction false} LogNodes(listings: seq<seq<(string, nat)>>, disks: Disks, name: string, m: nat)
    requires ListsAll(listings, disks, m)
    ensures NodesOf(Log(listings, m), name) == Holders(disks, name, m)
  {
    if m > 0 {
      LogNodes(listings, disks, name, m - 1);
      LogStep(Log(listings, m - 1), m - 1, listings[m - 1], disks[m - 1], name);
    }
  }

  lemma {:induction false} LogSize(listings: seq<seq<(string, nat)>>, disks: Disks, name: string, m: nat, size: nat)
    requires ListsAll(listings, disks, m) && Holders(disks, name, m) != []
    requires forall i: nat :: OnDisk(disks, i, name) ==> |disks[i][name]| == size
    ensures SizeOf(Log(listings, m), name) == size
  {
    LogStep(Log(listings, m - 1), m - 1, listings[m - 1], disks[m - 1], name);
    if !OnDisk(disks, m - 1, name) {
      LogSize(listings, disks, name, m - 1, size);
    }
  }

  lemma {:induction false} HoldersFacts(disks: Disks, name: string, m: nat)
    ensures forall i: nat :: i in Holders(disks, name, m) <==> i < m && OnDisk(disks, i, name)
    ensures forall a, b :: 0 <= a < b < |Holders(disks, name, m)| ==>
              Holders(disks, name, m)[a] < Holders(disks, name, m)[b]
  {
    if m > 0 {
      HoldersFacts(disks, name, m - 1);
      var before, all := Holders(disks, name, m - 1), Holders(disks, name, m);
      forall a, b | 0 <= a < b < |all| ensures all[a] < all[b] {
        assert all[a] == before[a] && before[a] in before;
      }
    }
  }

  lemma {:induction false} LogNames(listings: seq<seq<(string, nat)>>, disks: Disks, m: nat)
    requires ListsAll(listings, disks, m)
    ensures forall e :: e in Log(listings, m) ==> e.node < m && OnDisk(disks, e.node, e.name)
  {
    if m > 0 {
      LogNames(listings, disks, m - 1);
      forall e | e in Tag(m - 1, listings[m - 1]) ensures e.node < m && OnDisk(disks, e.node, e.name) {
        var r :| 0 <= r < |listings[m - 1]| && Tag(m - 1, listings[m - 1])[r] == e;
        assert listings[m - 1][r] in listings[m - 1];
      }
    }
  }

  // ------------------------------------------------------------------------ round trip

  predicate ListedCopy(meta: map<string, FileMeta>, f: string, k: nat, i: nat) {
    f in meta && k < |meta[f].chunks| && i in meta[f].chunks[k].ids
  }

  /** The disks hold the committed placements, in the right sizes, and nothing else. */
  ghost predicate ExactDisks(meta: map<string, FileMeta>, disks: Disks) {
    && (forall i: nat, n :: OnDisk(disks, i, n) ==> IsChunkFile(n))
    && (forall f, k: nat, i: nat :: OnDisk(disks, i, ChunkName(f, k)) <==> ListedCopy(meta, f, k, i))
    && (forall f, k: nat, i: nat :: ListedCopy(meta, f, k, i) && OnDisk(disks, i, ChunkName(f, k)) ==>
          |disks[i][ChunkName(f, k)]| == meta[f].chunks[k].size)
  }

  /** What every committed entry looks like. */
  ghost predicate WellFormedFile(m: FileMeta) {
    && m.chunks != [] && m.total == SumSizes(m.chunks)
    && forall k :: 0 <= k < |m.chunks| ==> m.chunks[k].index == k && m.chunks[k].ids != [] && Distinct(m.chunks[k].ids)
  }

  ghost predicate WellFormedMeta(meta: map<string, FileMeta>) {
    forall f :: f in meta ==> WellFormedFile(meta[f])
  }

  ghost predicate Ascending(ids: seq<nat>) {
    forall a, b :: 0 <= a < b < |ids| ==> ids[a] < ids[b]
  }

  /** Equal but for the order of the replicas, which is now ascending. */
  ghost predicate SameFile(m: FileMeta, n: FileMeta) {
    && m.total == n.total && |m.chunks| == |n.chunks|
    && forall k :: 0 <= k < |m.chunks| ==>
         && m.chunks[k].index == n.chunks[k].index && m.chunks[k].size == n.chunks[k].size
         && Ascending(m.chunks[k].ids) && forall i :: i in m.chunks[k].ids <==> i in n.chunks[k].ids
  }

  lemma LogIsChunksOnly(meta: map<string, FileMeta>, disks: Disks, listings: seq<seq<(string, nat)>>)
    requires ExactDisks(meta, disks)
    requires |listings| == |disks| && ListsAll(listings, disks, |disks|)
    ensures ChunkFilesOnly(Log(listings, |disks|))
  {
    LogNames(listings, disks, |disks|);
    forall e | e in Log(listings, |disks|) ensures IsChunkFile(e.name) {
      assert OnDisk(disks, e.node, e.name);
    }
  }

  /** One name, asked for on every node. */
  lemma ListedName(disks: Disks, listings: seq<seq<(string, nat)>>, name: string, size: nat)
    requires |listings| == |disks| && ListsAll(listings, disks, |disks|)
    requires forall i: nat :: OnDisk(disks, i, name) ==> |disks[i][name]| == size
    ensures forall i: nat :: i in NodesOf(Log(listings, |disks|), name) <==> OnDisk(disks, i, name)
    ensures Ascending(NodesOf(Log(listings, |disks|), name))
    ensures NodesOf(Log(listings, |disks|), name) != [] ==> SizeOf(Log(listings, |disks|), name) == size
  {
    LogNodes(listings, disks, name, |disks|);
    HoldersFacts(disks, name, |disks|);
    if Holders(disks, name, |disks|) != [] {
      LogSize(listings, disks, name, |disks|, size);
    }
  }

  /** The log says of a chunk what the metadata says. */
  ghost predicate Describes(log: seq<Entry>, meta: map<string, FileMeta>, f: string, k: nat) {
    var ids := NodesOf(log, ChunkName(f, k));
    && Ascending(ids)
    && (forall i: nat :: i in ids <==> ListedCopy(meta, f, k, i))
    && (ids != [] && f in meta && k < |meta[f].chunks| ==> SizeOf(log, ChunkName(f, k)) == meta[f].chunks[k].size)
  }

  lemma LogDescribes(meta: map<string, FileMeta>, disks: Disks, listings: seq<seq<(string, nat)>>, f: string, k: nat)
    requires ExactDisks(meta, disks)
    requires |listings| == |disks| && ListsAll(listings, disks, |disks|)
    ensures Describes(Log(listings, |disks|), meta, f, k)
  {
    var size := if f in meta && k < |meta[f].chunks| then meta[f].chunks[k].size else 0;
    var name := ChunkName(f, k);
    forall i: nat ensures OnDisk(disks, i, name) <==> ListedCopy(meta, f, k, i)
      ensures OnDisk(disks, i, name) ==> |disks[i][name]| == size {
    }
    ListedName(disks, listings, name, size);
  }

  /** What has been collected about one chunk agrees with the metadata. */
  ghost predicate Agrees(t: Temp, meta: map<string, FileMeta>, f: string, k: nat) {
    && ((f in t && k in t[f]) <==> (f in meta && k < |meta[f].chunks|))
    && (f in t && k in t[f] && f in meta && k < |meta[f].chunks| ==> FoundChunk(t[f][k], meta[f].chunks[k]))
  }

  ghost predicate FoundChunk(x: Found, c: ChunkMeta) {
    x.size == c.size && Ascending(x.ids) && forall i :: i in x.ids <==> i in c.ids
  }

  lemma CollectedChunk(meta: map<string, FileMeta>, log: seq<Entry>, t: Temp, f: string, k: nat)
    requires Describes(log, meta, f, k) && Reflects(t, log)
    requires f in meta ==> WellFormedFile(meta[f])
    ensures Agrees(t, meta, f, k)
  {
    var ids := NodesOf(log, ChunkName(f, k));
    assert (f in t && k in t[f]) <==> ids != [];
    assert ids != [] ==> ListedCopy(meta, f, k, ids[0]);
    if f in meta && k < |meta[f].chunks| {
      assert ListedCopy(meta, f, k, meta[f].chunks[k].ids[0]);
    }
  }

  lemma {:induction false} RangeSize(n: nat, keys: set<nat>)
    requires forall j: nat :: j in keys <==> j < n
    ensures |keys| == n
  {
    if n == 0 {
      assert keys == {};
    } else {
      RangeSize(n - 1, keys - {n - 1});
    }
  }

  lemma {:induction false} SameSums(a: seq<ChunkMeta>, b: seq<ChunkMeta>)
    requires |a| == |b| && forall k :: 0 <= k < |a| ==> a[k].size == b[k].size
    ensures SumSizes(a) == SumSizes(b)
    decreases |a|
  {
    if a != [] {
      SameSums(a[..|a| - 1], b[..|b| - 1]);
    }
  }

  /** One file's map entry, put in order. */
  lemma OrderedAt(m: map<nat, Found>, n: nat, k: nat)
    requires (forall j: nat :: j in m <==> j < n) && k < n
    ensures |Ordered(m)| == n && Ordered(m)[k] == ChunkMeta(k, m[k].size, m[k].ids)
  {
    OrderedLists(m);
    RangeSize(n, m.Keys);
    assert |m| == |m.Keys|;
    AscendingFromZero(Ordered(m), m, k);
    assert Ordered(m)[k] in Ordered(m);
  }

  lemma OrderedFile(m: map<nat, Found>, n: FileMeta)
    requires WellFormedFile(n) && forall k: nat :: k in m <==> k < |n.chunks|
    requires forall k :: k in m ==> FoundChunk(m[k], n.chunks[k])
    ensures SameFile(FileMeta(SumSizes(Ordered(m)), Ordered(m)), n)
  {
    var chunks := Ordered(m);
    OrderedAt(m, |n.chunks|, 0);
    forall k | 0 <= k < |chunks|
      ensures chunks[k] == ChunkMeta(k, m[k].size, m[k].ids) && FoundChunk(m[k], n.chunks[k])
    {
      OrderedAt(m, |n.chunks|, k);
    }
    SameSums(chunks, n.chunks);
  }

  /** One file of the rebuilt map. */
  lemma RebuiltFile(meta: map<string, FileMeta>, t: Temp, f: string)
    requires WellFormedMeta(meta) && f in meta
    requires forall k: nat :: Agrees(t, meta, f, k)
    ensures f in t && SameFile(Finish(t)[f], meta[f])
  {
    assert WellFormedFile(meta[f]);
    assert Agrees(t, meta, f, 0);
    forall k: nat ensures k in t[f] <==> k < |meta[f].chunks|
      ensures k in t[f] && k < |meta[f].chunks| ==> FoundChunk(t[f][k], meta[f].chunks[k])
    {
      assert Agrees(t, meta, f, k);
    }
    OrderedFile(t[f], meta[f]);
  }

  lemma RebuiltMap(meta: map<string, FileMeta>, log: seq<Entry>, t: Temp)
    requires WellFormedMeta(meta) && Reflects(t, log)
    requires forall f, k: nat :: Describes(log, meta, f, k)
    ensures Finish(t).Keys == meta.Keys && forall f :: f in meta ==> SameFile(Finish(t)[f], meta[f])
  {
    forall f, k: nat ensures Agrees(t, meta, f, k) {
      assert Describes(log, meta, f, k);
      CollectedChunk(meta, log, t, f, k);
    }
    forall f | f in t ensures f in meta {
      assert t[f] != map[];
      var k :| k in t[f];
      assert Agrees(t, meta, f, k);
    }
    forall f | f in meta ensures f in t && SameFile(Finish(t)[f], meta[f]) {
      RebuiltFile(meta, t, f);
    }
  }

  /** With every node reachable and the disks exact, the rebuilt metadata is the old metadata:
      same files, totals, indices and sizes, the replicas in ascending order. */
  lemma RestartRoundTrip(meta: map<string, FileMeta>, disks: Disks, listings: seq<seq<(string, nat)>>)
    requires ExactDisks(meta, disks) && WellFormedMeta(meta)
    requires |listings| == |disks| && ListsAll(listings, disks, |disks|)
    ensures Collect(Log(listings, |disks|)).Some?
    ensures var rebuilt := Finish(Collect(Log(listings, |disks|)).value);
            rebuilt.Keys == meta.Keys && forall f :: f in meta ==> SameFile(rebuilt[f], meta[f])
  {
    var log := Log(listings, |disks|);
    LogIsChunksOnly(meta, disks, listings);
    CollectReflects(log);
    forall f, k: nat ensures Describes(log, meta, f, k) {
      LogDescribes(meta, disks, listings, f, k);
    }
    RebuiltMap(meta, log, Collect(log).value);
  }
}
