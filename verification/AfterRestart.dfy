/** The restarted server: when the disks hold the committed placements and nothing else, what
    is rebuilt is a start-up state that still serves every file. */
module AfterRestart {
  import opened ChunkNames
  import opened Chunking
  import opened Load
  import opened Cluster
  import opened Invariants
  import opened Bytes
  import opened Contents
  import opened Runs
  import opened Rebuild
  import opened Restart
  import opened Totals

  /** Nothing in flight, every file's bytes known, and no chunk file that no entry lists. */
  ghost predicate Settled(s: State) {
    && s.uploads == map[] && s.deletions == map[] && s.tainted == {} && s.contents.Keys == s.meta.Keys
    && (forall i: nat, n :: OnDisk(s.disks, i, n) ==> IsChunkFile(n))
    && (forall f, k: nat, i: nat :: OnDisk(s.disks, i, ChunkName(f, k)) ==> ListedCopy(s.meta, f, k, i))
  }

  lemma SettledFile(s: State, f: string)
    requires Reachable(s) && Settled(s) && f in s.meta
    ensures FileFaithful(s.meta[f], s.contents[f], false, f, s.disks, s.cfg) && WellFormedFile(s.meta[f])
  {
    ReachableInv(s);
    assert f in s.contents;
    FaithfulIsWellFormed(s.meta[f], s.contents[f], false, f, s.disks, s.cfg);
  }

  lemma {:induction false} SumOfSlices(chunks: seq<ChunkMeta>, content: string, c: nat)
    requires forall k :: 0 <= k < |chunks| ==> chunks[k].size == |Slice(content, c, k)|
    ensures SumSizes(chunks) == SumTo(content, c, |chunks|)
    decreases |chunks|
  {
    if chunks != [] {
      SumOfSlices(chunks[..|chunks| - 1], content, c);
    }
  }

  /** What an upload commits is what a restart can reproduce. */
  lemma FaithfulIsWellFormed(m: FileMeta, content: string, tainted: bool, f: string, disks: Disks, cfg: Config)
    requires FileFaithful(m, content, tainted, f, disks, cfg)
    ensures WellFormedFile(m)
  {
    SumOfSlices(m.chunks, content, cfg.chunk);
    SumIsOffset(content, cfg.chunk, |m.chunks|);
  }

  /** The disks of a settled state are exact. */
  lemma SettledExact(s: State)
    requires Reachable(s) && Settled(s)
    ensures ExactDisks(s.meta, s.disks) && WellFormedMeta(s.meta)
  {
    forall f, k: nat, i: nat | ListedCopy(s.meta, f, k, i)
      ensures OnDisk(s.disks, i, ChunkName(f, k)) && |s.disks[i][ChunkName(f, k)]| == s.meta[f].chunks[k].size
    {
      SettledFile(s, f);
      assert Stored(s.disks, i, ChunkName(f, k), Slice(s.contents[f], s.cfg.chunk, k));
    }
    forall f | f in s.meta ensures WellFormedFile(s.meta[f]) {
      SettledFile(s, f);
    }
  }

  /** The state after the server process has stopped and rebuilt itself from these listings. */
  ghost function Rebuilt(s: State, listings: seq<seq<(string, nat)>>): State
    requires |listings| == |s.disks| && Collect(Log(listings, |s.disks|)).Some?
  {
    var log := Log(listings, |s.disks|);
    var meta := Finish(Collect(log).value);
    var bytes := seq(|s.disks|, i requires 0 <= i < |s.disks| => BytesListed(log, i));
    State(s.cfg, meta, {}, FreshLoad(bytes), {}, s.disks, map[], map[], map[], s.contents, {},
          seq(|s.disks|, i requires 0 <= i < |s.disks| => bytes[i] - Committed(meta, i)), map[])
  }

  // ----------------------------------------------------------- rebuilt files are the same

  lemma SameLength(a: seq<nat>, b: seq<nat>)
    requires Distinct(a) && Distinct(b) && forall i :: i in a <==> i in b
    ensures |a| == |b|
  {
    DistinctSize(a);
    DistinctSize(b);
    assert ToSet(a) == ToSet(b);
  }

  lemma SameFileFaithful(m: FileMeta, n: FileMeta, content: string, f: string, disks: Disks, cfg: Config)
    requires SameFile(m, n) && FileFaithful(n, content, false, f, disks, cfg)
    ensures FileFaithful(m, content, false, f, disks, cfg)
  {
    forall k | 0 <= k < |m.chunks|
      ensures m.chunks[k].ids != [] && Distinct(m.chunks[k].ids) && |m.chunks[k].ids| <= cfg.replicas
    {
      assert n.chunks[k].ids[0] in m.chunks[k].ids;
      SameLength(m.chunks[k].ids, n.chunks[k].ids);
    }
    forall k, i: nat | 0 <= k < |m.chunks| && i in m.chunks[k].ids
      ensures Stored(disks, i, ChunkName(f, k), Slice(content, cfg.chunk, k))
    {
      assert i in n.chunks[k].ids;
    }
  }

  lemma SameCopies(meta: map<string, FileMeta>, rebuilt: map<string, FileMeta>)
    requires rebuilt.Keys == meta.Keys && forall f :: f in meta ==> SameFile(rebuilt[f], meta[f])
    ensures forall f, k: nat, i: nat :: ListedCopy(rebuilt, f, k, i) <==> ListedCopy(meta, f, k, i)
  {
  }

  /** The disks are exact for the rebuilt metadata too. */
  lemma RebuiltExact(meta: map<string, FileMeta>, rebuilt: map<string, FileMeta>, disks: Disks)
    requires rebuilt.Keys == meta.Keys && forall f :: f in meta ==> SameFile(rebuilt[f], meta[f])
    requires ExactDisks(meta, disks) && WellFormedMeta(meta)
    ensures ExactDisks(rebuilt, disks) && WellFormedMeta(rebuilt)
  {
    SameCopies(meta, rebuilt);
    forall f, k: nat, i: nat | ListedCopy(rebuilt, f, k, i) && OnDisk(disks, i, ChunkName(f, k))
      ensures |disks[i][ChunkName(f, k)]| == rebuilt[f].chunks[k].size
    {
      assert ListedCopy(meta, f, k, i);
    }
    forall f | f in rebuilt ensures WellFormedFile(rebuilt[f]) {
      SameSums(rebuilt[f].chunks, meta[f].chunks);
      assert WellFormedFile(meta[f]);
      forall k | 0 <= k < |rebuilt[f].chunks| ensures rebuilt[f].chunks[k].ids != [] {
        assert meta[f].chunks[k].ids[0] in rebuilt[f].chunks[k].ids;
      }
    }
  }

  lemma RebuiltShape(meta: map<string, FileMeta>, rebuilt: map<string, FileMeta>, cfg: Config)
    requires rebuilt.Keys == meta.Keys && forall f :: f in meta ==> SameFile(rebuilt[f], meta[f])
    requires MetaShaped(meta, cfg)
    ensures MetaShaped(rebuilt, cfg)
  {
    forall f, x | f in rebuilt && x in Flatten(rebuilt[f].chunks) ensures x.node < cfg.nodes {
      FlattenMembers(rebuilt[f].chunks);
      FlattenMembers(meta[f].chunks);
      var k :| 0 <= k < |rebuilt[f].chunks| && x.node in rebuilt[f].chunks[k].ids;
      assert x.node in meta[f].chunks[k].ids;
      assert Copy(meta[f].chunks[k].index, meta[f].chunks[k].size, x.node) in Flatten(meta[f].chunks);
    }
  }

  /** The new metadata still places every file's bytes. */
  lemma RebuiltFaithful(s: State, rebuilt: map<string, FileMeta>)
    requires Reachable(s) && Settled(s)
    requires rebuilt.Keys == s.meta.Keys && forall f :: f in s.meta ==> SameFile(rebuilt[f], s.meta[f])
    ensures FilesFaithful(rebuilt, s.contents, {}, s.disks, s.cfg)
  {
    forall f | f in s.contents ensures FileFaithful(rebuilt[f], s.contents[f], false, f, s.disks, s.cfg) {
      SettledFile(s, f);
      SameFileFaithful(rebuilt[f], s.meta[f], s.contents[f], f, s.disks, s.cfg);
    }
  }

  lemma RebuiltDrift(s: State, listings: seq<seq<(string, nat)>>)
    requires |listings| == |s.disks| && ListsAll(listings, s.disks, |s.disks|)
    requires Collect(Log(listings, |s.disks|)).Some?
    requires ExactDisks(Rebuilt(s, listings).meta, s.disks) && WellFormedMeta(Rebuilt(s, listings).meta)
    ensures forall i :: 0 <= i < |Rebuilt(s, listings).drift| ==> Rebuilt(s, listings).drift[i] == 0
  {
    var t := Rebuilt(s, listings);
    forall i: nat | i < |s.disks| ensures t.drift[i] == 0 {
      RestartBytes(t.meta, s.disks, listings, i);
    }
  }

  /** From any settled state that a run can reach, and with every node reachable: the restarted
      server has the same files under the same contents, node_bytes is each node's share with
      no drift left, and it is in a state that runs may start from, so everything proved of
      runs holds for it again. */
  lemma RestartIsStartUp(s: State, listings: seq<seq<(string, nat)>>)
    requires Reachable(s) && Settled(s)
    requires |listings| == |s.disks| && ListsAll(listings, s.disks, |s.disks|)
    ensures Collect(Log(listings, |s.disks|)).Some?
    ensures var t := Rebuilt(s, listings);
            && StartUp(t) && Reachable(t)
            && t.meta.Keys == s.meta.Keys && (forall f :: f in s.meta ==> SameFile(t.meta[f], s.meta[f]))
            && (forall i :: 0 <= i < |t.drift| ==> t.drift[i] == 0)
  {
    SettledExact(s);
    RestartRoundTrip(s.meta, s.disks, listings);
    var t := Rebuilt(s, listings);
    RebuiltExact(s.meta, t.meta, s.disks);
    RebuiltDrift(s, listings);
    RebuiltIsStartUp(s, t);
    assert IsRun(t, []) && End(t, []) == t;
  }

  lemma RebuiltIsStartUp(s: State, t: State)
    requires Reachable(s) && Settled(s)
    requires t.meta.Keys == s.meta.Keys && forall f :: f in s.meta ==> SameFile(t.meta[f], s.meta[f])
    requires |t.drift| == |t.load.bytes| == |s.disks|
    requires forall i :: 0 <= i < |t.drift| ==> t.drift[i] == t.load.bytes[i] - Committed(t.meta, i)
    requires t == State(s.cfg, t.meta, {}, FreshLoad(t.load.bytes), {}, s.disks, map[], map[], map[], s.contents, {},
                        t.drift, map[])
    ensures StartUp(t)
  {
    ReachableInv(s);
    RebuiltShape(s.meta, t.meta, s.cfg);
    FreshLoadAgrees(t.load.bytes);
    RebuiltFaithful(s, t.meta);
  }
}
