/** Failing over between replicas: when a download finds every byte, and what full replication
    buys. */
module Resilience {
  import opened Wrappers
  import opened ChunkNames
  import opened Chunking
  import opened Load
  import opened Cluster
  import opened Invariants
  import opened Contents
  import opened Runs
  import opened Rebuild

  /** The inner loop of handle_download on one chunk: the first listed node that is not out of
      reach and has the file. */
  function ReadChunk(disks: Disks, name: string, ids: seq<nat>, down: set<nat>): Option<string> {
    if ids == [] then None
    else if ids[0] !in down && OnDisk(disks, ids[0], name) then Some(disks[ids[0]][name])
    else ReadChunk(disks, name, ids[1..], down)
  }

  function Got(read: Option<string>): string {
    if read.Some? then read.value else ""
  }

  /** The outer loop: a chunk that nobody delivers is left out. */
  function ReadAll(disks: Disks, f: string, chunks: seq<ChunkMeta>, down: set<nat>): string {
    if chunks == [] then "" else
      var c := chunks[|chunks| - 1];
      ReadAll(disks, f, chunks[..|chunks| - 1], down)
      + Got(ReadChunk(disks, ChunkName(f, c.index), c.ids, down))
  }

  predicate Reached(ids: seq<nat>, down: set<nat>) {
    exists i :: i in ids && i !in down
  }

  /** Every chunk has a listed replica within reach. */
  predicate Covered(chunks: seq<ChunkMeta>, down: set<nat>) {
    forall k :: 0 <= k < |chunks| ==> Reached(chunks[k].ids, down)
  }

  lemma {:induction false} ReadChunkFinds(disks: Disks, name: string, ids: seq<nat>, down: set<nat>, bytes: string)
    requires forall i :: i in ids ==> Stored(disks, i, name, bytes)
    ensures ReadChunk(disks, name, ids, down) == if Reached(ids, down) then Some(bytes) else None
    decreases |ids|
  {
    if ids != [] {
      assert ids[0] in ids;
      ReadChunkFinds(disks, name, ids[1..], down, bytes);
      if ids[0] in down && Reached(ids, down) {
        var i :| i in ids && i !in down;
        assert i in ids[1..];
      }
    }
  }

  lemma ReadsSlice(disks: Disks, f: string, chunks: seq<ChunkMeta>, content: string, cfg: Config, down: set<nat>,
                   k: nat)
    requires ChunksOf(chunks, content, cfg) && Placed(disks, f, chunks, content, cfg) && k < |chunks|
    ensures ReadChunk(disks, ChunkName(f, chunks[k].index), chunks[k].ids, down)
            == if Reached(chunks[k].ids, down) then Some(Slice(content, cfg.chunk, k)) else None
  {
    forall i | i in chunks[k].ids ensures Stored(disks, i, ChunkName(f, k), Slice(content, cfg.chunk, k)) {
    }
    ReadChunkFinds(disks, ChunkName(f, k), chunks[k].ids, down, Slice(content, cfg.chunk, k));
  }

  lemma TakePlaced(disks: Disks, f: string, chunks: seq<ChunkMeta>, content: string, cfg: Config, m: nat)
    requires ChunksOf(chunks, content, cfg) && Placed(disks, f, chunks, content, cfg) && m <= |chunks|
    ensures ChunksOf(chunks[..m], content, cfg) && Placed(disks, f, chunks[..m], content, cfg)
  {
    forall k, i: nat | 0 <= k < m && i in chunks[..m][k].ids
      ensures Stored(disks, i, ChunkName(f, k), Slice(content, cfg.chunk, k))
    {
      assert i in chunks[k].ids;
    }
  }

  /** Exactly the chunks when all are covered; shorter when one that has bytes is not. */
  lemma {:induction false} ReadAllJoins(disks: Disks, f: string, chunks: seq<ChunkMeta>, content: string,
                                        cfg: Config, down: set<nat>)
    requires ChunksOf(chunks, content, cfg) && Placed(disks, f, chunks, content, cfg)
    requires forall k :: 0 <= k < |chunks| ==> Slice(content, cfg.chunk, k) != ""
    ensures Covered(chunks, down) ==> ReadAll(disks, f, chunks, down) == Joined(content, cfg.chunk, |chunks|)
    ensures !Covered(chunks, down) ==> |ReadAll(disks, f, chunks, down)| < |Joined(content, cfg.chunk, |chunks|)|
    decreases |chunks|
  {
    if chunks != [] {
      var init, last := chunks[..|chunks| - 1], |chunks| - 1;
      TakePlaced(disks, f, chunks, content, cfg, last);
      ReadAllJoins(disks, f, init, content, cfg, down);
      ReadsSlice(disks, f, chunks, content, cfg, down, last);
      CoveredInit(chunks, down);
    }
  }

  lemma CoveredInit(chunks: seq<ChunkMeta>, down: set<nat>)
    requires chunks != []
    ensures Covered(chunks, down) <==>
              Covered(chunks[..|chunks| - 1], down) && Reached(chunks[|chunks| - 1].ids, down)
  {
    var init := chunks[..|chunks| - 1];
    if Covered(chunks, down) {
      forall k | 0 <= k < |init| ensures Reached(init[k].ids, down) {
        assert init[k] == chunks[k];
      }
    }
    if Covered(init, down) && Reached(chunks[|chunks| - 1].ids, down) {
      forall k | 0 <= k < |chunks| ensures Reached(chunks[k].ids, down) {
        assert k < |init| ==> init[k] == chunks[k];
      }
    }
  }

  lemma SlicesNotEmpty(content: string, cfg: Config, m: nat, k: nat)
    requires cfg.chunk > 0 && Whole(|content|, cfg, m) && k < m
    ensures Slice(content, cfg.chunk, k) != ""
  {
    OffsetGrows(|content|, cfg.chunk, k, m - 1);
  }

  lemma FailoverRead(s: State, f: string, down: set<nat>)
    requires Inv(s) && f in s.contents && f !in s.tainted
    ensures f in s.meta
    ensures ReadAll(s.disks, f, s.meta[f].chunks, down) == s.contents[f] <==> Covered(s.meta[f].chunks, down)
  {
    var m, content := s.meta[f], s.contents[f];
    assert FileFaithful(m, content, false, f, s.disks, s.cfg);
    forall k | 0 <= k < |m.chunks| ensures Slice(content, s.cfg.chunk, k) != "" {
      SlicesNotEmpty(content, s.cfg, |m.chunks|, k);
    }
    ReadAllJoins(s.disks, f, m.chunks, content, s.cfg, down);
    JoinedIsPrefix(content, s.cfg.chunk, |m.chunks|);
  }

  /** In every reachable state, for every set of nodes out of reach: reading an undisturbed file
      yields its content exactly when each chunk has a listed replica that can be reached. */
  lemma FailoverExact(s: State, f: string, down: set<nat>)
    requires Reachable(s) && f in s.contents && f !in s.tainted
    ensures f in s.meta
    ensures ReadAll(s.disks, f, s.meta[f].chunks, down) == s.contents[f] <==> Covered(s.meta[f].chunks, down)
  {
    ReachableInv(s);
    FailoverRead(s, f, down);
  }

  lemma {:induction false} SumOfPrefix(chunks: seq<ChunkMeta>, content: string, cfg: Config, m: nat)
    requires ChunksOf(chunks, content, cfg) && m <= |chunks|
    ensures SumSizes(chunks[..m]) == Offset(|content|, cfg.chunk, m)
  {
    if m > 0 {
      SumOfPrefix(chunks, content, cfg, m - 1);
      assert chunks[..m][..m - 1] == chunks[..m - 1];
      OffsetGrows(|content|, cfg.chunk, m - 1, m);
    }
  }

  lemma PrefixRead(disks: Disks, f: string, chunks: seq<ChunkMeta>, content: string, cfg: Config, down: set<nat>)
    requires ChunksOf(chunks, content, cfg) && Placed(disks, f, chunks, content, cfg) && Covered(chunks, down)
    requires forall k :: 0 <= k < |chunks| ==> Slice(content, cfg.chunk, k) != ""
    ensures ReadAll(disks, f, chunks, down) == content[..Offset(|content|, cfg.chunk, |chunks|)]
  {
    ReadAllJoins(disks, f, chunks, content, cfg, down);
    JoinedIsPrefix(content, cfg.chunk, |chunks|);
  }

  lemma PrefixContiguous(chunks: seq<ChunkMeta>, content: string, cfg: Config, m: nat)
    requires ChunksOf(chunks, content, cfg) && m <= |chunks|
    ensures Contiguous(chunks[..m])
  {
    forall k | 0 <= k < m ensures chunks[..m][k].index == k && chunks[..m][k].ids != [] {
      assert chunks[..m][k] == chunks[k];
    }
  }

  lemma PrefixIsShorter(n: nat, cfg: Config, count: nat, m: nat)
    requires Whole(n, cfg, count) && m <= count
    ensures Offset(n, cfg.chunk, m) == n <==> m == count
  {
    if m < count {
      OffsetGrows(n, cfg.chunk, m, count - 1);
    }
  }

  /** When a restart has found only the first m chunks of a file, the contiguity check passes
      all the same and the announced size is consistent; it is the file's size only if m is all
      of its chunks. */
  lemma LostSuffixPasses(chunks: seq<ChunkMeta>, content: string, cfg: Config, m: nat)
    requires ChunksOf(chunks, content, cfg) && Whole(|content|, cfg, |chunks|) && m <= |chunks|
    ensures Contiguous(chunks[..m]) && SumSizes(chunks[..m]) == Offset(|content|, cfg.chunk, m)
    ensures Offset(|content|, cfg.chunk, m) == |content| <==> m == |chunks|
  {
    hide ChunksOf, Whole, Contiguous;
    PrefixContiguous(chunks, content, cfg, m);
    SumOfPrefix(chunks, content, cfg, m);
    PrefixIsShorter(|content|, cfg, |chunks|, m);
  }

  /** And a download then delivers exactly that many bytes of the file. */
  lemma LostSuffixIsServed(disks: Disks, f: string, chunks: seq<ChunkMeta>, content: string, cfg: Config,
                           down: set<nat>, m: nat)
    requires cfg.chunk > 0 && ChunksOf(chunks, content, cfg) && Placed(disks, f, chunks, content, cfg)
    requires Whole(|content|, cfg, |chunks|) && m <= |chunks| && Covered(chunks[..m], down)
    ensures ReadAll(disks, f, chunks[..m], down) == content[..Offset(|content|, cfg.chunk, m)]
  {
    var found := chunks[..m];
    TakePlaced(disks, f, chunks, content, cfg, m);
    forall k | 0 <= k < |found| ensures Slice(content, cfg.chunk, k) != "" {
      SlicesNotEmpty(content, cfg, |chunks|, k);
    }
    PrefixRead(disks, f, found, content, cfg, down);
  }

  // ------------------------------------------------------------------- full replication

  lemma SomeoneIsUp(ids: seq<nat>, down: set<nat>)
    requires Distinct(ids) && |down| < |ids|
    ensures Reached(ids, down)
  {
    DistinctSize(ids);
    if ToSet(ids) <= down {
      SubsetSize(ToSet(ids), down);
    }
    var i :| i in ToSet(ids) && i !in down;
    assert i in ids && i !in down;
  }

  lemma FullyCovered(chunks: seq<ChunkMeta>, content: string, cfg: Config, down: set<nat>)
    requires ChunksOf(chunks, content, cfg) && FullyReplicated(chunks, cfg) && |down| < cfg.replicas
    ensures Covered(chunks, down)
  {
    forall k | 0 <= k < |chunks| ensures Reached(chunks[k].ids, down) {
      SomeoneIsUp(chunks[k].ids, down);
    }
  }

  /** An upload that commits without reduced replication has put every chunk on as many distinct nodes
      as configured, and any smaller number of them may be lost. */
  lemma UnreducedUpload(s: State, op: nat, down: set<nat>)
    requires Reachable(s) && Enabled(s, Commit(op)) && !s.uploads[op].reduced && |down| < s.cfg.replicas
    ensures var u := s.uploads[op]; var t := DoCommit(s, op);
            && u.name in t.meta
            && (forall c :: c in t.meta[u.name].chunks ==> |c.ids| == s.cfg.replicas && Distinct(c.ids))
            && Covered(t.meta[u.name].chunks, down)
  {
    ReachableInv(s);
    var u := s.uploads[op];
    assert UploadFaithful(u, s.disks, s.tainted, s.cfg);
    FullyCovered(u.chunks, u.content, s.cfg, down);
  }

  // --------------------------------------------------------------- staying as it was put

  /** No event changes a file without counting it. */
  ghost predicate Unchanged(s: State, t: State, f: string) {
    && (f in s.contents ==> f in t.contents && t.contents[f] == s.contents[f])
    && (f in s.meta ==> f in t.meta && t.meta[f] == s.meta[f])
    && (f in t.tainted ==> f in s.tainted)
  }

  lemma StoreCounts(s: State, e: Event, f: string)
    requires Shaped(s) && Enabled(s, e) && (e.StoreReply? || e.Settle? || e.Reserve? || e.Select? || e.Sweep?)
    ensures Stamp(s.stamps, f) <= Stamp(ApplyUpload(s, e).stamps, f)
    ensures Stamp(s.stamps, f) == Stamp(ApplyUpload(s, e).stamps, f) ==> Unchanged(s, ApplyUpload(s, e), f)
  {
  }

  lemma UploadCounts(s: State, e: Event, f: string)
    requires Shaped(s) && Enabled(s, e) && OfUpload(e)
    ensures Stamp(s.stamps, f) <= Stamp(ApplyUpload(s, e).stamps, f)
    ensures Stamp(s.stamps, f) == Stamp(ApplyUpload(s, e).stamps, f) ==> Unchanged(s, ApplyUpload(s, e), f)
  {
    if e.StoreReply? || e.Settle? || e.Reserve? || e.Select? || e.Sweep? {
      StoreCounts(s, e, f);
    }
  }

  lemma ChangesAreCounted(s: State, e: Event, f: string)
    requires Shaped(s) && Enabled(s, e)
    ensures var t := Apply(s, e); Stamp(s.stamps, f) <= Stamp(t.stamps, f)
    ensures var t := Apply(s, e); Stamp(s.stamps, f) == Stamp(t.stamps, f) ==> Unchanged(s, t, f)
  {
    if OfUpload(e) {
      UploadCounts(s, e, f);
    }
  }

  lemma {:induction false} RunCounts(s: State, es: seq<Event>, f: string)
    requires IsRun(s, es)
    ensures Stamp(s.stamps, f) <= Stamp(End(s, es).stamps, f)
    ensures Stamp(s.stamps, f) == Stamp(End(s, es).stamps, f) ==> Unchanged(s, End(s, es), f)
    decreases |es|
  {
    if es != [] {
      ChangesAreCounted(s, es[0], f);
      RunCounts(Apply(s, es[0]), es[1..], f);
    }
  }

  lemma {:induction false} RunStaysReachable(s: State, es: seq<Event>)
    requires Reachable(s) && IsRun(s, es)
    ensures Reachable(End(s, es))
  {
    var s0, before :| StartUp(s0) && IsRun(s0, before) && End(s0, before) == s;
    RunsCompose(s0, before, es);
    EndShaped(s, es);
    assert IsRun(s0, before + es) && End(s0, before + es) == End(s, es);
  }

  lemma {:induction false} EndShaped(s: State, es: seq<Event>)
    requires IsRun(s, es)
    ensures Shaped(End(s, es))
    decreases |es|
  {
    if es != [] {
      EndShaped(Apply(s, es[0]), es[1..]);
    }
  }

  /** Replica resilience: after an upload that committed without reduced replication, and after any run
      in which nobody writes to its name, a read that cannot reach some nodes, fewer than the
      replica count, still yields the uploaded bytes. */
  lemma SurvivesLosingNodes(s: State, op: nat, es: seq<Event>, down: set<nat>)
    requires Reachable(s) && Enabled(s, Commit(op)) && !s.uploads[op].reduced && |down| < s.cfg.replicas
    requires IsRun(s, [Commit(op)] + es)
    requires var f := s.uploads[op].name;
             Stamp(End(s, [Commit(op)] + es).stamps, f) == Stamp(DoCommit(s, op).stamps, f)
    ensures var u, t := s.uploads[op], End(s, [Commit(op)] + es);
            u.name in t.meta && ReadAll(t.disks, u.name, t.meta[u.name].chunks, down) == u.content
  {
    var u, run := s.uploads[op], [Commit(op)] + es;
    assert run[0] == Commit(op) && run[1..] == es;
    UnreducedUpload(s, op, down);
    RunStaysReachable(s, run);
    RunCounts(DoCommit(s, op), es, u.name);
    FailoverExact(End(s, run), u.name, down);
  }
}
