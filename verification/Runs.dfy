/** Whole runs: any interleaving of uploads, deletions, downloads, failures and revivals that
    starts from a start-up state, and what holds at its end. */
module Runs {
  import opened Wrappers
  import opened ChunkNames
  import opened Chunking
  import opened Load
  import opened Cluster
  import opened Invariants
  import opened Bytes
  import opened Contents
  import opened Orphans

  ghost predicate Inv(s: State) {
    Sound(s) && Named(s) && Conserved(s) && Faithful(s) && Tidy(s)
  }

  /** What rebuild_metadata_from_nodes leaves: any metadata, a fresh index, nothing in flight.
      `contents` may know the bytes of files from earlier sessions, where the disks have them. */
  ghost predicate StartUp(s: State) {
    && s.cfg.nodes > 0 && s.cfg.replicas > 0 && s.cfg.chunk > 0
    && |s.load.bytes| == s.cfg.nodes && |s.disks| == s.cfg.nodes && |s.drift| == s.cfg.nodes
    && MetaShaped(s.meta, s.cfg) && IndexAgrees(s.load, {}) && s.dead == {}
    && s.pending == {} && s.uploads == map[] && s.deletions == map[] && s.downloads == map[]
    && FilesFaithful(s.meta, s.contents, {}, s.disks, s.cfg) && s.tainted == {} && s.stamps == map[]
    && forall i :: 0 <= i < s.cfg.nodes ==> s.drift[i] == s.load.bytes[i] - Committed(s.meta, i)
  }

  lemma StartUpInv(s: State)
    requires StartUp(s)
    ensures Inv(s)
  {
    forall i: nat | i < s.cfg.nodes
      ensures s.load.bytes[i] == Accounted(s.meta, s.uploads, s.deletions, s.cfg, i) + s.drift[i]
    {
      assert UploadMap(s.uploads, s.cfg, i) == map[];
      assert RemovedMap(s.deletions, i) == map[];
    }
  }

  lemma InvKept(s: State, e: Event)
    requires Inv(s) && Enabled(s, e)
    ensures Inv(Apply(s, e)) && Apply(s, e).cfg == s.cfg
  {
    SoundKept(s, e);
    NamedKept(s, e);
    ConservedKept(s, e);
    FaithfulKept(s, e);
    TidyKept(s, e);
  }

  ghost predicate IsRun(s: State, es: seq<Event>)
    decreases |es|
  {
    Shaped(s) && (es == [] || (Enabled(s, es[0]) && IsRun(Apply(s, es[0]), es[1..])))
  }

  ghost function End(s: State, es: seq<Event>): State
    requires IsRun(s, es)
    decreases |es|
  {
    if es == [] then s else End(Apply(s, es[0]), es[1..])
  }

  lemma {:induction false} RunKeepsInv(s: State, es: seq<Event>)
    requires Inv(s) && IsRun(s, es)
    ensures Inv(End(s, es)) && End(s, es).cfg == s.cfg
    decreases |es|
  {
    if es != [] {
      InvKept(s, es[0]);
      RunKeepsInv(Apply(s, es[0]), es[1..]);
    }
  }

  /** Runs compose. */
  lemma {:induction false} RunsCompose(s: State, es: seq<Event>, fs: seq<Event>)
    requires IsRun(s, es) && IsRun(End(s, es), fs)
    ensures IsRun(s, es + fs) && End(s, es + fs) == End(End(s, es), fs)
    decreases |es|
  {
    if es == [] {
      assert es + fs == fs;
    } else {
      assert (es + fs)[0] == es[0] && (es + fs)[1..] == es[1..] + fs;
      RunsCompose(Apply(s, es[0]), es[1..], fs);
    }
  }

  /** The first conjunct is part of the second, for the last state of the run. */
  ghost predicate Reachable(s: State) {
    Shaped(s) && exists s0, es :: StartUp(s0) && IsRun(s0, es) && End(s0, es) == s
  }

  lemma ReachableInv(s: State)
    requires Reachable(s)
    ensures Inv(s)
  {
    var s0, es :| StartUp(s0) && IsRun(s0, es) && End(s0, es) == s;
    StartUpInv(s0);
    RunKeepsInv(s0, es);
  }

  // -------------------------------------------------------- theorems on reachable states

  /** In every reachable state node_bytes is fully accounted for. */
  lemma BytesConserved(s: State, i: nat)
    requires Reachable(s) && i < s.cfg.nodes
    ensures |s.load.bytes| == s.cfg.nodes == |s.drift|
    ensures s.load.bytes[i]
            == Committed(s.meta, i) + Reserved(s.uploads, s.cfg, i) - Removed(s.deletions, i) + s.drift[i]
  {
    ReachableInv(s);
  }

  /** In every reachable state each node that is not dead is in the index exactly once, under
      its current total, and nothing else is there but killed nodes under theirs. */
  lemma IndexExact(s: State)
    requires Reachable(s)
    ensures IndexAgrees(s.load, s.dead)
    ensures Tried(s) == set i: nat | i < s.cfg.nodes && i !in s.dead
    ensures forall e, f :: e in s.load.heap && f in s.load.heap && e.1 == f.1 ==> e == f
  {
    ReachableInv(s);
    IndexVisitsLiveNodes(s);
  }

  /** pending_uploads is the set of names of unfinished uploads, at most one for each name. */
  lemma PendingIsInFlight(s: State)
    requires Reachable(s)
    ensures s.pending == set o | o in s.uploads :: s.uploads[o].name
    ensures forall o, p :: o in s.uploads && p in s.uploads && o != p ==> s.uploads[o].name != s.uploads[p].name
  {
    ReachableInv(s);
    assert Named(s);
  }

  /** Every file uploaded since start-up passes the contiguity check of handle_download, and as
      long as nothing has disturbed it, every replica listed for a chunk holds exactly that
      slice of the last uploaded content, which the slices make up. */
  lemma ReplicasHoldContent(s: State, f: string)
    requires Reachable(s) && f in s.contents
    ensures f in s.meta && Contiguous(s.meta[f].chunks) && s.meta[f].total == |s.contents[f]|
    ensures f !in s.tainted ==> Placed(s.disks, f, s.meta[f].chunks, s.contents[f], s.cfg)
    ensures Joined(s.contents[f], s.cfg.chunk, |s.meta[f].chunks|) == s.contents[f]
  {
    ReachableInv(s);
    assert FileFaithful(s.meta[f], s.contents[f], f in s.tainted, f, s.disks, s.cfg);
    JoinedIsPrefix(s.contents[f], s.cfg.chunk, |s.meta[f].chunks|);
  }

  /** A download that found a replica for every chunk, and under whose name nothing was written
      while it ran, has sent exactly the committed bytes, whatever else happened meanwhile. */
  lemma DownloadIsExact(s: State, op: nat)
    requires Enabled(s, EndDownload(op)) && s.downloads[op].clean && s.downloads[op].complete
    requires s.downloads[op].stamp == Stamp(s.stamps, s.downloads[op].name)
    requires Reachable(s)
    ensures s.downloads[op].name in s.contents && s.downloads[op].emitted == s.contents[s.downloads[op].name]
  {
    ReachableInv(s);
    var d := s.downloads[op];
    assert DownloadFaithful(d, s.meta, s.contents, s.tainted, s.stamps, s.cfg);
    ReplicasHoldContent(s, d.name);
  }

  /** The chunk files of this name are exactly these chunks on these nodes. */
  ghost predicate Exactly(disks: Disks, f: string, chunks: seq<ChunkMeta>) {
    forall k: nat, i: nat :: OnDisk(disks, i, ChunkName(f, k)) <==> Holds(Flatten(chunks), k, i)
  }

  lemma SweptExactly(u: Upload, s: State)
    requires UploadFaithful(u, s.disks, s.tainted, s.cfg) && UploadTidy(u, s.disks) && u.exact
    requires u.phase.Sweeping? && u.phase.pos == |PriorCopies(u)|
    ensures Exactly(s.disks, u.name, u.chunks)
  {
    FlattenMembers(u.chunks);
    forall k: nat, i: nat | Holds(Flatten(u.chunks), k, i) ensures OnDisk(s.disks, i, ChunkName(u.name, k)) {
      var x :| x in Flatten(u.chunks) && x.index == k && x.node == i;
      assert exists j :: 0 <= j < |u.chunks| && x.node in u.chunks[j].ids && x.index == u.chunks[j].index;
      assert Stored(s.disks, i, ChunkName(u.name, k), Slice(u.content, s.cfg.chunk, k));
    }
    assert PriorCopies(u)[u.phase.pos..] == [];
  }

  /** What a successful overwrite leaves on the disks under its name, when the old metadata had
      listed every chunk file and no node failed it: the new placement, with the new bytes, and
      nothing else, whether the new file has more or fewer chunks. */
  lemma OverwriteSweepExact(s: State, op: nat)
    requires Reachable(s) && Enabled(s, Commit(op)) && s.uploads[op].exact
    ensures var u := s.uploads[op]; var t := DoCommit(s, op);
            Exactly(t.disks, u.name, u.chunks) && Placed(t.disks, u.name, u.chunks, u.content, s.cfg)
  {
    ReachableInv(s);
    var u := s.uploads[op];
    assert UploadFaithful(u, s.disks, s.tainted, s.cfg) && UploadTidy(u, s.disks);
    SweptExactly(u, s);
  }

  /** The sweep never deletes a copy that was just written, in any state it may run in. */
  lemma SweepSparesNewCopies(s: State, op: nat, acked: bool, effect: Option<string>, k: nat, i: nat)
    requires Reachable(s) && Enabled(s, Sweep(op, acked, effect))
    requires k < |s.uploads[op].chunks| && i in s.uploads[op].chunks[k].ids
    ensures var u := s.uploads[op];
            Stored(DoSweep(s, op, acked, effect).disks, i, ChunkName(u.name, k), Slice(u.content, s.cfg.chunk, k))
  {
    ReachableInv(s);
    InvKept(s, Sweep(op, acked, effect));
    var t := DoSweep(s, op, acked, effect);
    assert UploadFaithful(t.uploads[op], t.disks, t.tainted, t.cfg);
  }

  lemma FinishedDeletion(d: Deletion, disks: Disks, k: nat, i: nat)
    requires DeletionTidy(d, disks) && d.pos == |Flatten(d.meta.chunks)|
    ensures d.missed == {} <==> d.removed == Flatten(d.meta.chunks)
    ensures d.exact && OnDisk(disks, i, ChunkName(d.name, k)) ==> i in d.missed
  {
    var copies := Flatten(d.meta.chunks);
    assert copies[d.pos..] == [] && copies[..d.pos] == copies;
  }

  /** A deletion replies OK, that is, has missed no copy, exactly when every copy has been
      removed and released, and then no chunk file of the name is left if the metadata had
      listed them all. Otherwise whatever is left is on a node that failed it. */
  lemma DeleteCompletes(s: State, op: nat)
    requires Reachable(s) && Enabled(s, EndDelete(op))
    ensures var d := s.deletions[op]; var t := DoEndDelete(s, op);
            && d.name !in t.meta && t.disks == s.disks
            && (d.missed == {} <==> d.removed == Flatten(d.meta.chunks))
            && (d.exact ==> forall k: nat, i: nat :: OnDisk(t.disks, i, ChunkName(d.name, k)) ==> i in d.missed)
  {
    ReachableInv(s);
    var d := s.deletions[op];
    assert DeletionTidy(d, s.disks);
    forall k: nat, i: nat ensures d.exact && OnDisk(s.disks, i, ChunkName(d.name, k)) ==> i in d.missed {
      FinishedDeletion(d, s.disks, k, i);
    }
    FinishedDeletion(d, s.disks, 0, 0);
  }

  predicate DriftedBy(s: State, t: State, i: nat, n: int) {
    i < |s.drift| && i < |t.drift| && t.drift[i] == s.drift[i] + n
  }

  lemma EndMovesDrift(s: State, op: nat, i: nat)
    requires Shaped(s) && Enabled(s, EndDelete(op)) && i < s.cfg.nodes
    ensures DriftedBy(s, DoEndDelete(s, op), i,
                      BytesOn(Flatten(s.deletions[op].meta.chunks), i) - BytesOn(s.deletions[op].removed, i))
  {
  }

  lemma EndingIsCounted(s: State, op: nat)
    requires Tidy(s) && op in s.deletions
    ensures Counted(s.deletions[op])
  {
    assert DeletionTidy(s.deletions[op], s.disks);
  }

  /** node_bytes goes wrong by exactly the bytes of the copies that a deletion failed to remove:
      these are all the copies it did not remove, and their nodes have been found dead. */
  lemma DeletionDrift(s: State, op: nat, i: nat)
    requires Reachable(s) && Enabled(s, EndDelete(op)) && i < s.cfg.nodes
    ensures var d := s.deletions[op];
            && multiset(d.removed) + multiset(d.failed) == multiset(Flatten(d.meta.chunks))
            && (forall c :: c in d.failed ==> c.node in d.missed)
            && DriftedBy(s, DoEndDelete(s, op), i, BytesOn(d.failed, i))
  {
    hide IsRun, Faithful, Conserved, Named;
    hide Shaped, DoEndDelete, Counted, Tidy, Named, Conserved, Faithful, IndexAgrees, DriftedBy;
    ReachableInv(s);
    EndingIsCounted(s, op);
    EndMovesDrift(s, op, i);
    FinishedCount(s.deletions[op], i);
  }

  lemma FinishedCount(d: Deletion, i: nat)
    requires Counted(d) && d.pos == |Flatten(d.meta.chunks)|
    ensures multiset(d.removed) + multiset(d.failed) == multiset(Flatten(d.meta.chunks))
    ensures forall c :: c in d.failed ==> c.node in d.missed
    ensures BytesOn(d.removed, i) + BytesOn(d.failed, i) == BytesOn(Flatten(d.meta.chunks), i)
  {
    var copies := Flatten(d.meta.chunks);
    assert copies[..d.pos] == copies;
    BytesOnPermuted(d.removed + d.failed, copies, i);
    BytesOnConcat(d.removed, d.failed, i);
  }

  /** A node counts as failing a deletion exactly when it is dead right after the attempt and
      did not acknowledge it. */
  lemma MissedNodesAreDead(s: State, op: nat, outcome: DeleteReply, effect: Option<string>)
    requires Shaped(s) && Enabled(s, DeleteCopy(op, outcome, effect))
    ensures var c := Flatten(s.deletions[op].meta.chunks)[s.deletions[op].pos];
            var t := DoDeleteCopy(s, op, outcome, effect);
            if outcome.Acknowledged? then
              t.deletions[op].missed == s.deletions[op].missed
              && !OnDisk(t.disks, c.node, ChunkName(s.deletions[op].name, c.index))
            else t.deletions[op].missed == s.deletions[op].missed + {c.node} && c.node in t.dead
  {
  }
}
