/** What every event keeps: shapes, the agreement of the load index with the array, and who
    may write under which name. */
module Invariants {
  import opened Wrappers
  import opened Load
  import opened Cluster

  lemma FlattenAppend(chunks: seq<ChunkMeta>, c: ChunkMeta)
    ensures Flatten(chunks + [c]) == Flatten(chunks) + CopiesOf(c)
  {
    var all := chunks + [c];
    assert all[..|all| - 1] == chunks;
  }

  /** Membership in a flattened list, by chunk and replica. */
  lemma {:induction false} FlattenMembers(chunks: seq<ChunkMeta>)
    ensures forall k, i: nat {:trigger chunks[k], i in chunks[k].ids} ::
              0 <= k < |chunks| && i in chunks[k].ids ==> Copy(chunks[k].index, chunks[k].size, i) in Flatten(chunks)
    ensures forall x :: x in Flatten(chunks) ==>
              exists k :: 0 <= k < |chunks| && x.node in chunks[k].ids
                          && x.index == chunks[k].index && x.size == chunks[k].size
    decreases |chunks|
  {
    if chunks != [] {
      var init, c := chunks[..|chunks| - 1], chunks[|chunks| - 1];
      FlattenMembers(init);
      forall k, i: nat | 0 <= k < |chunks| && i in chunks[k].ids
        ensures Copy(chunks[k].index, chunks[k].size, i) in Flatten(chunks)
      {
        if k < |init| {
          assert init[k] == chunks[k];
        } else {
          var r :| 0 <= r < |c.ids| && c.ids[r] == i;
          assert CopiesOf(c)[r] == Copy(c.index, c.size, i);
        }
      }
      forall x | x in Flatten(chunks)
        ensures exists k :: 0 <= k < |chunks| && x.node in chunks[k].ids
                            && x.index == chunks[k].index && x.size == chunks[k].size
      {
        if x in Flatten(init) {
          var k :| 0 <= k < |init| && x.node in init[k].ids && x.index == init[k].index && x.size == init[k].size;
          assert chunks[k] == init[k];
        } else {
          assert x in CopiesOf(c);
          assert x.node in chunks[|chunks| - 1].ids;
        }
      }
    }
  }

  lemma {:induction false} DistinctSize(ids: seq<nat>)
    requires Distinct(ids)
    ensures |ToSet(ids)| == |ids|
    decreases |ids|
  {
    if ids != [] {
      var rest := ids[1..];
      DistinctSize(rest);
      assert ids[0] !in rest;
      assert ToSet(ids) == {ids[0]} + ToSet(rest);
    }
  }

  lemma {:induction false} SubsetSize(a: set<nat>, b: set<nat>)
    requires a <= b
    ensures |a| <= |b|
    decreases a
  {
    if a != {} {
      var x :| x in a;
      SubsetSize(a - {x}, b - {x});
    }
  }

  // ------------------------------------------------------------------------- invariants

  /** pending_uploads is exactly the set of names of admitted, unfinished uploads. */
  ghost predicate PendingExact(pending: set<string>, uploads: map<nat, Upload>) {
    && (forall o :: o in uploads ==> uploads[o].name in pending)
    && (forall f :: f in pending ==> exists o :: o in uploads && uploads[o].name == f)
  }

  /** No two unfinished writers share a name. */
  ghost predicate OneWriter(uploads: map<nat, Upload>, deletions: map<nat, Deletion>) {
    && (forall o, p :: o in uploads && p in uploads && o != p ==> uploads[o].name != uploads[p].name)
    && (forall o, p :: o in deletions && p in deletions && o != p ==> deletions[o].name != deletions[p].name)
    && (forall o, p :: o in uploads && p in deletions ==> uploads[o].name != deletions[p].name)
  }

  /** The metadata a writer copied at its start is still what the map says. */
  ghost predicate Fresh(meta: map<string, FileMeta>, uploads: map<nat, Upload>, deletions: map<nat, Deletion>) {
    && (forall o :: o in uploads ==>
          uploads[o].prior == if uploads[o].name in meta then Some(meta[uploads[o].name]) else None)
    && (forall o :: o in deletions ==> deletions[o].name in meta && meta[deletions[o].name] == deletions[o].meta)
  }

  /** The part of the invariant that events need to be defined at all, the load index, and that
      only nodes there are can be dead. */
  ghost predicate Sound(s: State) {
    Shaped(s) && IndexAgrees(s.load, s.dead) && Known(s.dead, s.cfg)
  }

  predicate Known(nodes: set<nat>, cfg: Config) {
    forall i :: i in nodes ==> i < cfg.nodes
  }

  ghost predicate Named(s: State) {
    PendingExact(s.pending, s.uploads) && OneWriter(s.uploads, s.deletions) && Fresh(s.meta, s.uploads, s.deletions)
  }

  // ---------------------------------------------------------------- shape and load index

  lemma ReserveSound(s: State, op: nat)
    requires Sound(s) && Enabled(s, Reserve(op))
    ensures Sound(DoReserve(s, op))
  {
    var u := s.uploads[op];
    AdjustAgrees(s.load, s.dead, CopiesOf(Current(u, s.cfg, u.phase.chosen)), 1);
  }

  lemma SelectSound(s: State, op: nat, chosen: seq<nat>)
    requires Sound(s) && Enabled(s, Select(op, chosen))
    ensures Sound(DoSelect(s, op, chosen))
  {
    LeastLoadedDistinct(s.load.bytes, s.uploads[op].fds - s.dead, s.cfg.replicas, chosen);
  }

  lemma SettledShape(u: Upload, cfg: Config)
    requires UploadShaped(u, cfg) && AllAnswered(u.phase)
    ensures UploadShaped(SettledUpload(u, cfg, Answered(u.phase.chosen, u.phase.answers, true),
                                       Answered(u.phase.chosen, u.phase.answers, false)), cfg)
  {
    var good := Answered(u.phase.chosen, u.phase.answers, true);
    AnsweredFacts(u.phase.chosen, u.phase.answers, true);
    FlattenAppend(u.chunks, Current(u, cfg, good));
  }

  lemma SettleIndex(s: State, op: nat)
    requires Sound(s) && Enabled(s, Settle(op))
    ensures IndexAgrees(DoSettle(s, op).load, s.dead)
    ensures |DoSettle(s, op).load.bytes| == s.cfg.nodes
  {
    var u := s.uploads[op];
    var bad := Answered(u.phase.chosen, u.phase.answers, false);
    AnsweredFacts(u.phase.chosen, u.phase.answers, false);
    AdjustAgrees(s.load, s.dead, CopiesOf(Current(u, s.cfg, bad)), -1);
  }

  lemma MoreDead(l: Load, dead: set<nat>, more: set<nat>)
    requires IndexAgrees(l, dead)
    ensures IndexAgrees(l, dead + more)
  {
  }

  lemma FailedKnown(s: State, op: nat)
    requires Sound(s) && Enabled(s, Settle(op))
    ensures Known(DoSettle(s, op).dead, s.cfg)
  {
    AnsweredFacts(s.uploads[op].phase.chosen, s.uploads[op].phase.answers, false);
  }

  lemma SettleSound(s: State, op: nat)
    requires Sound(s) && Enabled(s, Settle(op))
    ensures Sound(DoSettle(s, op))
  {
    var u := s.uploads[op];
    var t := DoSettle(s, op);
    FailedKnown(s, op);
    hide Known;
    SettleIndex(s, op);
    MoreDead(t.load, s.dead, ToSet(Answered(u.phase.chosen, u.phase.answers, false)));
    SettledShape(u, s.cfg);
    assert UploadsShaped(t.uploads, s.cfg);
  }

  lemma StoreReplySound(s: State, op: nat, node: nat, acked: bool, effect: Option<string>)
    requires Sound(s) && Enabled(s, StoreReply(op, node, acked, effect))
    ensures Sound(DoStoreReply(s, op, node, acked, effect))
  {
  }

  lemma SweepSound(s: State, op: nat, acked: bool, effect: Option<string>)
    requires Sound(s) && Enabled(s, Sweep(op, acked, effect))
    ensures Sound(DoSweep(s, op, acked, effect))
  {
  }

  lemma EndUploadSound(s: State, op: nat)
    requires Sound(s)
    ensures Enabled(s, Abort(op)) ==> Sound(DoAbort(s, op))
    ensures Enabled(s, Commit(op)) ==> Sound(DoCommit(s, op))
  {
    if op in s.uploads {
      AdjustAgrees(s.load, s.dead, Flatten(s.uploads[op].chunks), -1);
      AdjustAgrees(s.load, s.dead, PriorCopies(s.uploads[op]), -1);
    }
  }

  lemma ConnectSound(s: State, op: nat, unreachable: set<nat>)
    requires Sound(s) && op in s.uploads
    ensures Sound(DoConnect(s, op, unreachable))
  {
  }

  lemma AdmitSound(s: State, op: nat, name: string, content: string)
    requires Sound(s) && content != ""
    ensures Sound(DoAdmit(s, op, name, content))
  {
  }

  lemma BeginUploadSound(s: State, e: Event)
    requires Sound(s) && Enabled(s, e) && (e.Admit? || e.Connect? || e.ClientLost?)
    ensures Sound(ApplyUpload(s, e))
  {
    if e.Admit? {
      AdmitSound(s, e.op, e.name, e.content);
    } else if e.Connect? {
      ConnectSound(s, e.op, e.unreachable);
    }
  }

  lemma ChunkSound(s: State, e: Event)
    requires Sound(s) && Enabled(s, e) && (e.Select? || e.Reserve? || e.StoreReply? || e.Settle?)
    ensures Sound(ApplyUpload(s, e))
  {
    match e
    case Select(op, chosen) => SelectSound(s, op, chosen);
    case Reserve(op) => ReserveSound(s, op);
    case StoreReply(op, node, acked, effect) => StoreReplySound(s, op, node, acked, effect);
    case Settle(op) => SettleSound(s, op);
  }

  lemma LateUploadSound(s: State, e: Event)
    requires Sound(s) && Enabled(s, e) && (e.Sweep? || e.Abort? || e.Commit?)
    ensures Sound(ApplyUpload(s, e))
  {
    if e.Sweep? {
      SweepSound(s, e.op, e.acked, e.effect);
    } else {
      EndUploadSound(s, e.op);
    }
  }

  lemma UploadSound(s: State, e: Event)
    requires Sound(s) && Enabled(s, e) && OfUpload(e)
    ensures Sound(ApplyUpload(s, e))
  {
    if e.Sweep? || e.Abort? || e.Commit? {
      LateUploadSound(s, e);
    } else if e.Admit? || e.Connect? || e.ClientLost? {
      BeginUploadSound(s, e);
    } else {
      ChunkSound(s, e);
    }
  }

  lemma DeleteCopySound(s: State, op: nat, outcome: DeleteReply, effect: Option<string>)
    requires Sound(s) && Enabled(s, DeleteCopy(op, outcome, effect))
    ensures Sound(DoDeleteCopy(s, op, outcome, effect))
  {
    var c := Flatten(s.deletions[op].meta.chunks)[s.deletions[op].pos];
    AdjustAgrees(s.load, s.dead, [c], -1);
  }

  lemma ReplicaKnown(chunks: seq<ChunkMeta>, cfg: Config, k: nat, r: nat)
    requires k < |chunks| && r < |chunks[k].ids| && InRange(Flatten(chunks), cfg.nodes)
    ensures chunks[k].ids[r] < cfg.nodes
  {
    FlattenMembers(chunks);
    var i := chunks[k].ids[r];
    assert i in chunks[k].ids;
    assert Copy(chunks[k].index, chunks[k].size, i) in Flatten(chunks);
  }

  lemma RetrieveSound(s: State, op: nat, got: RetrieveReply)
    requires op in s.downloads && CanRetrieve(s, s.downloads[op], got) && Sound(s)
    ensures Sound(DoRetrieve(s, op, got))
  {
    var d := s.downloads[op];
    ReplicaKnown(d.meta.chunks, s.cfg, d.chunk, d.replica);
  }

  lemma OtherSound(s: State, e: Event)
    requires Sound(s) && Enabled(s, e) && !OfUpload(e)
    ensures Sound(Apply(s, e))
  {
    if e.DeleteCopy? {
      DeleteCopySound(s, e.op, e.outcome, e.effect);
    } else if e.Retrieve? {
      RetrieveSound(s, e.op, e.got);
    } else if e.Revive? {
      BumpAgrees(s.load, s.dead, e.node, e.total - s.load.bytes[e.node]);
    }
  }

  /** The index agrees with the array after every event: through kills, later updates to killed
      nodes, and revivals. */
  lemma SoundKept(s: State, e: Event)
    requires Sound(s) && Enabled(s, e)
    ensures Sound(Apply(s, e)) && Apply(s, e).cfg == s.cfg
  {
    if OfUpload(e) {
      UploadSound(s, e);
    } else {
      OtherSound(s, e);
    }
  }

  /** The index holds each live node exactly once, under its current total, so walking it
      visits exactly the nodes that are not dead. */
  lemma IndexVisitsLiveNodes(s: State)
    requires Sound(s)
    ensures Tried(s) == set i: nat | i < s.cfg.nodes && i !in s.dead
    ensures forall e, f :: e in s.load.heap && f in s.load.heap && e.1 == f.1 ==> e == f
  {
    forall i: nat | i < s.cfg.nodes && i !in s.dead ensures i in Tried(s) {
      assert (s.load.bytes[i], i) in s.load.heap;
    }
  }

  // --------------------------------------------------------------- who writes which name

  /** What an in-place change of one upload must respect. */
  ghost predicate SameUpload(u: Upload, v: Upload) {
    v.name == u.name && v.prior == u.prior && v.content == u.content
  }

  lemma UploadReplaced(s: State, op: nat, v: Upload)
    requires Named(s) && op in s.uploads && SameUpload(s.uploads[op], v)
    ensures PendingExact(s.pending, s.uploads[op := v])
    ensures OneWriter(s.uploads[op := v], s.deletions)
    ensures Fresh(s.meta, s.uploads[op := v], s.deletions)
  {
    var after := s.uploads[op := v];
    forall f | f in s.pending ensures exists o :: o in after && after[o].name == f {
      var o :| o in s.uploads && s.uploads[o].name == f;
      assert o in after && after[o].name == f;
    }
  }

  lemma UploadAdded(s: State, op: nat, u: Upload)
    requires PendingExact(s.pending, s.uploads) && op !in s.uploads
    ensures PendingExact(s.pending + {u.name}, s.uploads[op := u])
  {
    var after := s.uploads[op := u];
    forall f | f in s.pending + {u.name} ensures exists o :: o in after && after[o].name == f {
      if f == u.name {
        assert op in after && after[op].name == f;
      } else {
        var o :| o in s.uploads && s.uploads[o].name == f;
        assert o in after && after[o].name == f;
      }
    }
  }

  lemma UploadRemoved(s: State, op: nat)
    requires Named(s) && op in s.uploads
    ensures PendingExact(s.pending - {s.uploads[op].name}, s.uploads - {op})
    ensures OneWriter(s.uploads - {op}, s.deletions)
    ensures Fresh(s.meta, s.uploads - {op}, s.deletions)
  {
    var after := s.uploads - {op};
    forall f | f in s.pending - {s.uploads[op].name} ensures exists o :: o in after && after[o].name == f {
      var o :| o in s.uploads && s.uploads[o].name == f;
      assert o in after && after[o].name == f;
    }
  }

  /** The upload events that change one upload in place. */
  predicate InPlace(e: Event) {
    OfUpload(e) && !e.Admit? && !e.Abort? && !e.Commit?
  }

  ghost predicate ReplacesUpload(s: State, t: State, op: nat) {
    && op in s.uploads && op in t.uploads && t.uploads == s.uploads[op := t.uploads[op]]
    && SameUpload(s.uploads[op], t.uploads[op])
    && t.pending == s.pending && t.meta == s.meta && t.contents == s.contents
    && t.deletions == s.deletions && t.downloads == s.downloads && t.drift == s.drift && t.cfg == s.cfg
  }

  lemma StoreReplaces(s: State, e: Event)
    requires Shaped(s) && Enabled(s, e) && (e.StoreReply? || e.Settle? || e.Sweep?)
    ensures ReplacesUpload(s, ApplyUpload(s, e), e.op)
  {
  }

  lemma InPlaceReplaces(s: State, e: Event)
    requires Shaped(s) && Enabled(s, e) && InPlace(e)
    ensures ReplacesUpload(s, ApplyUpload(s, e), e.op)
  {
    if e.StoreReply? || e.Settle? || e.Sweep? {
      StoreReplaces(s, e);
    }
  }

  lemma AdmitNamed(s: State, op: nat, name: string, content: string)
    requires Named(s) && Enabled(s, Admit(op, name, content))
    ensures Named(DoAdmit(s, op, name, content))
  {
    hide NoOrphans, Flatten;
    UploadAdded(s, op, DoAdmit(s, op, name, content).uploads[op]);
  }

  lemma UploadNamed(s: State, e: Event)
    requires Shaped(s) && Named(s) && Enabled(s, e) && OfUpload(e)
    ensures Named(ApplyUpload(s, e))
  {
    if InPlace(e) {
      InPlaceReplaces(s, e);
      UploadReplaced(s, e.op, ApplyUpload(s, e).uploads[e.op]);
    } else if e.Admit? {
      AdmitNamed(s, e.op, e.name, e.content);
    } else {
      UploadRemoved(s, e.op);
    }
  }

  lemma DeletionReplaced(s: State, op: nat, d: Deletion)
    requires Named(s) && op in s.deletions && d.name == s.deletions[op].name && d.meta == s.deletions[op].meta
    ensures Named(s.(deletions := s.deletions[op := d]))
  {
  }

  lemma BeginDeleteNamed(s: State, op: nat, name: string)
    requires Named(s) && Enabled(s, BeginDelete(op, name))
    ensures Named(DoBeginDelete(s, op, name))
  {
  }

  lemma DeleteCopyNamed(s: State, op: nat, outcome: DeleteReply, effect: Option<string>)
    requires Shaped(s) && Named(s) && Enabled(s, DeleteCopy(op, outcome, effect))
    ensures Named(DoDeleteCopy(s, op, outcome, effect))
  {
    DeletionReplaced(s, op, DoDeleteCopy(s, op, outcome, effect).deletions[op]);
  }

  lemma EndDeleteNamed(s: State, op: nat)
    requires Shaped(s) && Named(s) && Enabled(s, EndDelete(op))
    ensures Named(DoEndDelete(s, op))
  {
  }

  lemma DeleteNamed(s: State, e: Event)
    requires Shaped(s) && Named(s) && Enabled(s, e) && (e.BeginDelete? || e.DeleteCopy? || e.EndDelete?)
    ensures Named(Apply(s, e))
  {
    if e.BeginDelete? {
      BeginDeleteNamed(s, e.op, e.name);
    } else if e.DeleteCopy? {
      DeleteCopyNamed(s, e.op, e.outcome, e.effect);
    } else {
      EndDeleteNamed(s, e.op);
    }
  }

  /** pending_uploads stays exact, and writers of one name stay mutually excluded. */
  lemma NamedKept(s: State, e: Event)
    requires Shaped(s) && Named(s) && Enabled(s, e)
    ensures Named(Apply(s, e))
  {
    if OfUpload(e) {
      UploadNamed(s, e);
    } else if e.BeginDelete? || e.DeleteCopy? || e.EndDelete? {
      DeleteNamed(s, e);
    }
  }
}
