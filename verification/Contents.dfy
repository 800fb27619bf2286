/** Refinement to a plain map from names to bytes: what the disks hold for committed files and
    for uploads on their way, kept by every event. */
module Contents {
  import opened Wrappers
  import opened ChunkNames
  import opened Chunking
  import opened Load
  import opened Cluster
  import opened Invariants

  /** These are the first chunks of `content`, in order, each on some distinct nodes. */
  ghost predicate ChunksOf(chunks: seq<ChunkMeta>, content: string, cfg: Config) {
    forall k :: 0 <= k < |chunks| ==>
      && chunks[k].index == k && chunks[k].size == |Slice(content, cfg.chunk, k)|
      && chunks[k].ids != [] && Distinct(chunks[k].ids) && |chunks[k].ids| <= cfg.replicas
  }

  /** The chunks read so far do not make up the whole content; these do. */
  predicate Unfinished(n: nat, cfg: Config, count: nat) {
    Offset(n, cfg.chunk, count) < n
  }

  predicate Whole(n: nat, cfg: Config, count: nat) {
    count > 0 && Offset(n, cfg.chunk, count) == n && Offset(n, cfg.chunk, count - 1) < n
  }

  /** Every listed replica holds exactly its slice. */
  ghost predicate Placed(disks: Disks, f: string, chunks: seq<ChunkMeta>, content: string, cfg: Config) {
    forall k, i: nat :: 0 <= k < |chunks| && i in chunks[k].ids ==>
      Stored(disks, i, ChunkName(f, k), Slice(content, cfg.chunk, k))
  }

  ghost predicate FullyReplicated(chunks: seq<ChunkMeta>, cfg: Config) {
    forall k :: 0 <= k < |chunks| ==> |chunks[k].ids| == cfg.replicas
  }

  ghost predicate FileFaithful(m: FileMeta, content: string, tainted: bool, f: string, disks: Disks, cfg: Config) {
    && m.total == |content| && ChunksOf(m.chunks, content, cfg) && Whole(|content|, cfg, |m.chunks|)
    && (!tainted ==> Placed(disks, f, m.chunks, content, cfg))
  }

  ghost predicate FilesFaithful(meta: map<string, FileMeta>, contents: map<string, string>,
                                tainted: set<string>, disks: Disks, cfg: Config) {
    forall f :: f in contents ==> f in meta && FileFaithful(meta[f], contents[f], f in tainted, f, disks, cfg)
  }

  ghost predicate UploadFaithful(u: Upload, disks: Disks, tainted: set<string>, cfg: Config) {
    && ChunksOf(u.chunks, u.content, cfg) && Placed(disks, u.name, u.chunks, u.content, cfg)
    && (!u.reduced ==> FullyReplicated(u.chunks, cfg))
    && (u.phase.Sweeping? ==> Whole(|u.content|, cfg, |u.chunks|))
    && (!u.phase.Sweeping? && !u.phase.Aborting? ==> Unfinished(|u.content|, cfg, |u.chunks|))
    && (u.prior.Some? && (u.chunks != [] || (u.phase.Storing? && u.phase.answers != map[])) ==> u.name in tainted)
    && (u.phase.Storing? ==> AnswersHold(u, disks, cfg))
  }

  /** A replica that acknowledged the current chunk holds it. */
  ghost predicate AnswersHold(u: Upload, disks: Disks, cfg: Config)
    requires u.phase.Storing?
  {
    forall i :: i in u.phase.answers ==>
      i in u.phase.chosen && (u.phase.answers[i] ==> Stored(disks, i, ChunkName(u.name, |u.chunks|), Piece(u, cfg)))
  }

  ghost predicate UploadsFaithful(uploads: map<nat, Upload>, disks: Disks, tainted: set<string>, cfg: Config) {
    forall o :: o in uploads ==> UploadFaithful(uploads[o], disks, tainted, cfg)
  }

  ghost predicate DeletionsFaithful(deletions: map<nat, Deletion>, tainted: set<string>) {
    forall o :: o in deletions ==> deletions[o].name in tainted
  }

  /** As long as nothing was written under its name since it began, a download that has not
      skipped a chunk has emitted exactly the chunks so far. */
  ghost predicate DownloadFaithful(d: Download, meta: map<string, FileMeta>, contents: map<string, string>,
                                   tainted: set<string>, stamps: map<string, nat>, cfg: Config) {
    && d.stamp <= Stamp(stamps, d.name)
    && (d.clean && d.stamp == Stamp(stamps, d.name) ==>
          && d.name in contents && d.name !in tainted && contents[d.name] == d.content
          && d.name in meta && meta[d.name] == d.meta
          && (d.complete ==> d.emitted == Joined(d.content, cfg.chunk, d.chunk)))
  }

  ghost predicate DownloadsFaithful(downloads: map<nat, Download>, meta: map<string, FileMeta>,
                                    contents: map<string, string>, tainted: set<string>,
                                    stamps: map<string, nat>, cfg: Config) {
    forall o :: o in downloads ==> DownloadFaithful(downloads[o], meta, contents, tainted, stamps, cfg)
  }

  ghost predicate Faithful(s: State) {
    && FilesFaithful(s.meta, s.contents, s.tainted, s.disks, s.cfg)
    && UploadsFaithful(s.uploads, s.disks, s.tainted, s.cfg)
    && DeletionsFaithful(s.deletions, s.tainted)
    && DownloadsFaithful(s.downloads, s.meta, s.contents, s.tainted, s.stamps, s.cfg)
  }

  // -------------------------------------------------------------- one chunk file changes

  lemma TouchElsewhere(disks: Disks, node: nat, name: string, effect: Option<string>, i: nat, other: string,
                       bytes: string)
    requires node < |disks| && (i != node || other != name)
    ensures Stored(Touch(disks, node, name, effect), i, other, bytes) == Stored(disks, i, other, bytes)
    ensures OnDisk(Touch(disks, node, name, effect), i, other) == OnDisk(disks, i, other)
  {
  }

  /** Changing one chunk file leaves every placement alone that does not list it. Other names
      never do, because chunk names are injective. */
  lemma PlacedTouched(disks: Disks, node: nat, f: string, index: nat, effect: Option<string>,
                      g: string, chunks: seq<ChunkMeta>, content: string, cfg: Config)
    requires node < |disks| && Placed(disks, g, chunks, content, cfg)
    requires g != f || index >= |chunks| || node !in chunks[index].ids
    ensures Placed(Touch(disks, node, ChunkName(f, index), effect), g, chunks, content, cfg)
  {
    var after := Touch(disks, node, ChunkName(f, index), effect);
    forall k, i: nat | 0 <= k < |chunks| && i in chunks[k].ids
      ensures Stored(after, i, ChunkName(g, k), Slice(content, cfg.chunk, k))
    {
      if ChunkName(g, k) == ChunkName(f, index) {
        ChunkNameInjective(g, k, f, index);
      }
      TouchElsewhere(disks, node, ChunkName(f, index), effect, i, ChunkName(g, k), Slice(content, cfg.chunk, k));
    }
  }

  lemma FilesTouched(s: State, node: nat, f: string, index: nat, effect: Option<string>, tainted: set<string>)
    requires node < |s.disks| && FilesFaithful(s.meta, s.contents, s.tainted, s.disks, s.cfg)
    requires s.tainted <= tainted && (f in s.contents ==> f in tainted)
    ensures FilesFaithful(s.meta, s.contents, tainted, Touch(s.disks, node, ChunkName(f, index), effect), s.cfg)
  {
    forall g | g in s.contents && g !in tainted
      ensures Placed(Touch(s.disks, node, ChunkName(f, index), effect), g, s.meta[g].chunks, s.contents[g], s.cfg)
    {
      PlacedTouched(s.disks, node, f, index, effect, g, s.meta[g].chunks, s.contents[g], s.cfg);
    }
  }

  lemma UploadTouched(u: Upload, disks: Disks, tainted: set<string>, cfg: Config,
                      node: nat, f: string, index: nat, effect: Option<string>, more: set<string>)
    requires node < |disks| && UploadFaithful(u, disks, tainted, cfg) && u.name != f && tainted <= more
    ensures UploadFaithful(u, Touch(disks, node, ChunkName(f, index), effect), more, cfg)
  {
    PlacedTouched(disks, node, f, index, effect, u.name, u.chunks, u.content, cfg);
    if u.phase.Storing? {
      forall i | i in u.phase.answers && u.phase.answers[i]
        ensures Stored(Touch(disks, node, ChunkName(f, index), effect), i, ChunkName(u.name, |u.chunks|), Piece(u, cfg))
      {
        if ChunkName(u.name, |u.chunks|) == ChunkName(f, index) {
          ChunkNameInjective(u.name, |u.chunks|, f, index);
        }
        TouchElsewhere(disks, node, ChunkName(f, index), effect, i, ChunkName(u.name, |u.chunks|), Piece(u, cfg));
      }
    }
  }

  /** The other uploads do not notice. */
  lemma OtherUploadsTouched(s: State, op: nat, v: Upload, node: nat, f: string, index: nat, effect: Option<string>,
                            more: set<string>)
    requires node < |s.disks| && UploadsFaithful(s.uploads, s.disks, s.tainted, s.cfg) && s.tainted <= more
    requires forall o :: o in s.uploads && o != op ==> s.uploads[o].name != f
    requires UploadFaithful(v, Touch(s.disks, node, ChunkName(f, index), effect), more, s.cfg)
    ensures UploadsFaithful(s.uploads[op := v], Touch(s.disks, node, ChunkName(f, index), effect), more, s.cfg)
  {
    forall o | o in s.uploads && o != op
      ensures UploadFaithful(s.uploads[o], Touch(s.disks, node, ChunkName(f, index), effect), more, s.cfg)
    {
      UploadTouched(s.uploads[o], s.disks, s.tainted, s.cfg, node, f, index, effect, more);
    }
  }

  /** A write under f ends every claim about downloads of f and disturbs no other. */
  lemma DownloadsBumped(s: State, f: string, meta: map<string, FileMeta>, contents: map<string, string>,
                        tainted: set<string>)
    requires DownloadsFaithful(s.downloads, s.meta, s.contents, s.tainted, s.stamps, s.cfg)
    requires forall g :: g != f ==> (g in meta <==> g in s.meta) && (g in s.meta ==> meta[g] == s.meta[g])
    requires forall g :: g != f ==>
              (g in contents <==> g in s.contents) && (g in s.contents ==> contents[g] == s.contents[g])
    requires forall g :: g != f ==> (g in tainted <==> g in s.tainted)
    ensures DownloadsFaithful(s.downloads, meta, contents, tainted, Bumped(s.stamps, f), s.cfg)
  {
    var stamps := Bumped(s.stamps, f);
    assert forall g :: Stamp(stamps, g) == Stamp(s.stamps, g) + (if g == f then 1 else 0);
  }

  // --------------------------------------------------------------- events without a write

  /** Only one upload changes, and nothing it is judged by. */
  lemma QuietReplace(s: State, op: nat, v: Upload)
    requires Faithful(s) && UploadFaithful(v, s.disks, s.tainted, s.cfg)
    ensures UploadsFaithful(s.uploads[op := v], s.disks, s.tainted, s.cfg)
  {
  }

  lemma QuietFaithful(s: State, e: Event)
    requires Shaped(s) && Faithful(s) && Enabled(s, e) && (e.Connect? || e.ClientLost? || e.Select? || e.Reserve?)
    ensures Faithful(ApplyUpload(s, e))
  {
    var v := ApplyUpload(s, e).uploads[e.op];
    assert UploadFaithful(v, s.disks, s.tainted, s.cfg);
    QuietReplace(s, e.op, v);
  }

  lemma AdmitFaithful(s: State, op: nat, name: string, content: string)
    requires Faithful(s) && Enabled(s, Admit(op, name, content))
    ensures Faithful(DoAdmit(s, op, name, content))
  {
    var v := DoAdmit(s, op, name, content).uploads[op];
    assert UploadFaithful(v, s.disks, s.tainted, s.cfg);
    QuietReplace(s, op, v);
  }

  /** Recording the good replicas of a chunk keeps the upload a faithful prefix. */
  lemma SettledFaithful(u: Upload, disks: Disks, tainted: set<string>, cfg: Config)
    requires UploadShaped(u, cfg) && AllAnswered(u.phase) && UploadFaithful(u, disks, tainted, cfg)
    ensures UploadFaithful(SettledUpload(u, cfg, Answered(u.phase.chosen, u.phase.answers, true),
                                         Answered(u.phase.chosen, u.phase.answers, false)), disks, tainted, cfg)
  {
    var good := Answered(u.phase.chosen, u.phase.answers, true);
    var bad := Answered(u.phase.chosen, u.phase.answers, false);
    AnsweredFacts(u.phase.chosen, u.phase.answers, true);
    var v := SettledUpload(u, cfg, good, bad);
    if good != [] {
      var c := Current(u, cfg, good);
      assert good[0] in u.phase.answers;
      forall k, i: nat | 0 <= k < |v.chunks| && i in v.chunks[k].ids
        ensures Stored(disks, i, ChunkName(u.name, k), Slice(u.content, cfg.chunk, k))
      {
        if k == |u.chunks| {
          assert i in good;
        } else {
          assert v.chunks[k] == u.chunks[k];
        }
      }
    }
  }

  lemma SettleFaithful(s: State, op: nat)
    requires Shaped(s) && Faithful(s) && Enabled(s, Settle(op))
    ensures Faithful(DoSettle(s, op))
  {
    SettledFaithful(s.uploads[op], s.disks, s.tainted, s.cfg);
    QuietReplace(s, op, DoSettle(s, op).uploads[op]);
  }

  lemma AbortFaithful(s: State, op: nat)
    requires Shaped(s) && Faithful(s) && Enabled(s, Abort(op))
    ensures Faithful(DoAbort(s, op))
  {
  }

  // ------------------------------------------------------------------ events with a write

  /** The replying replica's own chunk file is the only one that changes. */
  lemma ReplyingUpload(u: Upload, disks: Disks, tainted: set<string>, cfg: Config,
                       node: nat, acked: bool, effect: Option<string>, more: set<string>)
    requires node < |disks| && UploadFaithful(u, disks, tainted, cfg) && u.phase.Storing?
    requires node in u.phase.chosen && node !in u.phase.answers
    requires tainted <= more && (u.prior.Some? ==> u.name in more)
    ensures var v := u.(phase := Storing(u.phase.chosen, u.phase.answers[node := acked]), exact := u.exact && acked);
            var bytes := if acked then Some(Piece(u, cfg)) else effect;
            UploadFaithful(v, Touch(disks, node, ChunkName(u.name, |u.chunks|), bytes), more, cfg)
  {
    var v := u.(phase := Storing(u.phase.chosen, u.phase.answers[node := acked]), exact := u.exact && acked);
    var bytes := if acked then Some(Piece(u, cfg)) else effect;
    var name := ChunkName(u.name, |u.chunks|);
    PlacedTouched(disks, node, u.name, |u.chunks|, bytes, u.name, u.chunks, u.content, cfg);
    forall i | i in v.phase.answers
      ensures i in v.phase.chosen
      ensures v.phase.answers[i] ==> Stored(Touch(disks, node, name, bytes), i, name, Piece(u, cfg))
    {
      if i != node {
        TouchElsewhere(disks, node, name, bytes, i, name, Piece(u, cfg));
      }
    }
  }

  lemma ReplyingUploads(s: State, op: nat, node: nat, acked: bool, effect: Option<string>)
    requires Shaped(s) && Named(s) && Enabled(s, StoreReply(op, node, acked, effect))
    requires UploadsFaithful(s.uploads, s.disks, s.tainted, s.cfg)
    ensures var t := DoStoreReply(s, op, node, acked, effect); UploadsFaithful(t.uploads, t.disks, t.tainted, t.cfg)
  {
    var u := s.uploads[op];
    var t := DoStoreReply(s, op, node, acked, effect);
    ReplyingUpload(u, s.disks, s.tainted, s.cfg, node, acked, effect, t.tainted);
    OtherUploadsTouched(s, op, t.uploads[op], node, u.name, |u.chunks|,
                        if acked then Some(Piece(u, s.cfg)) else effect, t.tainted);
  }

  lemma StoreReplyFaithful(s: State, op: nat, node: nat, acked: bool, effect: Option<string>)
    requires Shaped(s) && Named(s) && Faithful(s) && Enabled(s, StoreReply(op, node, acked, effect))
    ensures Faithful(DoStoreReply(s, op, node, acked, effect))
  {
    var u := s.uploads[op];
    var t := DoStoreReply(s, op, node, acked, effect);
    ReplyingUploads(s, op, node, acked, effect);
    FilesTouched(s, node, u.name, |u.chunks|, if acked then Some(Piece(u, s.cfg)) else effect, t.tainted);
    DownloadsBumped(s, u.name, t.meta, t.contents, t.tainted);
  }

  /** A copy the sweep deletes is not part of the new placement. */
  lemma SweepMisses(u: Upload, cfg: Config, c: Copy)
    requires ChunksOf(u.chunks, u.content, cfg) && !Kept(u, c)
    ensures c.index >= |u.chunks| || c.node !in u.chunks[c.index].ids
  {
    FlattenMembers(u.chunks);
  }

  /** The sweeping upload itself keeps its new placement. */
  lemma SweepingUpload(u: Upload, disks: Disks, tainted: set<string>, cfg: Config, c: Copy, acked: bool,
                       bytes: Option<string>)
    requires UploadFaithful(u, disks, tainted, cfg) && u.phase.Sweeping? && c.node < |disks|
    ensures Kept(u, c) ==> UploadFaithful(SweptUpload(u, c, acked), disks, tainted, cfg)
    ensures !Kept(u, c) ==>
              UploadFaithful(SweptUpload(u, c, acked), Touch(disks, c.node, ChunkName(u.name, c.index), bytes),
                             tainted, cfg)
  {
    if !Kept(u, c) {
      SweepMisses(u, cfg, c);
      PlacedTouched(disks, c.node, u.name, c.index, bytes, u.name, u.chunks, u.content, cfg);
    }
  }

  lemma SweptUploads(s: State, op: nat, c: Copy, acked: bool, bytes: Option<string>)
    requires OneWriter(s.uploads, s.deletions) && UploadsFaithful(s.uploads, s.disks, s.tainted, s.cfg)
    requires op in s.uploads && s.uploads[op].phase.Sweeping? && c.node < |s.disks|
    ensures var u := s.uploads[op];
            var after := s.uploads[op := SweptUpload(u, c, acked)];
            UploadsFaithful(after,
                            if Kept(u, c) then s.disks else Touch(s.disks, c.node, ChunkName(u.name, c.index), bytes),
                            s.tainted, s.cfg)
  {
    var u := s.uploads[op];
    SweepingUpload(u, s.disks, s.tainted, s.cfg, c, acked, bytes);
    if !Kept(u, c) {
      OtherUploadsTouched(s, op, SweptUpload(u, c, acked), c.node, u.name, c.index, bytes, s.tainted);
    }
  }

  lemma SweepFaithful(s: State, op: nat, acked: bool, effect: Option<string>)
    requires Shaped(s) && Named(s) && Faithful(s) && Enabled(s, Sweep(op, acked, effect))
    ensures Faithful(DoSweep(s, op, acked, effect))
  {
    var u := s.uploads[op];
    var c := PriorCopies(u)[u.phase.pos];
    var bytes := if acked then None else effect;
    SweptUploads(s, op, c, acked, bytes);
    assert UploadFaithful(u, s.disks, s.tainted, s.cfg);
    FilesTouched(s, c.node, u.name, c.index, bytes, s.tainted);
    DownloadsBumped(s, u.name, s.meta, s.contents, s.tainted);
  }

  /** Clearing the taint of one name concerns no other writer. */
  lemma OthersUntainted(s: State, f: string, uploads: map<nat, Upload>, deletions: map<nat, Deletion>)
    requires UploadsFaithful(s.uploads, s.disks, s.tainted, s.cfg) && DeletionsFaithful(s.deletions, s.tainted)
    requires forall o :: o in uploads ==> o in s.uploads && uploads[o] == s.uploads[o] && uploads[o].name != f
    requires forall o :: o in deletions ==> o in s.deletions && deletions[o] == s.deletions[o] && deletions[o].name != f
    ensures UploadsFaithful(uploads, s.disks, s.tainted - {f}, s.cfg)
    ensures DeletionsFaithful(deletions, s.tainted - {f})
  {
  }

  lemma CommitFaithful(s: State, op: nat)
    requires Shaped(s) && Named(s) && Faithful(s) && Enabled(s, Commit(op))
    ensures Faithful(DoCommit(s, op))
  {
    var u := s.uploads[op];
    var t := DoCommit(s, op);
    OthersUntainted(s, u.name, t.uploads, t.deletions);
    DownloadsBumped(s, u.name, t.meta, t.contents, t.tainted);
    assert FileFaithful(t.meta[u.name], u.content, false, u.name, s.disks, s.cfg);
  }

  lemma BeginDeleteFaithful(s: State, op: nat, name: string)
    requires Shaped(s) && Faithful(s) && Enabled(s, BeginDelete(op, name))
    ensures Faithful(DoBeginDelete(s, op, name))
  {
    var t := DoBeginDelete(s, op, name);
    DownloadsBumped(s, name, t.meta, t.contents, t.tainted);
  }

  lemma DeleteCopyFaithful(s: State, op: nat, outcome: DeleteReply, effect: Option<string>)
    requires Shaped(s) && Named(s) && Faithful(s) && Enabled(s, DeleteCopy(op, outcome, effect))
    ensures Faithful(DoDeleteCopy(s, op, outcome, effect))
  {
    var d := s.deletions[op];
    var c := Flatten(d.meta.chunks)[d.pos];
    var t := DoDeleteCopy(s, op, outcome, effect);
    var bytes := if outcome.Acknowledged? then None else effect;
    if outcome.Refused? || outcome.Acknowledged? {
      assert d.name in s.tainted;
      FilesTouched(s, c.node, d.name, c.index, bytes, s.tainted);
      forall o | o in s.uploads ensures UploadFaithful(s.uploads[o], t.disks, s.tainted, s.cfg) {
        UploadTouched(s.uploads[o], s.disks, s.tainted, s.cfg, c.node, d.name, c.index, bytes, s.tainted);
      }
    }
  }

  lemma EndDeleteFaithful(s: State, op: nat)
    requires Shaped(s) && Named(s) && Faithful(s) && Enabled(s, EndDelete(op))
    ensures Faithful(DoEndDelete(s, op))
  {
    var d := s.deletions[op];
    var t := DoEndDelete(s, op);
    OthersUntainted(s, d.name, t.uploads, t.deletions);
    DownloadsBumped(s, d.name, t.meta, t.contents, t.tainted);
  }

  // -------------------------------------------------------------------------- downloads

  /** What a listed replica of an undisturbed file delivers is the right slice. */
  lemma DeliversSlice(s: State, d: Download)
    requires FilesFaithful(s.meta, s.contents, s.tainted, s.disks, s.cfg)
    requires d.name in s.contents && d.name !in s.tainted && s.contents[d.name] == d.content
    requires d.name in s.meta && s.meta[d.name] == d.meta && CanRetrieve(s, d, Delivered)
    ensures var c := d.meta.chunks[d.chunk];
            s.disks[c.ids[d.replica]][ChunkName(d.name, c.index)] == Slice(d.content, s.cfg.chunk, d.chunk)
  {
    var c := d.meta.chunks[d.chunk];
    assert c.ids[d.replica] in d.meta.chunks[d.chunk].ids;
  }

  lemma RetrievedFaithful(s: State, d: Download, got: RetrieveReply)
    requires FilesFaithful(s.meta, s.contents, s.tainted, s.disks, s.cfg) && CanRetrieve(s, d, got)
    requires DownloadFaithful(d, s.meta, s.contents, s.tainted, s.stamps, s.cfg)
    ensures DownloadFaithful(NextRetrieval(s, d, got), s.meta, s.contents, s.tainted, s.stamps, s.cfg)
  {
    if got.Delivered? && d.clean && d.stamp == Stamp(s.stamps, d.name) {
      DeliversSlice(s, d);
    }
  }

  lemma RetrieveFaithful(s: State, op: nat, got: RetrieveReply)
    requires Shaped(s) && Faithful(s) && Enabled(s, Retrieve(op, got))
    ensures Faithful(DoRetrieve(s, op, got))
  {
    var d := s.downloads[op];
    assert DownloadFaithful(d, s.meta, s.contents, s.tainted, s.stamps, s.cfg);
    RetrievedFaithful(s, d, got);
  }

  lemma BeginDownloadFaithful(s: State, op: nat, name: string)
    requires Shaped(s) && Faithful(s) && Enabled(s, BeginDownload(op, name))
    ensures Faithful(DoBeginDownload(s, op, name))
  {
    var d := DoBeginDownload(s, op, name).downloads[op];
    assert DownloadFaithful(d, s.meta, s.contents, s.tainted, s.stamps, s.cfg);
  }

  lemma DownloadEventFaithful(s: State, e: Event)
    requires Shaped(s) && Faithful(s) && Enabled(s, e) && (e.BeginDownload? || e.Retrieve? || e.EndDownload?)
    ensures Faithful(Apply(s, e))
  {
    match e
    case Retrieve(op, got) => RetrieveFaithful(s, op, got);
    case BeginDownload(op, name) => BeginDownloadFaithful(s, op, name);
    case EndDownload(op) =>
  }

  lemma WriteFaithful(s: State, e: Event)
    requires Shaped(s) && Named(s) && Faithful(s) && Enabled(s, e) && (e.StoreReply? || e.Sweep?)
    ensures Faithful(ApplyUpload(s, e))
  {
    match e
    case StoreReply(op, node, acked, effect) => StoreReplyFaithful(s, op, node, acked, effect);
    case Sweep(op, acked, effect) => SweepFaithful(s, op, acked, effect);
  }

  lemma EndFaithful(s: State, e: Event)
    requires Shaped(s) && Named(s) && Faithful(s) && Enabled(s, e) && (e.Settle? || e.Abort? || e.Commit?)
    ensures Faithful(ApplyUpload(s, e))
  {
    match e
    case Settle(op) => SettleFaithful(s, op);
    case Abort(op) => AbortFaithful(s, op);
    case Commit(op) => CommitFaithful(s, op);
  }

  lemma UploadEventFaithful(s: State, e: Event)
    requires Shaped(s) && Named(s) && Faithful(s) && Enabled(s, e) && OfUpload(e)
    ensures Faithful(ApplyUpload(s, e))
  {
    if e.Admit? {
      AdmitFaithful(s, e.op, e.name, e.content);
    } else if e.Connect? || e.ClientLost? || e.Select? || e.Reserve? {
      QuietFaithful(s, e);
    } else if e.StoreReply? || e.Sweep? {
      WriteFaithful(s, e);
    } else {
      EndFaithful(s, e);
    }
  }

  lemma DeleteEventFaithful(s: State, e: Event)
    requires Shaped(s) && Named(s) && Faithful(s) && Enabled(s, e) && (e.BeginDelete? || e.DeleteCopy? || e.EndDelete?)
    ensures Faithful(Apply(s, e))
  {
    if e.BeginDelete? {
      BeginDeleteFaithful(s, e.op, e.name);
    } else if e.DeleteCopy? {
      DeleteCopyFaithful(s, e.op, e.outcome, e.effect);
    } else {
      EndDeleteFaithful(s, e.op);
    }
  }

  lemma FaithfulKept(s: State, e: Event)
    requires Shaped(s) && Named(s) && Faithful(s) && Enabled(s, e)
    ensures Faithful(Apply(s, e))
  {
    if OfUpload(e) {
      UploadEventFaithful(s, e);
    } else if e.BeginDelete? || e.DeleteCopy? || e.EndDelete? {
      DeleteEventFaithful(s, e);
    } else if e.BeginDownload? || e.Retrieve? || e.EndDownload? {
      DownloadEventFaithful(s, e);
    }
  }
}
