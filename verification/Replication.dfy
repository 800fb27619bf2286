/** What the warning at the end of an upload, and its absence, say about the replicas: over any
    interleaving with kills, failures found by others, and revivals. */
module Replication {
  import opened Cluster
  import opened Invariants
  import opened Runs
  import opened Attribution

  /** Every chunk is on at least this many nodes. */
  predicate Full(chunks: seq<ChunkMeta>, wanted: nat) {
    forall c :: c in chunks ==> |c.ids| >= wanted
  }

  /** Whenever this upload selected nodes, at least n of those it was connected to were live. */
  ghost predicate Plenty(s: State, es: seq<Event>, op: nat, n: nat)
    requires IsRun(s, es)
    decreases |es|
  {
    es == [] || ((Selects(es[0], op) ==> LiveCount(s, op) >= n) && Plenty(Apply(s, es[0]), es[1..], op, n))
  }

  predicate Selects(e: Event, op: nat) {
    e.Select? && e.op == op
  }

  /** The nodes that an upload is connected to and that are not dead. */
  function LiveCount(s: State, op: nat): nat {
    if op in s.uploads then |s.uploads[op].fds - s.dead| else 0
  }

  /** Some chunk, or the one being placed, is on fewer nodes than wanted. */
  ghost predicate Short(u: Upload, wanted: nat) {
    !Full(u.chunks, wanted) || ((u.phase.Selected? || u.phase.Storing?) && |u.phase.chosen| < wanted)
  }

  /** What the handler's two flags say, while it has not given up. */
  ghost predicate Flagged(u: Upload, wanted: nat) {
    && (u.reduced <==> !Full(u.chunks, wanted))
    && (u.failed != {} && !u.phase.Aborting? ==> u.reduced)
  }

  predicate Warned(u: Upload) {
    u.reduced && u.failed != {}
  }

  lemma {:induction false} GoodAndBad(chosen: seq<nat>, answers: map<nat, bool>)
    requires forall i :: i in chosen ==> i in answers
    ensures |Answered(chosen, answers, true)| + |Answered(chosen, answers, false)| == |chosen|
    decreases |chosen|
  {
    if chosen != [] {
      GoodAndBad(chosen[1..], answers);
    }
  }

  lemma NobodyBad(chosen: seq<nat>, answers: map<nat, bool>)
    requires forall i :: i in chosen ==> i in answers
    ensures ToSet(Answered(chosen, answers, false)) == {} <==> |Answered(chosen, answers, true)| == |chosen|
  {
    var bad := Answered(chosen, answers, false);
    GoodAndBad(chosen, answers);
    if bad != [] {
      assert bad[0] in ToSet(bad);
    }
  }

  lemma FullAppend(chunks: seq<ChunkMeta>, c: ChunkMeta, wanted: nat)
    ensures Full(chunks + [c], wanted) <==> Full(chunks, wanted) && |c.ids| >= wanted
  {
    if Full(chunks + [c], wanted) {
      forall x | x in chunks ensures |x.ids| >= wanted {
        assert x in chunks + [c];
      }
      assert c in chunks + [c];
    }
  }

  // ------------------------------------------------------------------------ one event

  /** What one event makes of the flags, and when it makes the upload fall short. */
  ghost predicate Advances(u: Upload, v: Upload, tooFew: bool, wanted: nat) {
    && (Flagged(u, wanted) ==> Flagged(v, wanted)) && u.failed <= v.failed
    && (u.phase.Aborting? ==> v.phase.Aborting?)
    && (v.failed == {} && !v.phase.Aborting? ==> (Short(v, wanted) <==> Short(u, wanted) || tooFew))
  }

  lemma SettleFlags(u: Upload, cfg: Config)
    requires AllAnswered(u.phase) && |u.phase.chosen| <= cfg.replicas
    ensures Advances(u, SettledUpload(u, cfg, Answered(u.phase.chosen, u.phase.answers, true),
                                   Answered(u.phase.chosen, u.phase.answers, false)), false, cfg.replicas)
  {
    var good := Answered(u.phase.chosen, u.phase.answers, true);
    NobodyBad(u.phase.chosen, u.phase.answers);
    GoodAndBad(u.phase.chosen, u.phase.answers);
    FullAppend(u.chunks, Current(u, cfg, good), cfg.replicas);
  }

  lemma SettleSteps(s: State, op: nat)
    requires Shaped(s) && Enabled(s, Settle(op))
    ensures Advances(s.uploads[op], DoSettle(s, op).uploads[op], false, s.cfg.replicas)
  {
    hide Short, Flagged, Answered;
    var u := s.uploads[op];
    assert UploadShaped(u, s.cfg);
    SettleFlags(u, s.cfg);
  }

  lemma SelectSteps(s: State, op: nat, chosen: seq<nat>)
    requires Shaped(s) && Enabled(s, Select(op, chosen))
    ensures Advances(s.uploads[op], DoSelect(s, op, chosen).uploads[op], LiveCount(s, op) < s.cfg.replicas,
                     s.cfg.replicas)
  {
  }

  lemma QuietSteps(s: State, e: Event)
    requires Shaped(s) && Enabled(s, e) && InPlace(e) && !e.Settle? && !e.Select?
    ensures Advances(s.uploads[e.op], ApplyUpload(s, e).uploads[e.op], false, s.cfg.replicas)
  {
    hide Shaped;
  }

  /** One event of an upload that goes on: its flags stay right, and it falls short exactly when
      it selects among too few. */
  lemma OwnStep(s: State, e: Event)
    requires Shaped(s) && Enabled(s, e) && InPlace(e)
    ensures Advances(s.uploads[e.op], ApplyUpload(s, e).uploads[e.op],
                  Selects(e, e.op) && LiveCount(s, e.op) < s.cfg.replicas, s.cfg.replicas)
  {
    if e.Settle? {
      SettleSteps(s, e.op);
    } else if e.Select? {
      SelectSteps(s, e.op, e.chosen);
    } else {
      QuietSteps(s, e);
    }
  }

  // ------------------------------------------------------------------------- whole runs

  lemma {:induction false} RunFlags(s: State, es: seq<Event>, op: nat)
    requires IsRun(s, es) && op in s.uploads && Flagged(s.uploads[op], s.cfg.replicas)
    requires forall e :: e in es ==> Continues(e, op)
    ensures var t := End(s, es);
            && op in t.uploads && t.cfg == s.cfg
            && Flagged(t.uploads[op], s.cfg.replicas) && s.uploads[op].failed <= t.uploads[op].failed
            && (s.uploads[op].phase.Aborting? ==> t.uploads[op].phase.Aborting?)
            && (t.uploads[op].failed == {} && !t.uploads[op].phase.Aborting? ==>
                  (Short(t.uploads[op], s.cfg.replicas)
                   <==> Short(s.uploads[op], s.cfg.replicas) || !Plenty(s, es, op, s.cfg.replicas)))
    decreases |es|
  {
    if es != [] {
      var e := es[0];
      var t := Apply(s, e);
      CfgStays(s, e);
      if ByUpload(e, op) {
        assert Continues(e, op);
        InPlaceReplaces(s, e);
        OwnStep(s, e);
      } else {
        OthersLeaveUpload(s, e, op);
      }
      RunFlags(t, es[1..], op);
    }
  }

  /** The upload right after its admission. */
  ghost predicate Begun(u: Upload) {
    u.phase.Admitted? && u.chunks == [] && u.fds == {} && !u.reduced && u.failed == {}
  }

  /** With the warning some chunk is short of replicas. Without it every chunk has them if and only
      if at every selection enough of the nodes connected to were live. */
  ghost predicate Tells(warned: bool, chunks: seq<ChunkMeta>, plenty: bool, wanted: nat) {
    if warned then !Full(chunks, wanted) else Full(chunks, wanted) <==> plenty
  }

  /** From admission to the last block of an upload that stores its file, under any interleaving. */
  lemma WarningTells(s: State, es: seq<Event>, t: State, op: nat)
    requires IsRun(s, es) && t == End(s, es) && op in s.uploads && Begun(s.uploads[op])
    requires forall e :: e in es ==> Continues(e, op)
    requires op in t.uploads && t.uploads[op].phase.Sweeping?
    ensures var u := t.uploads[op];
            Tells(Warned(u), u.chunks, Plenty(s, es, op, s.cfg.replicas), s.cfg.replicas)
  {
    RunFlags(s, es, op);
  }
}
