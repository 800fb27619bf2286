/** Which chunk files of a name exist at all, while an upload replaces them or a deletion
    removes them. `exact` says that the metadata listed every chunk file when the operation
    began and that no node has failed it since. */
module Orphans {
  import opened Wrappers
  import opened ChunkNames
  import opened Load
  import opened Cluster
  import opened Invariants
  import opened Contents

  /** The old copies a sweep has still to visit. */
  function Unswept(u: Upload): seq<Copy> {
    if u.phase.Sweeping? && u.phase.pos <= |PriorCopies(u)| then PriorCopies(u)[u.phase.pos..] else PriorCopies(u)
  }

  predicate Expected(u: Upload, k: nat, i: nat) {
    || Holds(Flatten(u.chunks), k, i) || Holds(Unswept(u), k, i)
    || (u.phase.Storing? && k == |u.chunks| && i in u.phase.answers)
  }

  ghost predicate UploadTidy(u: Upload, disks: Disks) {
    u.exact ==>
      && (u.phase.Storing? ==> forall i :: i in u.phase.answers ==> u.phase.answers[i])
      && (forall k: nat, i: nat :: OnDisk(disks, i, ChunkName(u.name, k)) ==> Expected(u, k, i))
  }

  /** Every copy visited was either removed or failed, and failed copies are on missed nodes. */
  ghost predicate Counted(d: Deletion) {
    && d.pos <= |Flatten(d.meta.chunks)|
    && multiset(d.removed) + multiset(d.failed) == multiset(Flatten(d.meta.chunks)[..d.pos])
    && (forall c :: c in d.failed ==> c.node in d.missed)
    && |d.removed| <= d.pos && (d.missed == {} <==> |d.removed| == d.pos)
    && (d.missed == {} ==> d.removed == Flatten(d.meta.chunks)[..d.pos])
  }

  /** A chunk file of the deleted name is on a copy not yet visited or on a node that failed. */
  ghost predicate DeletionTidy(d: Deletion, disks: Disks) {
    && Counted(d)
    && (d.exact ==> forall k: nat, i: nat :: OnDisk(disks, i, ChunkName(d.name, k)) ==>
          Holds(Flatten(d.meta.chunks)[d.pos..], k, i) || i in d.missed)
  }

  ghost predicate UploadsTidy(uploads: map<nat, Upload>, disks: Disks) {
    forall o :: o in uploads ==> UploadTidy(uploads[o], disks)
  }

  ghost predicate DeletionsTidy(deletions: map<nat, Deletion>, disks: Disks) {
    forall o :: o in deletions ==> DeletionTidy(deletions[o], disks)
  }

  ghost predicate Tidy(s: State) {
    UploadsTidy(s.uploads, s.disks) && DeletionsTidy(s.deletions, s.disks)
  }

  lemma OtherNamesTidy(disks: Disks, node: nat, f: string, index: nat, effect: Option<string>, g: string)
    requires node < |disks| && g != f
    ensures forall k: nat, i: nat ::
              OnDisk(Touch(disks, node, ChunkName(f, index), effect), i, ChunkName(g, k))
              == OnDisk(disks, i, ChunkName(g, k))
  {
    forall k: nat, i: nat
      ensures OnDisk(Touch(disks, node, ChunkName(f, index), effect), i, ChunkName(g, k))
              == OnDisk(disks, i, ChunkName(g, k))
    {
      if ChunkName(g, k) == ChunkName(f, index) {
        ChunkNameInjective(g, k, f, index);
      }
      TouchElsewhere(disks, node, ChunkName(f, index), effect, i, ChunkName(g, k), "");
    }
  }

  /** Within one name, only the touched file can appear or disappear. */
  lemma OwnNameTouched(disks: Disks, node: nat, f: string, index: nat, effect: Option<string>)
    requires node < |disks|
    ensures forall k: nat, i: nat :: k != index || i != node ==>
              OnDisk(Touch(disks, node, ChunkName(f, index), effect), i, ChunkName(f, k))
              == OnDisk(disks, i, ChunkName(f, k))
    ensures OnDisk(Touch(disks, node, ChunkName(f, index), effect), node, ChunkName(f, index)) == effect.Some?
  {
    forall k: nat, i: nat | k != index || i != node
      ensures OnDisk(Touch(disks, node, ChunkName(f, index), effect), i, ChunkName(f, k))
              == OnDisk(disks, i, ChunkName(f, k))
    {
      if ChunkName(f, k) == ChunkName(f, index) {
        ChunkNameInjective(f, k, f, index);
      }
      TouchElsewhere(disks, node, ChunkName(f, index), effect, i, ChunkName(f, k), "");
    }
  }

  /** The other writers do not notice a change under f. */
  lemma OthersTidy(uploads: map<nat, Upload>, deletions: map<nat, Deletion>, disks: Disks,
                   node: nat, f: string, index: nat, effect: Option<string>)
    requires node < |disks| && UploadsTidy(uploads, disks) && DeletionsTidy(deletions, disks)
    ensures var after := Touch(disks, node, ChunkName(f, index), effect);
            && (forall o :: o in uploads && uploads[o].name != f ==> UploadTidy(uploads[o], after))
            && (forall o :: o in deletions && deletions[o].name != f ==> DeletionTidy(deletions[o], after))
  {
    var after := Touch(disks, node, ChunkName(f, index), effect);
    forall o | o in uploads && uploads[o].name != f ensures UploadTidy(uploads[o], after) {
      OtherNamesTidy(disks, node, f, index, effect, uploads[o].name);
    }
    forall o | o in deletions && deletions[o].name != f ensures DeletionTidy(deletions[o], after) {
      OtherNamesTidy(disks, node, f, index, effect, deletions[o].name);
    }
  }

  // ------------------------------------------------------------------------------ events

  lemma ReplyTidy(u: Upload, disks: Disks, cfg: Config, node: nat, acked: bool, effect: Option<string>)
    requires node < |disks| && UploadTidy(u, disks) && u.phase.Storing?
    ensures var v := u.(phase := Storing(u.phase.chosen, u.phase.answers[node := acked]), exact := u.exact && acked);
            UploadTidy(v,
                       Touch(disks, node, ChunkName(u.name, |u.chunks|), if acked then Some(Piece(u, cfg)) else effect))
  {
    OwnNameTouched(disks, node, u.name, |u.chunks|, if acked then Some(Piece(u, cfg)) else effect);
  }

  lemma StoreReplyTidy(s: State, op: nat, node: nat, acked: bool, effect: Option<string>)
    requires Shaped(s) && OneWriter(s.uploads, s.deletions) && Tidy(s)
    requires Enabled(s, StoreReply(op, node, acked, effect))
    ensures Tidy(DoStoreReply(s, op, node, acked, effect))
  {
    var u := s.uploads[op];
    ReplyTidy(u, s.disks, s.cfg, node, acked, effect);
    OthersTidy(s.uploads, s.deletions, s.disks, node, u.name, |u.chunks|,
               if acked then Some(Piece(u, s.cfg)) else effect);
  }

  lemma {:induction false} AllGood(chosen: seq<nat>, answers: map<nat, bool>)
    requires forall i :: i in chosen ==> i in answers && answers[i]
    ensures Answered(chosen, answers, true) == chosen
    decreases |chosen|
  {
    if chosen != [] {
      AllGood(chosen[1..], answers);
    }
  }

  lemma SettledTidy(u: Upload, cfg: Config, disks: Disks)
    requires UploadTidy(u, disks) && AllAnswered(u.phase) && u.phase.chosen != []
    requires forall i :: i in u.phase.answers ==> i in u.phase.chosen
    ensures UploadTidy(SettledUpload(u, cfg, Answered(u.phase.chosen, u.phase.answers, true),
                                     Answered(u.phase.chosen, u.phase.answers, false)), disks)
  {
    if u.exact {
      AllGood(u.phase.chosen, u.phase.answers);
      var c := Current(u, cfg, u.phase.chosen);
      FlattenAppend(u.chunks, c);
      forall k: nat, i: nat | Expected(u, k, i)
        ensures Holds(Flatten(u.chunks + [c]), k, i) || Holds(PriorCopies(u), k, i)
      {
        if Holds(Flatten(u.chunks), k, i) {
          var x :| x in Flatten(u.chunks) && x.index == k && x.node == i;
          assert x in Flatten(u.chunks + [c]);
        } else if !Holds(PriorCopies(u), k, i) {
          var r :| 0 <= r < |c.ids| && c.ids[r] == i;
          assert CopiesOf(c)[r] in Flatten(u.chunks + [c]);
        }
      }
    }
  }

  lemma SettleTidy(s: State, op: nat)
    requires Shaped(s) && Tidy(s) && Enabled(s, Settle(op))
    requires UploadsFaithful(s.uploads, s.disks, s.tainted, s.cfg)
    ensures Tidy(DoSettle(s, op))
  {
    assert UploadFaithful(s.uploads[op], s.disks, s.tainted, s.cfg);
    SettledTidy(s.uploads[op], s.cfg, s.disks);
  }

  lemma SweptTidy(u: Upload, disks: Disks, acked: bool, effect: Option<string>)
    requires UploadTidy(u, disks) && u.phase.Sweeping? && u.phase.pos < |PriorCopies(u)|
    requires PriorCopies(u)[u.phase.pos].node < |disks|
    ensures var c := PriorCopies(u)[u.phase.pos];
            UploadTidy(SweptUpload(u, c, acked),
                       if Kept(u, c) then disks
                       else Touch(disks, c.node, ChunkName(u.name, c.index), if acked then None else effect))
  {
    var prior, p := PriorCopies(u), u.phase.pos;
    var c := prior[p];
    assert prior[p..] == [c] + prior[p + 1..];
    forall k: nat, i: nat | Holds(prior[p..], k, i) && !(k == c.index && i == c.node)
      ensures Holds(prior[p + 1..], k, i)
    {
      var x :| x in prior[p..] && x.index == k && x.node == i;
      assert x in prior[p + 1..];
    }
    OwnNameTouched(disks, c.node, u.name, c.index, if acked then None else effect);
  }

  lemma SweepTidy(s: State, op: nat, acked: bool, effect: Option<string>)
    requires Shaped(s) && OneWriter(s.uploads, s.deletions) && Tidy(s) && Enabled(s, Sweep(op, acked, effect))
    ensures Tidy(DoSweep(s, op, acked, effect))
  {
    var u := s.uploads[op];
    var c := PriorCopies(u)[u.phase.pos];
    assert c in PriorCopies(u);
    SweptTidy(u, s.disks, acked, effect);
    OthersTidy(s.uploads, s.deletions, s.disks, c.node, u.name, c.index, if acked then None else effect);
  }

  lemma AdmitTidy(s: State, op: nat, name: string, content: string)
    requires Tidy(s) && Enabled(s, Admit(op, name, content))
    ensures Tidy(DoAdmit(s, op, name, content))
  {
    var u := DoAdmit(s, op, name, content).uploads[op];
    assert UploadTidy(u, s.disks);
  }

  lemma CountedMore(d: Deletion, outcome: DeleteReply)
    requires Counted(d) && d.pos < |Flatten(d.meta.chunks)|
    ensures Counted(NextDeletion(d, Flatten(d.meta.chunks)[d.pos], outcome))
  {
    var copies := Flatten(d.meta.chunks);
    assert copies[..d.pos + 1] == copies[..d.pos] + [copies[d.pos]];
  }

  lemma CopyTidy(d: Deletion, disks: Disks, outcome: DeleteReply, effect: Option<string>)
    requires d.pos < |Flatten(d.meta.chunks)| && DeletionTidy(d, disks)
    requires Flatten(d.meta.chunks)[d.pos].node < |disks|
    ensures var c := Flatten(d.meta.chunks)[d.pos];
            var after := Touch(disks, c.node, ChunkName(d.name, c.index),
                               if outcome.Acknowledged? then None else effect);
            DeletionTidy(NextDeletion(d, c, outcome),
                         if outcome.Refused? || outcome.Acknowledged? then after else disks)
  {
    CountedMore(d, outcome);
    hide Counted;
    var copies, p := Flatten(d.meta.chunks), d.pos;
    var c := copies[p];
    assert copies[p..] == [c] + copies[p + 1..];
    forall k: nat, i: nat | Holds(copies[p..], k, i) && !(k == c.index && i == c.node)
      ensures Holds(copies[p + 1..], k, i)
    {
      var x :| x in copies[p..] && x.index == k && x.node == i;
      assert x in copies[p + 1..];
    }
    OwnNameTouched(disks, c.node, d.name, c.index, if outcome.Acknowledged? then None else effect);
  }

  /** The disks after one copy: touched under its name, or as they were. */
  function AfterCopy(disks: Disks, name: string, c: Copy, outcome: DeleteReply, effect: Option<string>): Disks
    requires c.node < |disks|
  {
    if outcome.Refused? || outcome.Acknowledged? then
      Touch(disks, c.node, ChunkName(name, c.index), if outcome.Acknowledged? then None else effect)
    else disks
  }

  lemma OthersTidyAfterCopy(s: State, op: nat, c: Copy, outcome: DeleteReply, effect: Option<string>)
    requires OneWriter(s.uploads, s.deletions) && Tidy(s) && op in s.deletions && c.node < |s.disks|
    ensures var after := AfterCopy(s.disks, s.deletions[op].name, c, outcome, effect);
            && (forall o :: o in s.uploads ==> UploadTidy(s.uploads[o], after))
            && (forall o :: o in s.deletions && o != op ==> DeletionTidy(s.deletions[o], after))
  {
    hide UploadTidy, DeletionTidy, Touch;
    OthersTidy(s.uploads, s.deletions, s.disks, c.node, s.deletions[op].name, c.index,
               if outcome.Acknowledged? then None else effect);
  }

  lemma DeleteCopyTidy(s: State, op: nat, outcome: DeleteReply, effect: Option<string>)
    requires Shaped(s) && OneWriter(s.uploads, s.deletions) && Tidy(s) && Enabled(s, DeleteCopy(op, outcome, effect))
    ensures Tidy(DoDeleteCopy(s, op, outcome, effect))
  {
    hide DeletionTidy, UploadTidy, Touch, OneWriter, Adjust;
    var d := s.deletions[op];
    var c := Flatten(d.meta.chunks)[d.pos];
    assert c in Flatten(d.meta.chunks);
    CopyTidy(d, s.disks, outcome, effect);
    OthersTidyAfterCopy(s, op, c, outcome, effect);
    assert DoDeleteCopy(s, op, outcome, effect).disks == AfterCopy(s.disks, d.name, c, outcome, effect);
  }

  lemma BeginDeleteTidy(s: State, op: nat, name: string)
    requires Tidy(s) && Enabled(s, BeginDelete(op, name))
    ensures Tidy(DoBeginDelete(s, op, name))
  {
    var d := DoBeginDelete(s, op, name).deletions[op];
    assert Flatten(d.meta.chunks)[0..] == Flatten(d.meta.chunks);
    assert DeletionTidy(d, s.disks);
  }

  lemma QuietTidy(s: State, e: Event)
    requires Shaped(s) && Tidy(s) && Enabled(s, e) && (e.Connect? || e.ClientLost? || e.Select? || e.Reserve?)
    ensures Tidy(ApplyUpload(s, e))
  {
    hide DeletionTidy, Holds;
  }

  lemma EndTidy(s: State, e: Event)
    requires Shaped(s) && Tidy(s) && Enabled(s, e) && (e.Abort? || e.Commit?)
    ensures Tidy(ApplyUpload(s, e))
  {
  }

  lemma WriteTidy(s: State, e: Event)
    requires Shaped(s) && OneWriter(s.uploads, s.deletions) && Tidy(s) && Enabled(s, e)
    requires e.StoreReply? || e.Sweep?
    ensures Tidy(ApplyUpload(s, e))
  {
    if e.StoreReply? {
      StoreReplyTidy(s, e.op, e.node, e.acked, e.effect);
    } else {
      SweepTidy(s, e.op, e.acked, e.effect);
    }
  }

  lemma UploadEventTidy(s: State, e: Event)
    requires Shaped(s) && OneWriter(s.uploads, s.deletions) && Tidy(s) && Enabled(s, e) && OfUpload(e)
    requires UploadsFaithful(s.uploads, s.disks, s.tainted, s.cfg)
    ensures Tidy(ApplyUpload(s, e))
  {
    if e.Admit? {
      AdmitTidy(s, e.op, e.name, e.content);
    } else if e.StoreReply? || e.Sweep? {
      WriteTidy(s, e);
    } else if e.Settle? {
      SettleTidy(s, e.op);
    } else if e.Abort? || e.Commit? {
      EndTidy(s, e);
    } else {
      QuietTidy(s, e);
    }
  }

  lemma TidyKept(s: State, e: Event)
    requires Shaped(s) && OneWriter(s.uploads, s.deletions) && Tidy(s) && Enabled(s, e)
    requires UploadsFaithful(s.uploads, s.disks, s.tainted, s.cfg)
    ensures Tidy(Apply(s, e))
  {
    if OfUpload(e) {
      UploadEventTidy(s, e);
    } else {
      match e
      case BeginDelete(op, name) => BeginDeleteTidy(s, op, name);
      case DeleteCopy(op, outcome, effect) => DeleteCopyTidy(s, op, outcome, effect);
      case _ =>
    }
  }
}
