/** Which operation moved node_bytes, under any interleaving: an aborted upload has no net
    effect, and a deletion releases exactly the copies that were acknowledged. */
module Attribution {
  import opened Wrappers
  import opened Load
  import opened Cluster
  import opened Invariants
  import opened Bytes
  import opened Runs

  predicate ByUpload(e: Event, op: nat) {
    OfUpload(e) && e.op == op
  }

  predicate ByDeletion(e: Event, op: nat) {
    (e.BeginDelete? || e.DeleteCopy? || e.EndDelete?) && e.op == op
  }

  /** The change of node_bytes[i] made by the steps of one upload, or of one deletion. */
  ghost function OwnChange(s: State, es: seq<Event>, op: nat, upload: bool, i: nat): int
    requires IsRun(s, es) && i < s.cfg.nodes
    decreases |es|
  {
    if es == [] then 0 else
      var t := Apply(s, es[0]);
      CfgStays(s, es[0]);
      (if (if upload then ByUpload(es[0], op) else ByDeletion(es[0], op)) then t.load.bytes[i] - s.load.bytes[i] else 0)
      + OwnChange(t, es[1..], op, upload, i)
  }

  lemma CfgStays(s: State, e: Event)
    requires Shaped(s) && Enabled(s, e)
    ensures Apply(s, e).cfg == s.cfg
  {
    if InPlace(e) {
      InPlaceReplaces(s, e);
    }
  }

  /** An event that ends or replaces nothing of this upload. */
  predicate Continues(e: Event, op: nat) {
    ByUpload(e, op) ==> InPlace(e)
  }

  lemma OthersLeaveUpload(s: State, e: Event, op: nat)
    requires Shaped(s) && Enabled(s, e) && op in s.uploads && !ByUpload(e, op)
    ensures var t := Apply(s, e); op in t.uploads && t.uploads[op] == s.uploads[op]
  {
    if InPlace(e) {
      InPlaceReplaces(s, e);
    }
  }

  lemma {:induction false} UploadAccount(s: State, es: seq<Event>, op: nat, i: nat)
    requires IsRun(s, es) && i < s.cfg.nodes && op in s.uploads
    requires forall e :: e in es ==> Continues(e, op)
    ensures var t := End(s, es);
            && op in t.uploads && t.cfg == s.cfg
            && OwnChange(s, es, op, true, i)
               == UploadBytes(t.uploads[op], s.cfg, i) - UploadBytes(s.uploads[op], s.cfg, i)
    decreases |es|
  {
    if es != [] {
      var e := es[0];
      var t := Apply(s, e);
      CfgStays(s, e);
      if ByUpload(e, op) {
        assert Continues(e, op);
        InPlaceReplaces(s, e);
        InPlaceBytes(s, e, i);
      } else {
        OthersLeaveUpload(s, e, op);
      }
      UploadAccount(t, es[1..], op, i);
    }
  }

  /** From admission to abort, with any other operations in between (s is the state right after
      the admission, t the one right before the abort): the upload's own steps cancel out on
      every node, the abort leaves the metadata alone, and its pending mark is cleared. */
  lemma AbortIsNeutral(s: State, es: seq<Event>, t: State, op: nat, i: nat)
    requires op in s.uploads && s.uploads[op].chunks == [] && s.uploads[op].phase.Admitted?
    requires IsRun(s, es) && t == End(s, es) && Shaped(t) && i < s.cfg.nodes
    requires (forall e :: e in es ==> Continues(e, op)) && Enabled(t, Abort(op))
    ensures var r := DoAbort(t, op);
            && |t.load.bytes| == |r.load.bytes| == s.cfg.nodes
            && OwnChange(s, es, op, true, i) + (r.load.bytes[i] - t.load.bytes[i]) == 0
            && r.meta == t.meta && r.contents == t.contents && r.pending == t.pending - {t.uploads[op].name}
  {
    UploadAccount(s, es, op, i);
    AbortBytes(t, op, i);
  }

  lemma OthersLeaveDeletion(s: State, e: Event, op: nat)
    requires Shaped(s) && Enabled(s, e) && op in s.deletions && !ByDeletion(e, op)
    ensures var t := Apply(s, e); op in t.deletions && t.deletions[op] == s.deletions[op]
  {
    if InPlace(e) {
      InPlaceReplaces(s, e);
    }
  }

  lemma DeleteCopyBytes(s: State, op: nat, outcome: DeleteReply, effect: Option<string>, i: nat)
    requires Shaped(s) && Enabled(s, DeleteCopy(op, outcome, effect)) && i < s.cfg.nodes
    ensures var t := DoDeleteCopy(s, op, outcome, effect);
            && |t.load.bytes| == s.cfg.nodes && t.deletions[op].meta == s.deletions[op].meta
            && t.load.bytes[i] - s.load.bytes[i]
               == BytesOn(s.deletions[op].removed, i) - BytesOn(t.deletions[op].removed, i)
  {
    var c := Flatten(s.deletions[op].meta.chunks)[s.deletions[op].pos];
    AdjustBytes(s.load, [c], -1, i);
    BytesOnConcat(s.deletions[op].removed, [c], i);
  }

  lemma {:induction false} DeletionAccount(s: State, es: seq<Event>, op: nat, i: nat)
    requires IsRun(s, es) && i < s.cfg.nodes && op in s.deletions
    requires forall e :: e in es && ByDeletion(e, op) ==> e.DeleteCopy?
    ensures var t := End(s, es);
            && op in t.deletions && t.deletions[op].meta == s.deletions[op].meta && t.cfg == s.cfg
            && OwnChange(s, es, op, false, i)
               == BytesOn(s.deletions[op].removed, i) - BytesOn(t.deletions[op].removed, i)
    decreases |es|
  {
    if es != [] {
      var e := es[0];
      CfgStays(s, e);
      if ByDeletion(e, op) {
        DeleteCopyBytes(s, op, e.outcome, e.effect, i);
      } else {
        OthersLeaveDeletion(s, e, op);
      }
      DeletionAccount(Apply(s, e), es[1..], op, i);
    }
  }

  /** A deletion that has visited every copy and is about to reply OK (t is the state right
      before its end) has lowered every node's total by exactly its share of the deleted file,
      under any interleaving. */
  lemma DeleteReleasesItsShare(s: State, es: seq<Event>, t: State, op: nat, i: nat)
    requires Inv(s) && op in s.deletions && s.deletions[op].removed == [] && i < s.cfg.nodes
    requires IsRun(s, es) && t == End(s, es)
    requires forall e :: e in es && ByDeletion(e, op) ==> e.DeleteCopy?
    requires op in t.deletions && t.deletions[op].missed == {}
    requires t.deletions[op].pos == |Flatten(t.deletions[op].meta.chunks)|
    ensures OwnChange(s, es, op, false, i) == 0 - BytesOn(Flatten(s.deletions[op].meta.chunks), i)
  {
    DeletionAccount(s, es, op, i);
    RunKeepsInv(s, es);
    FinishedDeletion(t.deletions[op], t.disks, 0, 0);
  }
}
