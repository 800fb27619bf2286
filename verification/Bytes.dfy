/** Byte conservation: node_bytes is the bytes of the committed chunks, plus what unfinished
    uploads hold, minus what unfinished deletions have already removed, plus the drift. */
module Bytes {
  import opened Wrappers
  import opened Sums
  import opened Load
  import opened Cluster
  import opened Invariants

  ghost function FileBytes(meta: map<string, FileMeta>, i: nat): map<string, int> {
    map f | f in meta :: BytesOn(Flatten(meta[f].chunks), i)
  }

  ghost function Committed(meta: map<string, FileMeta>, i: nat): int {
    Sum(FileBytes(meta, i))
  }

  /** Recorded chunks, and the one whose bytes are reserved while its stores are running. */
  function UploadBytes(u: Upload, cfg: Config, i: nat): int {
    BytesOn(Flatten(u.chunks), i)
    + if u.phase.Storing? then BytesOn(CopiesOf(Current(u, cfg, u.phase.chosen)), i) else 0
  }

  ghost function UploadMap(uploads: map<nat, Upload>, cfg: Config, i: nat): map<nat, int> {
    map o | o in uploads :: UploadBytes(uploads[o], cfg, i)
  }

  ghost function Reserved(uploads: map<nat, Upload>, cfg: Config, i: nat): int {
    Sum(UploadMap(uploads, cfg, i))
  }

  ghost function RemovedMap(deletions: map<nat, Deletion>, i: nat): map<nat, int> {
    map o | o in deletions :: BytesOn(deletions[o].removed, i)
  }

  ghost function Removed(deletions: map<nat, Deletion>, i: nat): int {
    Sum(RemovedMap(deletions, i))
  }

  /** The bytes node i is accountable for, apart from drift. */
  ghost function Accounted(meta: map<string, FileMeta>, uploads: map<nat, Upload>,
                           deletions: map<nat, Deletion>, cfg: Config, i: nat): int {
    Committed(meta, i) + Reserved(uploads, cfg, i) - Removed(deletions, i)
  }

  ghost predicate Conserved(s: State) {
    forall i: nat {:trigger s.load.bytes[i]} :: i < s.cfg.nodes && i < |s.load.bytes| && i < |s.drift| ==>
      s.load.bytes[i] == Accounted(s.meta, s.uploads, s.deletions, s.cfg, i) + s.drift[i]
  }

  // ------------------------------------------------------------------- sums under updates

  lemma ReservedWith(uploads: map<nat, Upload>, cfg: Config, op: nat, v: Upload, i: nat)
    ensures Reserved(uploads[op := v], cfg, i)
            == Reserved(uploads, cfg, i) - (if op in uploads then UploadBytes(uploads[op], cfg, i) else 0)
               + UploadBytes(v, cfg, i)
  {
    assert UploadMap(uploads[op := v], cfg, i) == UploadMap(uploads, cfg, i)[op := UploadBytes(v, cfg, i)];
    SumUpdate(UploadMap(uploads, cfg, i), op, UploadBytes(v, cfg, i));
  }

  lemma ReservedWithout(uploads: map<nat, Upload>, cfg: Config, op: nat, i: nat)
    requires op in uploads
    ensures Reserved(uploads - {op}, cfg, i) == Reserved(uploads, cfg, i) - UploadBytes(uploads[op], cfg, i)
  {
    assert UploadMap(uploads - {op}, cfg, i) == UploadMap(uploads, cfg, i) - {op};
    SumWithout(UploadMap(uploads, cfg, i), op);
  }

  lemma RemovedWith(deletions: map<nat, Deletion>, op: nat, d: Deletion, i: nat)
    ensures Removed(deletions[op := d], i)
            == Removed(deletions, i) - (if op in deletions then BytesOn(deletions[op].removed, i) else 0)
               + BytesOn(d.removed, i)
  {
    assert RemovedMap(deletions[op := d], i) == RemovedMap(deletions, i)[op := BytesOn(d.removed, i)];
    SumUpdate(RemovedMap(deletions, i), op, BytesOn(d.removed, i));
  }

  lemma RemovedWithout(deletions: map<nat, Deletion>, op: nat, i: nat)
    requires op in deletions
    ensures Removed(deletions - {op}, i) == Removed(deletions, i) - BytesOn(deletions[op].removed, i)
  {
    assert RemovedMap(deletions - {op}, i) == RemovedMap(deletions, i) - {op};
    SumWithout(RemovedMap(deletions, i), op);
  }

  lemma CommittedWith(meta: map<string, FileMeta>, f: string, m: FileMeta, i: nat)
    ensures Committed(meta[f := m], i)
            == Committed(meta, i) - (if f in meta then BytesOn(Flatten(meta[f].chunks), i) else 0)
               + BytesOn(Flatten(m.chunks), i)
  {
    assert FileBytes(meta[f := m], i) == FileBytes(meta, i)[f := BytesOn(Flatten(m.chunks), i)];
    SumUpdate(FileBytes(meta, i), f, BytesOn(Flatten(m.chunks), i));
  }

  lemma CommittedWithout(meta: map<string, FileMeta>, f: string, i: nat)
    requires f in meta
    ensures Committed(meta - {f}, i) == Committed(meta, i) - BytesOn(Flatten(meta[f].chunks), i)
  {
    assert FileBytes(meta - {f}, i) == FileBytes(meta, i) - {f};
    SumWithout(FileBytes(meta, i), f);
  }

  // -------------------------------------------------------------- what one event changes

  /** The replicas that answered well and those that did not share out the reservation. */
  lemma {:induction false} AnswersShareBytes(c: ChunkMeta, chosen: seq<nat>, answers: map<nat, bool>, i: nat)
    requires forall n :: n in chosen ==> n in answers
    ensures BytesOn(CopiesOf(c.(ids := chosen)), i)
            == BytesOn(CopiesOf(c.(ids := Answered(chosen, answers, true))), i)
               + BytesOn(CopiesOf(c.(ids := Answered(chosen, answers, false))), i)
    decreases |chosen|
  {
    if chosen != [] {
      var n, rest := chosen[0], chosen[1..];
      AnswersShareBytes(c, rest, answers, i);
      CopiesHead(c, n, rest, i);
      CopiesHead(c, n, Answered(rest, answers, answers[n]), i);
      assert chosen == [n] + rest;
      assert Answered(chosen, answers, !answers[n]) == [] + Answered(rest, answers, !answers[n]);
      assert [] + Answered(rest, answers, !answers[n]) == Answered(rest, answers, !answers[n]);
    }
  }

  lemma CopiesHead(c: ChunkMeta, n: nat, rest: seq<nat>, i: nat)
    ensures BytesOn(CopiesOf(c.(ids := [n] + rest)), i)
            == (if n == i then c.size else 0) + BytesOn(CopiesOf(c.(ids := rest)), i)
  {
    assert CopiesOf(c.(ids := [n] + rest))[1..] == CopiesOf(c.(ids := rest));
  }

  lemma {:induction false} BytesOfDistinct(c: ChunkMeta, chosen: seq<nat>, i: nat)
    requires Distinct(chosen)
    ensures BytesOn(CopiesOf(c.(ids := chosen)), i) == if i in chosen then c.size else 0
    decreases |chosen|
  {
    if chosen != [] {
      var n, rest := chosen[0], chosen[1..];
      assert chosen == [n] + rest;
      CopiesHead(c, n, rest, i);
      BytesOfDistinct(c, rest, i);
      assert n !in rest;
    }
  }

  lemma ReserveBytes(s: State, op: nat, i: nat)
    requires Shaped(s) && Enabled(s, Reserve(op)) && i < s.cfg.nodes
    ensures var t := DoReserve(s, op);
            t.load.bytes[i] - s.load.bytes[i]
            == UploadBytes(t.uploads[op], s.cfg, i) - UploadBytes(s.uploads[op], s.cfg, i)
  {
    var u := s.uploads[op];
    AdjustBytes(s.load, CopiesOf(Current(u, s.cfg, u.phase.chosen)), 1, i);
  }

  lemma SettledUploadBytes(u: Upload, cfg: Config, i: nat)
    requires AllAnswered(u.phase)
    ensures var good := Answered(u.phase.chosen, u.phase.answers, true);
            var bad := Answered(u.phase.chosen, u.phase.answers, false);
            UploadBytes(u, cfg, i)
            == UploadBytes(SettledUpload(u, cfg, good, bad), cfg, i) + BytesOn(CopiesOf(Current(u, cfg, bad)), i)
  {
    var good := Answered(u.phase.chosen, u.phase.answers, true);
    AnswersShareBytes(Current(u, cfg, []), u.phase.chosen, u.phase.answers, i);
    FlattenAppend(u.chunks, Current(u, cfg, good));
    BytesOnConcat(Flatten(u.chunks), CopiesOf(Current(u, cfg, good)), i);
  }

  lemma SettleBytes(s: State, op: nat, i: nat)
    requires Shaped(s) && Enabled(s, Settle(op)) && i < s.cfg.nodes
    ensures var t := DoSettle(s, op);
            t.load.bytes[i] - s.load.bytes[i]
            == UploadBytes(t.uploads[op], s.cfg, i) - UploadBytes(s.uploads[op], s.cfg, i)
  {
    var u := s.uploads[op];
    var bad := Answered(u.phase.chosen, u.phase.answers, false);
    AnsweredFacts(u.phase.chosen, u.phase.answers, false);
    AdjustBytes(s.load, CopiesOf(Current(u, s.cfg, bad)), -1, i);
    SettledUploadBytes(u, s.cfg, i);
  }

  /** An event of one upload, other than its first and last, moves node_bytes by exactly what
      it changes in that upload's own account. */
  lemma InPlaceBytes(s: State, e: Event, i: nat)
    requires Shaped(s) && Enabled(s, e) && InPlace(e) && i < s.cfg.nodes
    ensures var t := ApplyUpload(s, e);
            && |t.load.bytes| == s.cfg.nodes && e.op in s.uploads && e.op in t.uploads
            && t.load.bytes[i] - s.load.bytes[i]
               == UploadBytes(t.uploads[e.op], s.cfg, i) - UploadBytes(s.uploads[e.op], s.cfg, i)
  {
    match e
    case Reserve(op) => ReserveBytes(s, op, i);
    case Settle(op) => SettleBytes(s, op, i);
    case _ =>
  }

  // ------------------------------------------------------------------------ conservation

  lemma InPlaceConserved(s: State, e: Event)
    requires Shaped(s) && Conserved(s) && Enabled(s, e) && InPlace(e)
    ensures Conserved(ApplyUpload(s, e))
  {
    var t := ApplyUpload(s, e);
    InPlaceReplaces(s, e);
    forall i: nat | i < s.cfg.nodes && i < |t.load.bytes|
      ensures t.load.bytes[i] == Accounted(t.meta, t.uploads, t.deletions, t.cfg, i) + t.drift[i]
    {
      InPlaceBytes(s, e, i);
      ReservedWith(s.uploads, s.cfg, e.op, t.uploads[e.op], i);
    }
  }

  lemma AdmitConserved(s: State, op: nat, name: string, content: string)
    requires Shaped(s) && Conserved(s) && Enabled(s, Admit(op, name, content))
    ensures Conserved(DoAdmit(s, op, name, content))
  {
    var t := DoAdmit(s, op, name, content);
    forall i: nat | i < s.cfg.nodes
      ensures t.load.bytes[i] == Accounted(t.meta, t.uploads, t.deletions, t.cfg, i) + t.drift[i]
    {
      ReservedWith(s.uploads, s.cfg, op, t.uploads[op], i);
    }
  }

  /** An abort takes back exactly what the upload still held. */
  lemma AbortBytes(s: State, op: nat, i: nat)
    requires Shaped(s) && Enabled(s, Abort(op)) && i < s.cfg.nodes
    ensures DoAbort(s, op).load.bytes[i] == s.load.bytes[i] - UploadBytes(s.uploads[op], s.cfg, i)
  {
    AdjustBytes(s.load, Flatten(s.uploads[op].chunks), -1, i);
  }

  lemma AbortConserved(s: State, op: nat)
    requires Shaped(s) && Conserved(s) && Enabled(s, Abort(op))
    ensures Conserved(DoAbort(s, op))
  {
    var t := DoAbort(s, op);
    forall i: nat | i < s.cfg.nodes
      ensures t.load.bytes[i] == Accounted(t.meta, t.uploads, t.deletions, t.cfg, i) + t.drift[i]
    {
      AbortBytes(s, op, i);
      ReservedWithout(s.uploads, s.cfg, op, i);
    }
  }

  lemma CommitConserved(s: State, op: nat)
    requires Shaped(s) && Conserved(s) && Enabled(s, Commit(op)) && Fresh(s.meta, s.uploads, s.deletions)
    ensures Conserved(DoCommit(s, op))
  {
    var u := s.uploads[op];
    var t := DoCommit(s, op);
    forall i: nat | i < s.cfg.nodes
      ensures t.load.bytes[i] == Accounted(t.meta, t.uploads, t.deletions, t.cfg, i) + t.drift[i]
    {
      AdjustBytes(s.load, PriorCopies(u), -1, i);
      ReservedWithout(s.uploads, s.cfg, op, i);
      CommittedWith(s.meta, u.name, FileMeta(|u.content|, u.chunks), i);
    }
  }

  lemma BeginDeleteConserved(s: State, op: nat, name: string)
    requires Shaped(s) && Conserved(s) && Enabled(s, BeginDelete(op, name))
    ensures Conserved(DoBeginDelete(s, op, name))
  {
    var t := DoBeginDelete(s, op, name);
    forall i: nat | i < s.cfg.nodes
      ensures t.load.bytes[i] == Accounted(t.meta, t.uploads, t.deletions, t.cfg, i) + t.drift[i]
    {
      RemovedWith(s.deletions, op, t.deletions[op], i);
    }
  }

  lemma DeleteCopyConserved(s: State, op: nat, outcome: DeleteReply, effect: Option<string>)
    requires Shaped(s) && Conserved(s) && Enabled(s, DeleteCopy(op, outcome, effect))
    ensures Conserved(DoDeleteCopy(s, op, outcome, effect))
  {
    var d := s.deletions[op];
    var c := Flatten(d.meta.chunks)[d.pos];
    var t := DoDeleteCopy(s, op, outcome, effect);
    forall i: nat | i < s.cfg.nodes
      ensures t.load.bytes[i] == Accounted(t.meta, t.uploads, t.deletions, t.cfg, i) + t.drift[i]
    {
      AdjustBytes(s.load, [c], -1, i);
      BytesOnConcat(d.removed, [c], i);
      RemovedWith(s.deletions, op, t.deletions[op], i);
    }
  }

  lemma EndDeleteConserved(s: State, op: nat)
    requires Shaped(s) && Conserved(s) && Enabled(s, EndDelete(op)) && Fresh(s.meta, s.uploads, s.deletions)
    ensures Conserved(DoEndDelete(s, op))
  {
    var d := s.deletions[op];
    var t := DoEndDelete(s, op);
    forall i: nat | i < s.cfg.nodes
      ensures t.load.bytes[i] == Accounted(t.meta, t.uploads, t.deletions, t.cfg, i) + t.drift[i]
    {
      RemovedWithout(s.deletions, op, i);
      CommittedWithout(s.meta, d.name, i);
    }
  }

  lemma EndUploadConserved(s: State, e: Event)
    requires Shaped(s) && Conserved(s) && Enabled(s, e) && Fresh(s.meta, s.uploads, s.deletions)
    requires e.Abort? || e.Commit?
    ensures Conserved(ApplyUpload(s, e))
  {
    if e.Abort? {
      AbortConserved(s, e.op);
    } else {
      CommitConserved(s, e.op);
    }
  }

  lemma UploadConserved(s: State, e: Event)
    requires Shaped(s) && Conserved(s) && Enabled(s, e) && OfUpload(e) && Fresh(s.meta, s.uploads, s.deletions)
    ensures Conserved(ApplyUpload(s, e))
  {
    if e.Admit? {
      AdmitConserved(s, e.op, e.name, e.content);
    } else if e.Abort? || e.Commit? {
      EndUploadConserved(s, e);
    } else {
      InPlaceConserved(s, e);
    }
  }

  lemma OtherConserved(s: State, e: Event)
    requires Shaped(s) && Conserved(s) && Enabled(s, e) && !OfUpload(e) && Fresh(s.meta, s.uploads, s.deletions)
    ensures Conserved(Apply(s, e))
  {
    match e
    case BeginDelete(op, name) => BeginDeleteConserved(s, op, name);
    case DeleteCopy(op, outcome, effect) => DeleteCopyConserved(s, op, outcome, effect);
    case EndDelete(op) => EndDeleteConserved(s, op);
    case _ =>
  }

  lemma ConservedKept(s: State, e: Event)
    requires Shaped(s) && Conserved(s) && Enabled(s, e) && Fresh(s.meta, s.uploads, s.deletions)
    ensures Conserved(Apply(s, e))
  {
    if OfUpload(e) {
      UploadConserved(s, e);
    } else {
      OtherConserved(s, e);
    }
  }

  /** Only the end of a deletion and a health check move the drift. */
  lemma DriftOnlyMoves(s: State, e: Event)
    requires Shaped(s) && Enabled(s, e) && !e.EndDelete? && !e.Revive?
    ensures Apply(s, e).drift == s.drift
  {
    if InPlace(e) {
      InPlaceReplaces(s, e);
    }
  }
}
