/** What other operations leave alone, over any run: the chunk files of an upload in flight, and the
    names they were asked to spare. */
module Interference {
  import opened Wrappers
  import opened ChunkNames
  import opened Cluster
  import opened Invariants
  import opened Orphans
  import opened Attribution
  import opened Steps

  // ------------------------------------------------------------------------- chunk files

  /** The chunk files of this name are where they were. */
  ghost predicate KeepsFiles(before: Disks, after: Disks, f: string) {
    forall k: nat, i: nat :: OnDisk(after, i, ChunkName(f, k)) <==> OnDisk(before, i, ChunkName(f, k))
  }

  lemma {:induction false} RunKeepsNamed(s: State, es: seq<Event>, t: State)
    requires Named(s) && Ran(s, es, t)
    ensures Named(t)
    decreases |es|
  {
    if es != [] {
      NamedKept(s, es[0]);
      RunKeepsNamed(Apply(s, es[0]), es[1..], t);
    }
  }

  lemma TouchKeepsOthers(disks: Disks, node: nat, g: string, index: nat, effect: Option<string>, f: string)
    requires node < |disks| && f != g
    ensures KeepsFiles(disks, Touch(disks, node, ChunkName(g, index), effect), f)
  {
    OtherNamesTidy(disks, node, g, index, effect, f);
  }

  lemma UploadLeavesFiles(s: State, e: Event, f: string)
    requires Shaped(s) && Enabled(s, e) && OfUpload(e) && (e.op in s.uploads ==> s.uploads[e.op].name != f)
    ensures KeepsFiles(s.disks, ApplyUpload(s, e).disks, f)
  {
    hide KeepsFiles;
    if e.StoreReply? {
      StoreLeavesFiles(s, e.op, e.node, e.acked, e.effect, f);
    } else if e.Sweep? {
      SweepLeavesFiles(s, e.op, e.acked, e.effect, f);
    } else {
      QuietUpload(s, e);
      SameFilesKept(s.disks, f);
    }
  }

  lemma QuietUpload(s: State, e: Event)
    requires Shaped(s) && Enabled(s, e) && OfUpload(e) && !e.StoreReply? && !e.Sweep?
    ensures ApplyUpload(s, e).disks == s.disks
  {
  }

  lemma StoreLeavesFiles(s: State, op: nat, node: nat, acked: bool, effect: Option<string>, f: string)
    requires Shaped(s) && Enabled(s, StoreReply(op, node, acked, effect)) && s.uploads[op].name != f
    ensures KeepsFiles(s.disks, DoStoreReply(s, op, node, acked, effect).disks, f)
  {
    hide KeepsFiles, Touch;
    var u := s.uploads[op];
    assert UploadShaped(u, s.cfg);
    TouchKeepsOthers(s.disks, node, u.name, |u.chunks|, if acked then Some(Piece(u, s.cfg)) else effect, f);
  }

  lemma SweepLeavesFiles(s: State, op: nat, acked: bool, effect: Option<string>, f: string)
    requires Shaped(s) && Enabled(s, Sweep(op, acked, effect)) && s.uploads[op].name != f
    ensures KeepsFiles(s.disks, DoSweep(s, op, acked, effect).disks, f)
  {
    hide Touch;
    var u := s.uploads[op];
    assert UploadShaped(u, s.cfg);
    var c := PriorCopies(u)[u.phase.pos];
    assert c in PriorCopies(u);
    TouchKeepsOthers(s.disks, c.node, u.name, c.index, if acked then None else effect, f);
  }

  lemma DeleteLeavesFiles(s: State, op: nat, outcome: DeleteReply, effect: Option<string>, f: string)
    requires Shaped(s) && Enabled(s, DeleteCopy(op, outcome, effect)) && s.deletions[op].name != f
    ensures KeepsFiles(s.disks, DoDeleteCopy(s, op, outcome, effect).disks, f)
  {
    hide Touch;
    var d := s.deletions[op];
    assert DeletionShaped(d, s.cfg);
    var c := Flatten(d.meta.chunks)[d.pos];
    assert c in Flatten(d.meta.chunks);
    TouchKeepsOthers(s.disks, c.node, d.name, c.index, if outcome.Acknowledged? then None else effect, f);
  }

  lemma NeitherTouchesFiles(s: State, e: Event)
    requires Shaped(s) && Enabled(s, e) && !OfUpload(e) && !e.DeleteCopy?
    ensures Apply(s, e).disks == s.disks
  {
  }

  /** While an upload is in flight nobody else touches a chunk file of its name. */
  lemma OtherLeavesFiles(s: State, e: Event, op: nat, names: set<string>)
    requires Shaped(s) && Named(s) && Enabled(s, e) && op in s.uploads && Foreign(e, op, names)
    ensures KeepsFiles(s.disks, Apply(s, e).disks, s.uploads[op].name)
  {
    hide KeepsFiles, Enabled, Shaped, ApplyUpload;
    if OfUpload(e) {
      UploadLeavesFiles(s, e, s.uploads[op].name);
    } else if e.DeleteCopy? {
      DeletesAreEnabled(s, e);
      DeleteLeavesFiles(s, e.op, e.outcome, e.effect, s.uploads[op].name);
    } else {
      NeitherTouchesFiles(s, e);
      SameFilesKept(s.disks, s.uploads[op].name);
    }
  }

  lemma DeletesAreEnabled(s: State, e: Event)
    requires Enabled(s, e) && e.DeleteCopy?
    ensures e.op in s.deletions
  {
  }

  lemma SameFilesKept(disks: Disks, f: string)
    ensures KeepsFiles(disks, disks, f)
  {
  }

  lemma {:induction false} OthersLeaveFiles(s: State, es: seq<Event>, t: State, op: nat, others: Company)
    requires Named(s) && Meanwhile(s, es, t, op, others) && op in s.uploads
    ensures KeepsFiles(s.disks, t.disks, s.uploads[op].name)
    decreases |es|
  {
    if es != [] {
      var m := Apply(s, es[0]);
      assert Elsewhere(es[0], op, others);
      OtherLeavesFiles(s, es[0], op, others.spared);
      NamedKept(s, es[0]);
      ForeignStands(s, es[0], op, others.spared);
      OthersLeaveFiles(m, es[1..], t, op, others);
    }
  }

  // ------------------------------------------------------------------------------- names

  /** An event of operation op, of whatever kind, or one that spares these names. */
  predicate OwnOrForeign(e: Event, op: nat, names: set<string>) {
    ByUpload(e, op) || ByDeletion(e, op) || ByDownload(e, op) || Foreign(e, op, names)
  }

  /** Apart from op, whoever writes under this name has done so before. */
  ghost predicate NoNewWriter(s: State, t: State, op: nat, f: string) {
    && (forall o :: o in t.uploads && o != op && t.uploads[o].name == f ==> o in s.uploads && s.uploads[o].name == f)
    && (forall o :: o in t.deletions && o != op && t.deletions[o].name == f ==>
          o in s.deletions && s.deletions[o].name == f)
  }

  lemma OneNoNewWriter(s: State, e: Event, op: nat, names: set<string>, f: string)
    requires Shaped(s) && Enabled(s, e) && OwnOrForeign(e, op, names) && f in names
    ensures NoNewWriter(s, Apply(s, e), op, f)
  {
    if InPlace(e) {
      InPlaceReplaces(s, e);
    } else if OfUpload(e) {
      UploadNoNewWriter(s, e, op, f);
    } else {
      OtherNoNewWriter(s, e, op, f);
    }
  }

  lemma UploadNoNewWriter(s: State, e: Event, op: nat, f: string)
    requires Shaped(s) && Enabled(s, e) && OfUpload(e) && !InPlace(e) && (e.Admit? ==> e.op == op || e.name != f)
    ensures NoNewWriter(s, ApplyUpload(s, e), op, f)
  {
  }

  lemma OtherNoNewWriter(s: State, e: Event, op: nat, f: string)
    requires Shaped(s) && Enabled(s, e) && !OfUpload(e) && (e.BeginDelete? ==> e.op == op || e.name != f)
    ensures NoNewWriter(s, Apply(s, e), op, f)
  {
  }

  lemma {:induction false} RunNoNewWriter(s: State, es: seq<Event>, t: State, op: nat, names: set<string>, f: string)
    requires Ran(s, es, t) && (forall e :: e in es ==> OwnOrForeign(e, op, names)) && f in names
    ensures NoNewWriter(s, t, op, f)
    decreases |es|
  {
    if es != [] {
      assert OwnOrForeign(es[0], op, names);
      OneNoNewWriter(s, es[0], op, names, f);
      RunNoNewWriter(Apply(s, es[0]), es[1..], t, op, names, f);
    }
  }

  // ------------------------------------------------------------------- operation numbers

  ghost predicate StaysOut(s: State, e: Event, t: State, op: nat) {
    && (op !in s.uploads && !ByUpload(e, op) ==> op !in t.uploads)
    && (op !in s.deletions && !ByDeletion(e, op) ==> op !in t.deletions)
    && (op !in s.downloads && !ByDownload(e, op) ==> op !in t.downloads)
  }

  lemma UploadStaysOut(s: State, e: Event, op: nat)
    requires Shaped(s) && Enabled(s, e) && OfUpload(e)
    ensures StaysOut(s, e, ApplyUpload(s, e), op)
  {
    if InPlace(e) {
      hide Shaped, ApplyUpload;
      InPlaceReplaces(s, e);
    }
  }

  lemma OtherStaysOut(s: State, e: Event, op: nat)
    requires Shaped(s) && Enabled(s, e) && !OfUpload(e)
    ensures StaysOut(s, e, Apply(s, e), op)
  {
  }

  /** Only its own events put an operation in flight. */
  lemma OneStaysOut(s: State, e: Event, op: nat)
    requires Shaped(s) && Enabled(s, e)
    ensures StaysOut(s, e, Apply(s, e), op)
  {
    if OfUpload(e) {
      UploadStaysOut(s, e, op);
    } else {
      OtherStaysOut(s, e, op);
    }
  }

  lemma {:induction false} RunStaysOut(s: State, es: seq<Event>, t: State, op: nat)
    requires Ran(s, es, t)
    ensures op !in s.uploads && (forall e :: e in es ==> !ByUpload(e, op)) ==> op !in t.uploads
    ensures op !in s.deletions && (forall e :: e in es ==> !ByDeletion(e, op)) ==> op !in t.deletions
    ensures op !in s.downloads && (forall e :: e in es ==> !ByDownload(e, op)) ==> op !in t.downloads
    decreases |es|
  {
    if es != [] {
      OneStaysOut(s, es[0], op);
      RunStaysOut(Apply(s, es[0]), es[1..], t, op);
    }
  }
}
