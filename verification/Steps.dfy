/** Pieces of runs: what a handler that executes some blocks one after the other has done, alone
    or with other handlers at work between its blocks. */
module Steps {
  import opened Cluster
  import opened Invariants
  import opened Bytes
  import opened Runs
  import opened Attribution
  import opened Replication

  /** t follows s by event e. */
  ghost predicate Follows(s: State, e: Event, t: State) {
    Shaped(s) && Enabled(s, e) && t == Apply(s, e)
  }

  /** The events es lead from s to t. */
  ghost predicate Ran(s: State, es: seq<Event>, t: State) {
    IsRun(s, es) && End(s, es) == t
  }

  /** The same operations are in flight. */
  ghost predicate SameFlights(s: State, t: State) {
    t.uploads == s.uploads && t.deletions == s.deletions && t.downloads == s.downloads
  }

  lemma RanNothing(s: State)
    requires Shaped(s)
    ensures Ran(s, [], s)
  {
  }

  lemma RanOne(s: State, e: Event, t: State)
    requires Follows(s, e, t) && Shaped(t)
    ensures Ran(s, [e], t)
  {
    assert IsRun(t, []) && [e][1..] == [];
  }

  lemma RanBoth(s: State, es: seq<Event>, t: State, fs: seq<Event>, u: State)
    requires Ran(s, es, t) && Ran(t, fs, u)
    ensures Ran(s, es + fs, u)
  {
    RunsCompose(s, es, fs);
  }

  lemma RanOn(s: State, es: seq<Event>, t: State, e: Event, u: State)
    requires Ran(s, es, t) && Follows(t, e, u) && Shaped(u)
    ensures Ran(s, es + [e], u)
  {
    RanOne(t, e, u);
    RanBoth(s, es, t, [e], u);
  }

  /** Nothing has been written under any other name: neither entries nor chunk files nor taint. */
  ghost predicate OnlyCounts(s: State, t: State, f: string) {
    forall g :: g != f ==> Stamp(t.stamps, g) == Stamp(s.stamps, g)
  }

  lemma CountsOwnName(s: State, e: Event)
    requires Shaped(s) && Enabled(s, e) && InPlace(e)
    ensures e.op in s.uploads && OnlyCounts(s, ApplyUpload(s, e), s.uploads[e.op].name)
  {
  }

  /** Between s and t only upload op has moved, and node_bytes by exactly its own account. */
  ghost predicate Advanced(s: State, t: State, op: nat) {
    && |s.load.bytes| == |t.load.bytes| == s.cfg.nodes && ReplacesUpload(s, t, op)
    && OnlyCounts(s, t, s.uploads[op].name)
    && forall i: nat {:trigger t.load.bytes[i]} :: i < s.cfg.nodes ==>
         t.load.bytes[i] - s.load.bytes[i]
         == UploadBytes(t.uploads[op], s.cfg, i) - UploadBytes(s.uploads[op], s.cfg, i)
  }

  lemma AdvancedOne(s: State, e: Event, t: State)
    requires Follows(s, e, t) && InPlace(e)
    ensures Advanced(s, t, e.op)
  {
    InPlaceReplaces(s, e);
    CountsOwnName(s, e);
    assert |t.load.bytes| == s.cfg.nodes by {
      if s.cfg.nodes > 0 {
        InPlaceBytes(s, e, 0);
      }
    }
    forall i: nat | i < s.cfg.nodes
      ensures t.load.bytes[i] - s.load.bytes[i]
              == UploadBytes(t.uploads[e.op], s.cfg, i) - UploadBytes(s.uploads[e.op], s.cfg, i)
    {
      InPlaceBytes(s, e, i);
    }
  }

  lemma AdvancedBoth(s: State, t: State, u: State, op: nat)
    requires Advanced(s, t, op) && Advanced(t, u, op)
    ensures Advanced(s, u, op)
  {
    forall i: nat | i < s.cfg.nodes
      ensures u.load.bytes[i] - s.load.bytes[i]
              == UploadBytes(u.uploads[op], s.cfg, i) - UploadBytes(s.uploads[op], s.cfg, i)
    {
      assert t.load.bytes[i] - s.load.bytes[i]
             == UploadBytes(t.uploads[op], s.cfg, i) - UploadBytes(s.uploads[op], s.cfg, i);
    }
  }

  // -------------------------------------------------------------- what others do meanwhile

  predicate ByDownload(e: Event, op: nat) {
    (e.BeginDownload? || e.Retrieve? || e.EndDownload?) && e.op == op
  }

  /** Whether other handlers run between the blocks of this one, and which names they leave alone. */
  datatype Company = Alone | Among(spared: set<string>)

  /** An event of another operation, or of none, that starts no upload or deletion of these names. */
  predicate Foreign(e: Event, op: nat, names: set<string>) {
    && !ByUpload(e, op) && !ByDeletion(e, op) && !ByDownload(e, op)
    && (e.Admit? || e.BeginDelete? ==> e.name !in names)
  }

  /** Operation op, if it is in flight, stands where it stood. */
  ghost predicate Stands(s: State, t: State, op: nat) {
    && (op in t.uploads <==> op in s.uploads) && (op in s.uploads ==> t.uploads[op] == s.uploads[op])
    && (op in t.deletions <==> op in s.deletions) && (op in s.deletions ==> t.deletions[op] == s.deletions[op])
    && (op in t.downloads <==> op in s.downloads) && (op in s.downloads ==> t.downloads[op] == s.downloads[op])
  }

  /** What others may do. */
  predicate Elsewhere(e: Event, op: nat, others: Company) {
    others.Among? && Foreign(e, op, others.spared)
  }

  /** Others have led from s to t. */
  ghost predicate Meanwhile(s: State, es: seq<Event>, t: State, op: nat, others: Company) {
    && Ran(s, es, t) && t.cfg == s.cfg && Stands(s, t, op)
    && forall e :: e in es ==> Elsewhere(e, op, others)
  }

  lemma ForeignStands(s: State, e: Event, op: nat, names: set<string>)
    requires Shaped(s) && Enabled(s, e) && Foreign(e, op, names)
    ensures Stands(s, Apply(s, e), op) && Apply(s, e).cfg == s.cfg
  {
    if OfUpload(e) {
      ForeignUpload(s, e, op);
    } else {
      ForeignOther(s, e, op, names);
    }
  }

  lemma ForeignUpload(s: State, e: Event, op: nat)
    requires Shaped(s) && Enabled(s, e) && OfUpload(e) && e.op != op
    ensures Stands(s, ApplyUpload(s, e), op) && ApplyUpload(s, e).cfg == s.cfg
  {
    if InPlace(e) {
      hide ApplyUpload, Shaped, Enabled, SameUpload;
      InPlaceReplaces(s, e);
    } else {
      ForeignEnding(s, e, op);
    }
  }

  lemma ForeignEnding(s: State, e: Event, op: nat)
    requires Shaped(s) && Enabled(s, e) && OfUpload(e) && !InPlace(e) && e.op != op
    ensures Stands(s, ApplyUpload(s, e), op) && ApplyUpload(s, e).cfg == s.cfg
  {
  }

  lemma ForeignOther(s: State, e: Event, op: nat, names: set<string>)
    requires Shaped(s) && Enabled(s, e) && !OfUpload(e) && Foreign(e, op, names)
    ensures Stands(s, Apply(s, e), op) && Apply(s, e).cfg == s.cfg
  {
  }

  lemma MeanwhileNothing(s: State, op: nat, others: Company)
    requires Shaped(s)
    ensures Meanwhile(s, [], s, op, others)
  {
    RanNothing(s);
  }

  lemma MeanwhileOn(s: State, es: seq<Event>, t: State, e: Event, u: State, op: nat, others: Company)
    requires Meanwhile(s, es, t, op, others) && Elsewhere(e, op, others) && Follows(t, e, u) && Shaped(u)
    ensures Meanwhile(s, es + [e], u, op, others)
  {
    RanOn(s, es, t, e, u);
    ForeignStands(t, e, op, others.spared);
  }

  lemma AloneNothing(s: State, es: seq<Event>, t: State, op: nat)
    requires Meanwhile(s, es, t, op, Alone)
    ensures es == [] && t == s
  {
    assert |es| > 0 ==> Elsewhere(es[0], op, Alone);
  }

  // ------------------------------------------------------------------- stretches of uploads

  /** A stretch of the run of upload op: with whatever others do, or alone. */
  ghost predicate Works(s: State, es: seq<Event>, t: State, op: nat, others: Company) {
    && Ran(s, es, t) && t.cfg == s.cfg && op in s.uploads && op in t.uploads
    && SameUpload(s.uploads[op], t.uploads[op])
    && (forall e :: e in es ==> Continues(e, op) && (ByUpload(e, op) || Elsewhere(e, op, others)))
  }

  lemma WorksOn(s: State, es: seq<Event>, t: State, e: Event, u: State, others: Company)
    requires InPlace(e) && Works(s, es, t, e.op, others) && Follows(t, e, u) && Shaped(u)
    ensures Works(s, es + [e], u, e.op, others)
  {
    RanOn(s, es, t, e, u);
    InPlaceReplaces(t, e);
  }

  lemma WorksBoth(s: State, es: seq<Event>, t: State, fs: seq<Event>, u: State, op: nat, others: Company)
    requires Works(s, es, t, op, others) && Works(t, fs, u, op, others)
    ensures Works(s, es + fs, u, op, others)
  {
    RanBoth(s, es, t, fs, u);
  }

  lemma WorksNot(s: State, op: nat, others: Company)
    requires Shaped(s) && op in s.uploads
    ensures Works(s, [], s, op, others)
  {
    RanNothing(s);
  }

  /** Others may run in between. */
  lemma WorksAmong(s: State, es: seq<Event>, t: State, fs: seq<Event>, u: State, op: nat, others: Company)
    requires Works(s, es, t, op, others) && Meanwhile(t, fs, u, op, others)
    ensures Works(s, es + fs, u, op, others)
  {
    RanBoth(s, es, t, fs, u);
    forall e | e in es + fs ensures Continues(e, op) && (ByUpload(e, op) || Elsewhere(e, op, others)) {
      assert e in es || (e in fs && Elsewhere(e, op, others));
    }
  }

  /** Alone, nothing but the upload has moved, and node_bytes by exactly its own account. */
  lemma {:induction false} AloneAdvances(s: State, es: seq<Event>, t: State, op: nat)
    requires Works(s, es, t, op, Alone)
    ensures Advanced(s, t, op)
    decreases |es|
  {
    if es != [] {
      var e := es[0];
      var m := Apply(s, e);
      assert Continues(e, op) && ByUpload(e, op);
      AdvancedOne(s, e, m);
      InPlaceReplaces(s, e);
      AloneAdvances(m, es[1..], t, op);
      AdvancedBoth(s, m, t, op);
    }
  }

  // ------------------------------------------------------------------ selections along runs

  lemma {:induction false} PlentyBoth(s: State, es: seq<Event>, fs: seq<Event>, op: nat, n: nat)
    requires IsRun(s, es) && IsRun(End(s, es), fs) && IsRun(s, es + fs)
    ensures Plenty(s, es + fs, op, n) <==> Plenty(s, es, op, n) && Plenty(End(s, es), fs, op, n)
    decreases |es|
  {
    hide Enabled, Shaped, Selects, LiveCount;
    if es == [] {
      assert es + fs == fs;
    } else {
      assert (es + fs)[0] == es[0] && (es + fs)[1..] == es[1..] + fs;
      PlentyBoth(Apply(s, es[0]), es[1..], fs, op, n);
    }
  }

  /** The last selection of this stretch found nobody. */
  ghost predicate Starved(s: State, es: seq<Event>, op: nat) {
    IsRun(s, es) && !Plenty(s, es, op, 1)
  }

  lemma StarvedOn(s: State, es: seq<Event>, t: State, e: Event, u: State)
    requires Ran(s, es, t) && e.Select? && Follows(t, e, u) && Shaped(u) && LiveCount(t, e.op) == 0
    ensures Starved(s, es + [e], e.op)
  {
    RanOn(s, es, t, e, u);
    assert IsRun(u, []) && [e][1..] == [];
    assert !Plenty(t, [e], e.op, 1);
    PlentyBoth(s, es, [e], e.op, 1);
  }

  lemma StarvedLater(s: State, es: seq<Event>, t: State, fs: seq<Event>, u: State, op: nat)
    requires Ran(s, es, t) && Ran(t, fs, u) && (Starved(s, es, op) || Starved(t, fs, op))
    ensures Starved(s, es + fs, op)
  {
    RanBoth(s, es, t, fs, u);
    PlentyBoth(s, es, fs, op, 1);
  }
}
