/** Uploads and deletions of one name at the same time, as the code allows them: an upload looks at
    the pending names only, a deletion at the metadata only. What comes of it, for every run. */
module Overlap {
  import opened Wrappers
  import opened ChunkNames
  import opened Chunking
  import opened Load
  import opened Cluster
  import opened Invariants
  import opened Bytes
  import opened Contents
  import opened Runs
  import opened Attribution

  /** The guards of the code. */
  ghost predicate Allowed(s: State, e: Event) {
    match e
    case Admit(op, name, content) => op !in s.uploads && content != "" && name !in s.pending
    case BeginDelete(op, name) => op !in s.deletions && name in s.meta
    case _ => Enabled(s, e)
  }

  ghost function Next(s: State, e: Event): State
    requires Shaped(s) && Allowed(s, e)
  {
    match e
    case Admit(op, name, content) => DoAdmit(s, op, name, content)
    case BeginDelete(op, name) => DoBeginDelete(s, op, name)
    case _ => Apply(s, e)
  }

  ghost predicate IsFree(s: State, es: seq<Event>)
    decreases |es|
  {
    Shaped(s) && (es == [] || (Allowed(s, es[0]) && IsFree(Next(s, es[0]), es[1..])))
  }

  ghost function Final(s: State, es: seq<Event>): State
    requires IsFree(s, es)
    decreases |es|
  {
    if es == [] then s else Final(Next(s, es[0]), es[1..])
  }

  lemma EnabledIsAllowed(s: State, e: Event)
    requires Shaped(s) && Enabled(s, e)
    ensures Allowed(s, e) && Next(s, e) == Apply(s, e)
  {
  }

  /** Every run of the guarded machine is one of this one. */
  lemma {:induction false} GuardedIsFree(s: State, es: seq<Event>)
    requires IsRun(s, es)
    ensures IsFree(s, es) && Final(s, es) == End(s, es)
    decreases |es|
  {
    if es != [] {
      EnabledIsAllowed(s, es[0]);
      GuardedIsFree(Apply(s, es[0]), es[1..]);
    }
  }

  lemma BeginDeleteSound(s: State, op: nat, name: string)
    requires Sound(s) && name in s.meta
    ensures Sound(DoBeginDelete(s, op, name))
  {
  }

  /** Without the guards the index still agrees and every event is still defined. */
  lemma NextSound(s: State, e: Event)
    requires Sound(s) && Allowed(s, e)
    ensures Sound(Next(s, e)) && Next(s, e).cfg == s.cfg
  {
    if e.Admit? {
      AdmitSound(s, e.op, e.name, e.content);
    } else if e.BeginDelete? {
      BeginDeleteSound(s, e.op, e.name);
    } else {
      SoundKept(s, e);
    }
  }

  lemma {:induction false} FreeCompose(s: State, es: seq<Event>, fs: seq<Event>)
    requires IsFree(s, es + fs)
    ensures IsFree(s, es) && IsFree(Final(s, es), fs) && Final(s, es + fs) == Final(Final(s, es), fs)
    decreases |es|
  {
    hide Allowed, Next, Shaped;
    if es == [] {
      assert es + fs == fs;
    } else {
      assert (es + fs)[0] == es[0] && (es + fs)[1..] == es[1..] + fs;
      FreeCompose(Next(s, es[0]), es[1..], fs);
    }
  }

  // ----------------------------------------------------------------- whether it is listed

  /** The events after which the metadata says something else about f. */
  ghost predicate Decides(s: State, e: Event, f: string)
    requires Allowed(s, e)
  {
    match e
    case Commit(op) => s.uploads[op].name == f
    case EndDelete(op) => s.deletions[op].name == f
    case _ => false
  }

  ghost predicate Undecided(s: State, es: seq<Event>, f: string)
    requires IsFree(s, es)
    decreases |es|
  {
    es == [] || (!Decides(s, es[0], f) && Undecided(Next(s, es[0]), es[1..], f))
  }

  /** What the metadata says about f. */
  function Entry(s: State, f: string): Option<FileMeta> {
    if f in s.meta then Some(s.meta[f]) else None
  }

  lemma QuietEntry(s: State, e: Event, f: string)
    requires Shaped(s) && Allowed(s, e) && !e.Commit? && !e.EndDelete?
    ensures Next(s, e).meta == s.meta
  {
    if InPlace(e) {
      InPlaceReplaces(s, e);
    }
  }

  lemma OneEntry(s: State, e: Event, f: string)
    requires Shaped(s) && Allowed(s, e)
    ensures Entry(Next(s, e), f)
            == if !Decides(s, e, f) then Entry(s, f)
               else if e.Commit? then Some(FileMeta(|s.uploads[e.op].content|, s.uploads[e.op].chunks))
               else None
  {
    if !e.Commit? && !e.EndDelete? {
      QuietEntry(s, e, f);
    }
  }

  lemma {:induction false} UndecidedEntry(s: State, es: seq<Event>, f: string)
    requires IsFree(s, es) && Undecided(s, es, f)
    ensures Entry(Final(s, es), f) == Entry(s, f)
    decreases |es|
  {
    if es != [] {
      OneEntry(s, es[0], f);
      UndecidedEntry(Next(s, es[0]), es[1..], f);
    }
  }

  /** The last event that decides about a name decides whether it is listed, and as what. */
  lemma LastWord(s: State, es: seq<Event>, e: Event, fs: seq<Event>, f: string)
    requires IsFree(s, es + [e] + fs)
    ensures IsFree(s, es) && Shaped(Final(s, es)) && Allowed(Final(s, es), e) && IsFree(Next(Final(s, es), e), fs)
    ensures var m := Final(s, es);
            Decides(m, e, f) && Undecided(Next(m, e), fs, f) ==>
              Entry(Final(s, es + [e] + fs), f)
              == if e.Commit? then Some(FileMeta(|m.uploads[e.op].content|, m.uploads[e.op].chunks)) else None
  {
    FreeCompose(s, es + [e], fs);
    FreeCompose(s, es, [e]);
    var m := Final(s, es);
    assert [e][1..] == [];
    assert Final(m, [e]) == Next(m, e);
    OneEntry(m, e, f);
    if Undecided(Next(m, e), fs, f) {
      UndecidedEntry(Next(m, e), fs, f);
    }
  }

  /** An upload and a deletion of one name have both ended, and nobody else has decided about it
      since the first of the two: the name is listed if and only if the commit came last. */
  lemma CommitMustComeLast(s: State, es: seq<Event>, a: Event, mid: seq<Event>, b: Event, fs: seq<Event>, f: string)
    requires IsFree(s, es + [a] + mid + [b] + fs)
    requires (a.Commit? && b.EndDelete?) || (a.EndDelete? && b.Commit?)
    requires IsFree(s, es + [a] + mid)
    requires var m := Final(s, es + [a] + mid);
             && Shaped(m) && Allowed(m, b) && Decides(m, b, f)
             && IsFree(Next(m, b), fs) && Undecided(Next(m, b), fs, f)
    ensures f in Final(s, es + [a] + mid + [b] + fs).meta <==> a.EndDelete?
  {
    LastWord(s, es + [a] + mid, b, fs, f);
  }

  // ---------------------------------------------------------- whether its copies are there

  /** The copy that a deletion visits next. */
  function NextCopy(d: Deletion): Copy
    requires d.pos < |Flatten(d.meta.chunks)|
  {
    Flatten(d.meta.chunks)[d.pos]
  }

  /** A request to delete chunk k of f on node i reaches the node. */
  ghost predicate Asks(s: State, e: Event, f: string, k: nat, i: nat)
    requires Allowed(s, e)
  {
    && e.DeleteCopy? && (e.outcome.Acknowledged? || e.outcome.Refused?) && s.deletions[e.op].name == f
    && NextCopy(s.deletions[e.op]).index == k && NextCopy(s.deletions[e.op]).node == i
  }

  /** What it leaves there. */
  function Left(e: Event): Option<string>
    requires e.DeleteCopy?
  {
    if e.outcome.Acknowledged? then None else e.effect
  }

  /** An acknowledged store of chunk k of f on node i. */
  ghost predicate Stores(s: State, e: Event, f: string, k: nat, i: nat)
    requires Allowed(s, e)
  {
    && e.StoreReply? && e.acked && s.uploads[e.op].name == f
    && |s.uploads[e.op].chunks| == k && e.node == i
  }

  /** Since its last acknowledged store the copy has been spoiled: the last deletion request that
      reached it after that has left something else there. */
  ghost function Spoiled(s: State, es: seq<Event>, f: string, content: string, k: nat, i: nat, now: bool): bool
    requires IsFree(s, es)
    decreases |es|
  {
    if es == [] then now else
      Spoiled(Next(s, es[0]), es[1..], f, content, k, i, SpoiledBy(s, es[0], f, content, k, i, now))
  }

  ghost function SpoiledBy(s: State, e: Event, f: string, content: string, k: nat, i: nat, now: bool): bool
    requires Allowed(s, e)
  {
    if Stores(s, e, f, k, i) then false
    else if Asks(s, e, f, k, i) then Left(e) != Some(Slice(content, s.cfg.chunk, k))
    else now
  }

  /** Upload `up` is storing this content under f; nobody else is, and nobody else can begin to. */
  ghost predicate OnlyUploader(s: State, up: nat, f: string, content: string) {
    && up in s.uploads && s.uploads[up].name == f && s.uploads[up].content == content && f in s.pending
    && (forall o :: o in s.uploads && o != up ==> s.uploads[o].name != f)
    && Numbered(s.uploads[up])
  }

  ghost predicate NoUploader(s: State, f: string) {
    forall o :: o in s.uploads ==> s.uploads[o].name != f
  }

  /** The copies that an upload has been told are there. */
  ghost predicate Has(u: Upload, k: nat, i: nat) {
    || Holds(Flatten(u.chunks), k, i)
    || (u.phase.Storing? && k == |u.chunks| && i in u.phase.answers && u.phase.answers[i])
  }

  ghost predicate There(s: State, f: string, content: string, k: nat, i: nat) {
    Stored(s.disks, i, ChunkName(f, k), Slice(content, s.cfg.chunk, k))
  }

  // ------------------------------------------------------- what an event does to one file

  lemma TouchedFile(disks: Disks, node: nat, g: string, index: nat, effect: Option<string>, f: string, k: nat, i: nat,
                    bytes: string)
    requires node < |disks|
    ensures Stored(Touch(disks, node, ChunkName(g, index), effect), i, ChunkName(f, k), bytes)
            <==> if g == f && index == k && node == i then effect == Some(bytes)
                 else Stored(disks, i, ChunkName(f, k), bytes)
  {
    if g == f && index == k && node == i {
      assert Touch(disks, node, ChunkName(g, index), effect)[i]
             == if effect.Some? then disks[i][ChunkName(f, k) := effect.value] else disks[i] - {ChunkName(f, k)};
    } else {
      if ChunkName(g, index) == ChunkName(f, k) {
        ChunkNameInjective(g, index, f, k);
      }
      TouchElsewhere(disks, node, ChunkName(g, index), effect, i, ChunkName(f, k), bytes);
    }
  }

  lemma StoreTouches(s: State, op: nat, node: nat, acked: bool, effect: Option<string>, f: string, k: nat, i: nat,
                     content: string)
    requires Shaped(s) && Enabled(s, StoreReply(op, node, acked, effect))
    ensures var u := s.uploads[op];
            There(DoStoreReply(s, op, node, acked, effect), f, content, k, i)
            <==> if u.name == f && |u.chunks| == k && node == i then
                   (if acked then Some(Piece(u, s.cfg)) else effect) == Some(Slice(content, s.cfg.chunk, k))
                 else There(s, f, content, k, i)
  {
    hide Touch;
    var u := s.uploads[op];
    assert UploadShaped(u, s.cfg);
    TouchedFile(s.disks, node, u.name, |u.chunks|, if acked then Some(Piece(u, s.cfg)) else effect, f, k, i,
                Slice(content, s.cfg.chunk, k));
  }

  lemma SweepTouches(s: State, op: nat, acked: bool, effect: Option<string>, f: string, k: nat, i: nat, content: string)
    requires Shaped(s) && Enabled(s, Sweep(op, acked, effect))
    requires s.uploads[op].name == f ==> Holds(Flatten(s.uploads[op].chunks), k, i)
    ensures There(DoSweep(s, op, acked, effect), f, content, k, i) <==> There(s, f, content, k, i)
  {
    hide Touch;
    var u := s.uploads[op];
    assert UploadShaped(u, s.cfg);
    var c := PriorCopies(u)[u.phase.pos];
    assert c in PriorCopies(u);
    TouchedFile(s.disks, c.node, u.name, c.index, if acked then None else effect, f, k, i,
                Slice(content, s.cfg.chunk, k));
  }

  lemma DeleteTouches(s: State, op: nat, outcome: DeleteReply, effect: Option<string>, f: string, k: nat, i: nat,
                      content: string)
    requires Shaped(s) && Enabled(s, DeleteCopy(op, outcome, effect))
    ensures var e := DeleteCopy(op, outcome, effect);
            There(DoDeleteCopy(s, op, outcome, effect), f, content, k, i)
            <==> if Asks(s, e, f, k, i) then Left(e) == Some(Slice(content, s.cfg.chunk, k))
                 else There(s, f, content, k, i)
  {
    hide Touch;
    var d := s.deletions[op];
    assert DeletionShaped(d, s.cfg);
    var c := NextCopy(d);
    assert c in Flatten(d.meta.chunks);
    TouchedFile(s.disks, c.node, d.name, c.index, Left(DeleteCopy(op, outcome, effect)), f, k, i,
                Slice(content, s.cfg.chunk, k));
  }

  lemma OthersTouchNothing(s: State, e: Event)
    requires Shaped(s) && Allowed(s, e) && !e.StoreReply? && !e.Sweep? && !e.DeleteCopy?
    ensures Next(s, e).disks == s.disks && Next(s, e).cfg == s.cfg
  {
    if InPlace(e) {
      InPlaceReplaces(s, e);
    }
  }

  // --------------------------------------------------------------- while the upload goes on

  ghost predicate Numbered(u: Upload) {
    forall c :: c in Flatten(u.chunks) ==> c.index < |u.chunks|
  }

  lemma OwnMembers(s: State, e: Event, k: nat, i: nat)
    requires Shaped(s) && Enabled(s, e) && InPlace(e) && Numbered(s.uploads[e.op])
    ensures e.op in ApplyUpload(s, e).uploads
    ensures var u, v := s.uploads[e.op], ApplyUpload(s, e).uploads[e.op];
            && (Has(v, k, i) ==> Has(u, k, i) || Stores(s, e, u.name, k, i)) && Numbered(v)
  {
    if e.Settle? {
      SettledMembers(s.uploads[e.op], s.cfg, k, i);
    } else if e.StoreReply? {
      StoredMembers(s, e.op, e.node, e.acked, e.effect, k, i);
    } else {
      QuietMembers(s, e, k, i);
    }
  }

  lemma StoredMembers(s: State, op: nat, node: nat, acked: bool, effect: Option<string>, k: nat, i: nat)
    requires Shaped(s) && Enabled(s, StoreReply(op, node, acked, effect))
    ensures op in DoStoreReply(s, op, node, acked, effect).uploads
    ensures var u, v := s.uploads[op], DoStoreReply(s, op, node, acked, effect).uploads[op];
            && (Has(v, k, i) ==> Has(u, k, i) || Stores(s, StoreReply(op, node, acked, effect), u.name, k, i))
            && v.chunks == u.chunks
  {
  }

  lemma QuietMembers(s: State, e: Event, k: nat, i: nat)
    requires Shaped(s) && Enabled(s, e) && InPlace(e) && !e.Settle? && !e.StoreReply?
    ensures e.op in ApplyUpload(s, e).uploads
    ensures var u, v := s.uploads[e.op], ApplyUpload(s, e).uploads[e.op];
            (Has(v, k, i) ==> Has(u, k, i)) && v.chunks == u.chunks
  {
    hide Shaped;
  }

  lemma SettledMembers(u: Upload, cfg: Config, k: nat, i: nat)
    requires AllAnswered(u.phase) && Numbered(u)
    ensures var v := SettledUpload(u, cfg, Answered(u.phase.chosen, u.phase.answers, true),
                                   Answered(u.phase.chosen, u.phase.answers, false));
            (Has(v, k, i) ==> Has(u, k, i)) && Numbered(v)
  {
    var good := Answered(u.phase.chosen, u.phase.answers, true);
    AnsweredFacts(u.phase.chosen, u.phase.answers, true);
    var c := Current(u, cfg, good);
    FlattenAppend(u.chunks, c);
    if good != [] && Holds(Flatten(u.chunks + [c]), k, i) && !Holds(Flatten(u.chunks), k, i) {
      var x :| x in Flatten(u.chunks + [c]) && x.index == k && x.node == i;
      assert x in CopiesOf(c) && i in good;
    }
  }

  /** Uploads in flight keep their names, and only an admission adds one. */
  lemma UploadNames(s: State, e: Event)
    requires Shaped(s) && Allowed(s, e)
    ensures forall o :: o in Next(s, e).uploads ==>
              (o in s.uploads && Next(s, e).uploads[o].name == s.uploads[o].name)
              || (e.Admit? && o == e.op && Next(s, e).uploads[o].name == e.name)
  {
    hide Shaped, ApplyUpload;
    if InPlace(e) {
      InPlaceReplaces(s, e);
    } else if OfUpload(e) {
      EndingNames(s, e);
    } else {
      OtherNames(s, e);
    }
  }

  lemma EndingNames(s: State, e: Event)
    requires Shaped(s) && Allowed(s, e) && OfUpload(e) && !InPlace(e)
    ensures forall o :: o in Next(s, e).uploads ==>
              (o in s.uploads && Next(s, e).uploads[o].name == s.uploads[o].name)
              || (e.Admit? && o == e.op && Next(s, e).uploads[o].name == e.name)
  {
  }

  lemma OtherNames(s: State, e: Event)
    requires Shaped(s) && Allowed(s, e) && !OfUpload(e)
    ensures Next(s, e).uploads == s.uploads && Next(s, e).pending == s.pending
  {
  }

  /** What other operations leave to an upload in flight. */
  lemma LeavesUpload(s: State, e: Event, up: nat)
    requires Shaped(s) && Allowed(s, e) && !ByUpload(e, up) && up in s.uploads
    requires forall o :: o in s.uploads && o != up ==> s.uploads[o].name != s.uploads[up].name
    ensures var t := Next(s, e);
            && up in t.uploads && t.uploads[up] == s.uploads[up]
            && (s.uploads[up].name in s.pending ==> s.uploads[up].name in t.pending)
  {
    if InPlace(e) {
      hide Shaped, ApplyUpload, SameUpload;
      InPlaceReplaces(s, e);
    } else if OfUpload(e) {
      EndingLeaves(s, e, up);
    } else {
      OtherNames(s, e);
    }
  }

  lemma EndingLeaves(s: State, e: Event, up: nat)
    requires Shaped(s) && Allowed(s, e) && OfUpload(e) && !InPlace(e) && e.op != up && up in s.uploads
    requires forall o :: o in s.uploads && o != up ==> s.uploads[o].name != s.uploads[up].name
    ensures var t := Next(s, e);
            && up in t.uploads && t.uploads[up] == s.uploads[up]
            && (s.uploads[up].name in s.pending ==> s.uploads[up].name in t.pending)
  {
    hide Shaped;
  }

  lemma UploaderKept(s: State, e: Event, up: nat, f: string, content: string, k: nat, i: nat)
    requires Shaped(s) && Allowed(s, e) && Continues(e, up) && OnlyUploader(s, up, f, content)
    ensures OnlyUploader(Next(s, e), up, f, content)
    ensures Has(Next(s, e).uploads[up], k, i) ==> Has(s.uploads[up], k, i) || Stores(s, e, f, k, i)
  {
    hide Shaped, ApplyUpload, Has, Stores;
    UploadNames(s, e);
    if ByUpload(e, up) {
      InPlaceReplaces(s, e);
      OwnMembers(s, e, k, i);
    } else {
      LeavesUpload(s, e, up);
    }
  }

  /** Uploads of f store only their own pieces and sweep no copy that is listed. */
  ghost predicate Proper(s: State, e: Event, f: string, content: string, k: nat, i: nat)
    requires Allowed(s, e)
  {
    && (e.StoreReply? && s.uploads[e.op].name == f && |s.uploads[e.op].chunks| == k && e.node == i ==>
          e.acked && s.uploads[e.op].content == content)
    && (e.Sweep? && s.uploads[e.op].name == f ==> Holds(Flatten(s.uploads[e.op].chunks), k, i))
  }

  /** Whether a copy is there, after one more event. */
  lemma OneTruth(s: State, e: Event, f: string, content: string, k: nat, i: nat, now: bool)
    requires Shaped(s) && Allowed(s, e) && Proper(s, e, f, content, k, i)
    requires Stores(s, e, f, k, i) || (There(s, f, content, k, i) <==> !now)
    ensures There(Next(s, e), f, content, k, i) <==> !SpoiledBy(s, e, f, content, k, i, now)
  {
    hide Shaped, There, Holds;
    if e.StoreReply? {
      StoreTouches(s, e.op, e.node, e.acked, e.effect, f, k, i, content);
    } else if e.Sweep? {
      SweepTouches(s, e.op, e.acked, e.effect, f, k, i, content);
    } else if e.DeleteCopy? {
      DeleteTouches(s, e.op, e.outcome, e.effect, f, k, i, content);
    } else {
      OthersTouchNothing(s, e);
      SameDisks(s, Next(s, e), f, content, k, i);
    }
  }

  lemma SameDisks(s: State, t: State, f: string, content: string, k: nat, i: nat)
    requires t.disks == s.disks && t.cfg == s.cfg
    ensures There(t, f, content, k, i) <==> There(s, f, content, k, i)
  {
  }

  /** Whether a copy that the upload counts on is there. */
  lemma TruthKept(s: State, e: Event, up: nat, f: string, content: string, k: nat, i: nat, now: bool)
    requires Shaped(s) && Allowed(s, e) && Continues(e, up) && OnlyUploader(s, up, f, content)
    requires Has(s.uploads[up], k, i) ==> (There(s, f, content, k, i) <==> !now)
    requires Has(s.uploads[up], k, i) || Stores(s, e, f, k, i)
    ensures There(Next(s, e), f, content, k, i) <==> !SpoiledBy(s, e, f, content, k, i, now)
  {
    hide Shaped, There, Next, SpoiledBy;
    if e.StoreReply? && e.op == up && |s.uploads[up].chunks| == k && e.node == i && !e.acked {
      NotListedYet(s.uploads[up], k, i);
    }
    OneTruth(s, e, f, content, k, i, now);
  }

  lemma NotListedYet(u: Upload, k: nat, i: nat)
    requires Numbered(u) && k == |u.chunks|
    ensures !Holds(Flatten(u.chunks), k, i)
  {
  }

  lemma {:induction false} RunTruth(s: State, es: seq<Event>, up: nat, f: string, content: string, k: nat, i: nat,
                                    now: bool)
    requires IsFree(s, es) && OnlyUploader(s, up, f, content) && forall e :: e in es ==> Continues(e, up)
    requires Has(s.uploads[up], k, i) ==> (There(s, f, content, k, i) <==> !now)
    ensures var t := Final(s, es);
            && OnlyUploader(t, up, f, content)
            && (Has(t.uploads[up], k, i) ==>
                  (There(t, f, content, k, i) <==> !Spoiled(s, es, f, content, k, i, now)))
    decreases |es|
  {
    if es != [] {
      var e := es[0];
      assert Continues(e, up);
      UploaderKept(s, e, up, f, content, k, i);
      if Has(Next(s, e).uploads[up], k, i) {
        TruthKept(s, e, up, f, content, k, i, now);
      }
      RunTruth(Next(s, e), es[1..], up, f, content, k, i, SpoiledBy(s, e, f, content, k, i, now));
    }
  }

  // ------------------------------------------------------------------- after it has ended

  /** This event does not begin an upload of f. */
  predicate NotAdmitting(e: Event, f: string) {
    e.Admit? ==> e.name != f
  }

  lemma StillNoUploader(s: State, e: Event, f: string)
    requires Shaped(s) && Allowed(s, e) && NoUploader(s, f) && NotAdmitting(e, f)
    ensures NoUploader(Next(s, e), f)
  {
    hide Shaped, Next, Allowed;
    UploadNames(s, e);
  }

  lemma LaterTruthKept(s: State, e: Event, f: string, content: string, k: nat, i: nat, now: bool)
    requires Shaped(s) && Allowed(s, e) && NoUploader(s, f) && (There(s, f, content, k, i) <==> !now)
    ensures There(Next(s, e), f, content, k, i) <==> !SpoiledBy(s, e, f, content, k, i, now)
  {
    hide Shaped, There, Next, SpoiledBy;
    OneTruth(s, e, f, content, k, i, now);
  }

  lemma {:induction false} LaterTruth(s: State, es: seq<Event>, f: string, content: string, k: nat, i: nat, now: bool)
    requires IsFree(s, es) && NoUploader(s, f) && forall e :: e in es ==> NotAdmitting(e, f)
    requires There(s, f, content, k, i) <==> !now
    ensures There(Final(s, es), f, content, k, i) <==> !Spoiled(s, es, f, content, k, i, now)
    decreases |es|
  {
    if es != [] {
      var e := es[0];
      assert NotAdmitting(e, f);
      StillNoUploader(s, e, f);
      LaterTruthKept(s, e, f, content, k, i, now);
      LaterTruth(Next(s, e), es[1..], f, content, k, i, SpoiledBy(s, e, f, content, k, i, now));
    }
  }

  lemma {:induction false} SpoiledBoth(s: State, es: seq<Event>, fs: seq<Event>, f: string, content: string, k: nat,
                                       i: nat,
                                       now: bool)
    requires IsFree(s, es + fs) && IsFree(s, es) && IsFree(Final(s, es), fs)
    ensures Spoiled(s, es + fs, f, content, k, i, now)
            == Spoiled(Final(s, es), fs, f, content, k, i, Spoiled(s, es, f, content, k, i, now))
    decreases |es|
  {
    hide Allowed, Next, Shaped, SpoiledBy;
    if es == [] {
      assert es + fs == fs;
    } else {
      assert (es + fs)[0] == es[0] && (es + fs)[1..] == es[1..] + fs;
      SpoiledBoth(Next(s, es[0]), es[1..], fs, f, content, k, i, SpoiledBy(s, es[0], f, content, k, i, now));
    }
  }

  // ----------------------------------------------------------------------- what comes of it

  /** The run from right after an admission, over its commit, to any later state before the next
      upload of the name is admitted. */
  ghost predicate CommittedWithin(s: State, es: seq<Event>, fs: seq<Event>, up: nat, f: string) {
    && IsFree(s, es + [Commit(up)] + fs)
    && (forall e :: e in es ==> Continues(e, up)) && (forall e :: e in fs ==> NotAdmitting(e, f))
  }

  lemma CommitLeavesNoUploader(s: State, up: nat, f: string, content: string)
    requires Shaped(s) && Enabled(s, Commit(up)) && OnlyUploader(s, up, f, content)
    ensures NoUploader(DoCommit(s, up), f) && DoCommit(s, up).disks == s.disks && DoCommit(s, up).cfg == s.cfg
  {
  }

  lemma Divided(s: State, es: seq<Event>, fs: seq<Event>, up: nat)
    requires IsFree(s, es + [Commit(up)] + fs)
    ensures IsFree(s, es) && Shaped(Final(s, es)) && Enabled(Final(s, es), Commit(up))
    ensures IsFree(DoCommit(Final(s, es), up), fs)
    ensures Final(s, es + [Commit(up)] + fs) == Final(DoCommit(Final(s, es), up), fs)
  {
    FreeCompose(s, es + [Commit(up)], fs);
    FreeCompose(s, es, [Commit(up)]);
    var m := Final(s, es);
    assert [Commit(up)][1..] == [];
    assert Final(m, [Commit(up)]) == Next(m, Commit(up));
  }

  lemma CopyHolds(s: State, es: seq<Event>, fs: seq<Event>, up: nat, k: nat, i: nat)
    requires up in s.uploads && OnlyUploader(s, up, s.uploads[up].name, s.uploads[up].content)
    requires s.uploads[up].chunks == [] && s.uploads[up].phase.Admitted?
    requires CommittedWithin(s, es, fs, up, s.uploads[up].name)
    ensures IsFree(s, es) && up in Final(s, es).uploads
    ensures var f, content, all := s.uploads[up].name, s.uploads[up].content, es + [Commit(up)] + fs;
            Holds(Flatten(Final(s, es).uploads[up].chunks), k, i) ==>
              (There(Final(s, all), f, content, k, i) <==> !Spoiled(s, all, f, content, k, i, false))
  {
    var f, content, commit := s.uploads[up].name, s.uploads[up].content, [Commit(up)];
    Divided(s, es, fs, up);
    var m := Final(s, es);
    RunTruth(s, es, up, f, content, k, i, false);
    CommitLeavesNoUploader(m, up, f, content);
    if Holds(Flatten(m.uploads[up].chunks), k, i) {
      assert commit[1..] == [];
      FreeCompose(s, es + commit, fs);
      FreeCompose(s, es, commit);
      SpoiledBoth(s, es, commit, f, content, k, i, false);
      SpoiledBoth(s, es + commit, fs, f, content, k, i, false);
      LaterTruth(DoCommit(m, up), fs, f, content, k, i, Spoiled(s, es, f, content, k, i, false));
    }
  }

  /** Every copy that these chunks list holds its slice. */
  ghost predicate PlacementHolds(s: State, f: string, chunks: seq<ChunkMeta>, content: string) {
    forall k: nat, i: nat :: Holds(Flatten(chunks), k, i) ==> There(s, f, content, k, i)
  }

  /** No copy that these chunks list has been spoiled by a deletion after it was stored. */
  ghost predicate Unspoiled(s: State, all: seq<Event>, f: string, chunks: seq<ChunkMeta>, content: string)
    requires IsFree(s, all)
  {
    forall k: nat, i: nat :: Holds(Flatten(chunks), k, i) ==> !Spoiled(s, all, f, content, k, i, false)
  }

  /** What has become of an upload that was stored, with deletions of its name at any time: its
      placement holds if and only if no deletion request has spoiled a copy after it was stored, and
      unless something else decided after its commit, the name is listed with that placement. */
  lemma StoredAmongDeletions(s: State, es: seq<Event>, fs: seq<Event>, up: nat)
    requires up in s.uploads && OnlyUploader(s, up, s.uploads[up].name, s.uploads[up].content)
    requires s.uploads[up].chunks == [] && s.uploads[up].phase.Admitted?
    requires CommittedWithin(s, es, fs, up, s.uploads[up].name)
    ensures IsFree(s, es) && Shaped(Final(s, es)) && up in Final(s, es).uploads
    ensures IsFree(DoCommit(Final(s, es), up), fs)
    ensures var f, content, all := s.uploads[up].name, s.uploads[up].content, es + [Commit(up)] + fs;
            var chunks, t := Final(s, es).uploads[up].chunks, Final(s, all);
            && (PlacementHolds(t, f, chunks, content) <==> Unspoiled(s, all, f, chunks, content))
            && (Undecided(DoCommit(Final(s, es), up), fs, f) ==>
                  f in t.meta && t.meta[f] == FileMeta(|content|, chunks))
  {
    var f, content, all := s.uploads[up].name, s.uploads[up].content, es + [Commit(up)] + fs;
    Divided(s, es, fs, up);
    var m := Final(s, es);
    RunTruth(s, es, up, f, content, 0, 0, false);
    forall k: nat, i: nat | Holds(Flatten(m.uploads[up].chunks), k, i)
      ensures There(Final(s, all), f, content, k, i) <==> !Spoiled(s, all, f, content, k, i, false)
    {
      CopyHolds(s, es, fs, up, k, i);
    }
    if Undecided(DoCommit(m, up), fs, f) {
      UndecidedEntry(DoCommit(m, up), fs, f);
    }
  }

  // -------------------------------------------------------------------------- concrete runs

  const OLD: FileMeta := FileMeta(1, [ChunkMeta(0, 1, [0])])

  /** One node, one file of one byte. */
  ghost function Before(): State {
    var meta := map["f" := OLD];
    State(Config(1, 1, 1), meta, {}, FreshLoad([1]), {}, [map["f_chunk0" := "x"]], map[], map[], map[], map[], {},
          [1 - Committed(meta, 0)], map[])
  }

  lemma OldCopies()
    ensures Flatten(OLD.chunks) == [Copy(0, 1, 0)] && OLD.chunks == [ChunkMeta(0, 1, [0])]
  {
    var c := ChunkMeta(0, 1, [0]);
    assert [c][..0] == [];
    assert CopiesOf(c) == [Copy(0, 1, 0)];
  }

  lemma BeforeIsStartUp()
    ensures StartUp(Before()) && Sound(Before())
  {
    OldCopies();
    FreshLoadAgrees([1]);
    StartUpInv(Before());
  }

  /** The deletion of "f" has visited `pos` copies; the upload of "y" as "f" is at this phase. */
  ghost predicate Clashing(s: State, pos: nat, phase: Phase, chunks: seq<ChunkMeta>, disk: map<string, string>) {
    && Sound(s) && s.cfg == Config(1, 1, 1) && s.dead == {} && s.disks == [disk] && "f" in s.meta
    && 0 in s.deletions && s.deletions[0].name == "f" && s.deletions[0].meta == OLD && s.deletions[0].pos == pos
    && s.deletions[0].missed == {}
    && 0 in s.uploads && s.uploads[0].name == "f" && s.uploads[0].content == "y" && s.uploads[0].prior == Some(OLD)
    && s.uploads[0].phase == phase && s.uploads[0].chunks == chunks
    && (!phase.Admitted? ==> s.uploads[0].fds == {0})
  }

  lemma FreeJoin(s: State, es: seq<Event>, t: State, fs: seq<Event>)
    requires IsFree(s, es) && t == Final(s, es) && IsFree(t, fs)
    ensures IsFree(s, es + fs) && Final(s, es + fs) == Final(t, fs)
    decreases |es|
  {
    hide Allowed, Next, Shaped;
    if es == [] {
      assert es + fs == fs;
    } else {
      assert (es + fs)[0] == es[0] && (es + fs)[1..] == es[1..] + fs;
      FreeJoin(Next(s, es[0]), es[1..], t, fs);
    }
  }

  lemma OneFree(s: State, e: Event)
    requires Sound(s) && Allowed(s, e)
    ensures IsFree(s, [e]) && Final(s, [e]) == Next(s, e) && Sound(Next(s, e)) && Next(s, e).cfg == s.cfg
  {
    NextSound(s, e);
    assert [e][1..] == [];
    assert IsFree(Next(s, e), []);
  }

  lemma TwoFree(s: State, a: Event, b: Event)
    requires Sound(s) && Allowed(s, a) && Allowed(Next(s, a), b)
    ensures Sound(Next(s, a))
    ensures IsFree(s, [a, b]) && Final(s, [a, b]) == Next(Next(s, a), b) && Sound(Final(s, [a, b]))
    ensures Final(s, [a, b]).cfg == s.cfg
  {
    OneFree(s, a);
    OneFree(Next(s, a), b);
    FreeJoin(s, [a], Next(s, a), [b]);
    assert [a] + [b] == [a, b];
  }

  lemma ClashBegins()
    ensures var es := [BeginDelete(0, "f"), Admit(0, "f", "y")];
            IsFree(Before(), es) && Clashing(Final(Before(), es), 0, Admitted, [], map["f_chunk0" := "x"])
  {
    BeforeIsStartUp();
    var s := Before();
    TwoFree(s, BeginDelete(0, "f"), Admit(0, "f", "y"));
  }

  lemma ClashConnects(s: State)
    requires Clashing(s, 0, Admitted, [], map["f_chunk0" := "x"])
    ensures IsFree(s, [Connect(0, {})])
    ensures Clashing(Final(s, [Connect(0, {})]), 0, Receiving, [], map["f_chunk0" := "x"])
  {
    OneFree(s, Connect(0, {}));
    IndexVisitsLiveNodes(s);
    assert Tried(s) - {} == {0} && Tried(s) * {} == {};
  }

  lemma ClashSelects(s: State)
    requires Clashing(s, 0, Receiving, [], map["f_chunk0" := "x"])
    ensures IsFree(s, [Select(0, [0]), Reserve(0)])
    ensures Clashing(Final(s, [Select(0, [0]), Reserve(0)]), 0, Storing([0], map[]), [], map["f_chunk0" := "x"])
  {
    assert s.uploads[0].fds - s.dead == {0};
    assert LeastLoaded(s.load.bytes, {0}, 1, [0]);
    TwoFree(s, Select(0, [0]), Reserve(0));
  }

  lemma ClashStores(s: State)
    requires Clashing(s, 0, Storing([0], map[]), [], map["f_chunk0" := "x"])
    ensures IsFree(s, [StoreReply(0, 0, true, None)])
    ensures Clashing(Final(s, [StoreReply(0, 0, true, None)]), 0, Storing([0], map[0 := true]), [],
                     map["f_chunk0" := "y"])
  {
    hide Shaped, IndexAgrees, Known, Piece, Touch;
    OneFree(s, StoreReply(0, 0, true, None));
    OnlyPiece(s.uploads[0], s.cfg);
    FirstName();
    Overwritten();
  }

  lemma OnlyPiece(u: Upload, cfg: Config)
    requires u.content == "y" && u.chunks == [] && cfg.chunk == 1
    ensures Piece(u, cfg) == "y" && Offset(1, 1, 1) == 1
  {
  }

  lemma FirstName()
    ensures ChunkName("f", 0) == "f_chunk0"
  {
  }

  lemma Overwritten()
    ensures Touch([map["f_chunk0" := "x"]], 0, "f_chunk0", Some("y")) == [map["f_chunk0" := "y"]]
    ensures Touch([map["f_chunk0" := "y"]], 0, "f_chunk0", None) == [map[]]
  {
    assert map["f_chunk0" := "x"]["f_chunk0" := "y"] == map["f_chunk0" := "y"];
    assert map["f_chunk0" := "y"] - {"f_chunk0"} == map[];
  }

  lemma OneGood()
    ensures Answered([0], map[0 := true], true) == [0] && Answered([0], map[0 := true], false) == [] && ToSet([]) == {}
  {
    assert [0][1..] == [];
    assert Answered([], map[0 := true], true) == [] && Answered([], map[0 := true], false) == [];
  }

  lemma ClashSettles(s: State)
    requires Clashing(s, 0, Storing([0], map[0 := true]), [], map["f_chunk0" := "y"])
    ensures IsFree(s, [Settle(0)])
    ensures Clashing(Final(s, [Settle(0)]), 0, Sweeping(0), OLD.chunks, map["f_chunk0" := "y"])
  {
    hide Shaped, IndexAgrees, Known, Piece, Answered, Offset;
    OneFree(s, Settle(0));
    OneGood();
    OnlyPiece(s.uploads[0], s.cfg);
  }

  lemma ClashSweeps(s: State)
    requires Clashing(s, 0, Sweeping(0), OLD.chunks, map["f_chunk0" := "y"])
    ensures IsFree(s, [Sweep(0, true, None)])
    ensures Clashing(Final(s, [Sweep(0, true, None)]), 0, Sweeping(1), OLD.chunks, map["f_chunk0" := "y"])
  {
    OldCopies();
    OneFree(s, Sweep(0, true, None));
    assert Copy(0, 1, 0) in Flatten(OLD.chunks);
    assert Kept(s.uploads[0], Copy(0, 1, 0));
  }

  lemma ClashErases(s: State)
    requires Clashing(s, 0, Sweeping(1), OLD.chunks, map["f_chunk0" := "y"])
    ensures IsFree(s, [DeleteCopy(0, Acknowledged, None)])
    ensures Clashing(Final(s, [DeleteCopy(0, Acknowledged, None)]), 1, Sweeping(1), OLD.chunks, map[])
  {
    hide Shaped, IndexAgrees, Known, Flatten, Touch;
    OldCopies();
    OneFree(s, DeleteCopy(0, Acknowledged, None));
    FirstName();
    Overwritten();
  }

  /** The deletion of "f" begins; "f" is uploaded again, stored and settled; then the deletion's
      request for the old copy reaches the node, which is also where the new one is. */
  function Clash(): seq<Event> {
    [BeginDelete(0, "f"), Admit(0, "f", "y")] + [Connect(0, {})] + [Select(0, [0]), Reserve(0)]
    + [StoreReply(0, 0, true, None)] + [Settle(0)] + [Sweep(0, true, None)] + [DeleteCopy(0, Acknowledged, None)]
  }

  lemma ClashRuns()
    ensures IsFree(Before(), Clash()) && Clashing(Final(Before(), Clash()), 1, Sweeping(1), OLD.chunks, map[])
  {
    hide IsFree, Final, Clashing;
    ClashBegins();
    var s, es := Before(), [BeginDelete(0, "f"), Admit(0, "f", "y")];
    ClashConnects(Final(s, es));
    FreeJoin(s, es, Final(s, es), [Connect(0, {})]);
    es := es + [Connect(0, {})];
    ClashSelects(Final(s, es));
    FreeJoin(s, es, Final(s, es), [Select(0, [0]), Reserve(0)]);
    es := es + [Select(0, [0]), Reserve(0)];
    ClashStores(Final(s, es));
    FreeJoin(s, es, Final(s, es), [StoreReply(0, 0, true, None)]);
    es := es + [StoreReply(0, 0, true, None)];
    ClashSettles(Final(s, es));
    FreeJoin(s, es, Final(s, es), [Settle(0)]);
    es := es + [Settle(0)];
    ClashSweeps(Final(s, es));
    FreeJoin(s, es, Final(s, es), [Sweep(0, true, None)]);
    es := es + [Sweep(0, true, None)];
    ClashErases(Final(s, es));
    FreeJoin(s, es, Final(s, es), [DeleteCopy(0, Acknowledged, None)]);
  }

  /** Both ends in either order. */
  lemma ClashEnds(s: State)
    requires Clashing(s, 1, Sweeping(1), OLD.chunks, map[])
    ensures IsFree(s, [Commit(0), EndDelete(0)]) && "f" !in Final(s, [Commit(0), EndDelete(0)]).meta
    ensures IsFree(s, [EndDelete(0), Commit(0)])
    ensures var t := Final(s, [EndDelete(0), Commit(0)]); "f" in t.meta && t.meta["f"] == OLD && t.disks == [map[]]
  {
    OldCopies();
    TwoFree(s, Commit(0), EndDelete(0));
    TwoFree(s, EndDelete(0), Commit(0));
  }

  /** Upload and deletion both reply OK, and the uploaded file is not listed. */
  lemma ClashLosesEntry()
    ensures StartUp(Before()) && IsFree(Before(), Clash() + [Commit(0), EndDelete(0)])
    ensures "f" !in Final(Before(), Clash() + [Commit(0), EndDelete(0)]).meta
  {
    hide IsFree, Final, Clashing;
    BeforeIsStartUp();
    ClashRuns();
    ClashEnds(Final(Before(), Clash()));
    FreeJoin(Before(), Clash(), Final(Before(), Clash()), [Commit(0), EndDelete(0)]);
  }

  /** Upload and deletion both reply OK, and the uploaded file is listed but on no node. */
  lemma ClashLosesCopies()
    ensures StartUp(Before()) && IsFree(Before(), Clash() + [EndDelete(0), Commit(0)])
    ensures var t := Final(Before(), Clash() + [EndDelete(0), Commit(0)]);
            "f" in t.meta && t.meta["f"] == OLD && t.disks == [map[]]
  {
    hide IsFree, Final, Clashing;
    BeforeIsStartUp();
    ClashRuns();
    ClashEnds(Final(Before(), Clash()));
    FreeJoin(Before(), Clash(), Final(Before(), Clash()), [EndDelete(0), Commit(0)]);
  }
}
