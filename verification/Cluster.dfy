/** The coordinator and its nodes as a state machine. Each event is what one lock block of the
    server does, or what one node does for it; operations of any number of clients interleave. */
module Cluster {
  import opened Wrappers
  import opened ChunkNames
  import opened Chunking
  import opened Load

  /** NUM_NODES, NUM_REDUNDANCIES and CHUNK_SIZE. */
  datatype Config = Config(nodes: nat, replicas: nat, chunk: nat)

  datatype ChunkMeta = ChunkMeta(index: nat, size: nat, ids: seq<nat>)

  datatype FileMeta = FileMeta(total: nat, chunks: seq<ChunkMeta>)

  type Disks = seq<map<string, string>>

  /** Where an upload is in handle_upload. Storing: bytes reserved, replies still coming in. */
  datatype Phase =
    | Admitted
    | Receiving
    | Selected(chosen: seq<nat>)
    | Storing(chosen: seq<nat>, answers: map<nat, bool>)
    | Aborting
    | Sweeping(pos: nat)

  // The operations in flight. `content`, `exact`, a deletion's `failed`, `missed`, `stamp` and `clean` only record
  // history; everything else is a local variable of the handler.

  datatype Upload = Upload(name: string, content: string, prior: Option<FileMeta>, phase: Phase,
                           fds: set<nat>, chunks: seq<ChunkMeta>, reduced: bool, failed: set<nat>, exact: bool)

  datatype Deletion = Deletion(name: string, meta: FileMeta, pos: nat, removed: seq<Copy>,
                               failed: seq<Copy>, missed: set<nat>, exact: bool)

  datatype Download = Download(name: string, meta: FileMeta, content: string, stamp: nat, clean: bool,
                               chunk: nat, replica: nat, complete: bool, emitted: string)

  /** The server's globals, the nodes' disks and the operations in flight. The last four fields
      are history: the content last uploaded under a name, the names whose chunks may have been
      changed since, how far node_bytes has drifted, and a count of changes per name. */
  datatype State = State(
    cfg: Config,
    meta: map<string, FileMeta>,
    pending: set<string>,
    load: Load,
    dead: set<nat>,
    disks: Disks,
    uploads: map<nat, Upload>,
    deletions: map<nat, Deletion>,
    downloads: map<nat, Download>,
    contents: map<string, string>,
    tainted: set<string>,
    drift: seq<int>,
    stamps: map<string, nat>)

  datatype DeleteReply = SkippedDead | Unreachable | Refused | Acknowledged

  datatype RetrieveReply = NodeDead | NoConnection | NoReply | Missing | CutShort | Delivered

  datatype Event =
    | Admit(op: nat, name: string, content: string)
    | Connect(op: nat, unreachable: set<nat>)
    | ClientLost(op: nat)
    | Select(op: nat, chosen: seq<nat>)
    | Reserve(op: nat)
    | StoreReply(op: nat, node: nat, acked: bool, effect: Option<string>)
    | Settle(op: nat)
    | Abort(op: nat)
    | Sweep(op: nat, acked: bool, effect: Option<string>)
    | Commit(op: nat)
    | BeginDelete(op: nat, name: string)
    | DeleteCopy(op: nat, outcome: DeleteReply, effect: Option<string>)
    | EndDelete(op: nat)
    | BeginDownload(op: nat, name: string)
    | Retrieve(op: nat, got: RetrieveReply)
    | EndDownload(op: nat)
    | Revive(node: nat, total: int)
    | Kill(node: nat)

  // ----------------------------------------------------------------------- small pieces

  function CopiesOf(c: ChunkMeta): (r: seq<Copy>)
    ensures |r| == |c.ids| && forall k :: 0 <= k < |r| ==> r[k] == Copy(c.index, c.size, c.ids[k])
    ensures forall x :: x in r ==> x.index == c.index && x.size == c.size && x.node in c.ids
  {
    seq(|c.ids|, k requires 0 <= k < |c.ids| => Copy(c.index, c.size, c.ids[k]))
  }

  /** The copies a loop over chunks and their redundancy_ids visits, in order. */
  function Flatten(chunks: seq<ChunkMeta>): seq<Copy> {
    if chunks == [] then [] else Flatten(chunks[..|chunks| - 1]) + CopiesOf(chunks[|chunks| - 1])
  }

  /** A node changes one of its chunk files; None removes it. */
  function Touch(disks: Disks, node: nat, name: string, effect: Option<string>): Disks
    requires node < |disks|
  {
    disks[node := if effect.Some? then disks[node][name := effect.value] else disks[node] - {name}]
  }

  predicate OnDisk(disks: Disks, node: nat, name: string) {
    node < |disks| && name in disks[node]
  }

  predicate Stored(disks: Disks, node: nat, name: string, bytes: string) {
    OnDisk(disks, node, name) && disks[node][name] == bytes
  }

  function Stamp(stamps: map<string, nat>, name: string): nat {
    if name in stamps then stamps[name] else 0
  }

  function Bumped(stamps: map<string, nat>, name: string): map<string, nat> {
    stamps[name := Stamp(stamps, name) + 1]
  }

  /** The bytes of the chunk an upload is working on. */
  function Piece(u: Upload, cfg: Config): string {
    Slice(u.content, cfg.chunk, |u.chunks|)
  }

  /** That chunk with the nodes given. */
  function Current(u: Upload, cfg: Config, ids: seq<nat>): ChunkMeta {
    ChunkMeta(|u.chunks|, |Piece(u, cfg)|, ids)
  }

  function Answered(chosen: seq<nat>, answers: map<nat, bool>, good: bool): seq<nat>
    requires forall i :: i in chosen ==> i in answers
  {
    if chosen == [] then [] else
      (if answers[chosen[0]] == good then [chosen[0]] else []) + Answered(chosen[1..], answers, good)
  }

  function ToSet(ids: seq<nat>): set<nat> {
    set i | i in ids
  }

  /** The copies of the metadata an upload replaces. */
  function PriorCopies(u: Upload): seq<Copy> {
    if u.prior.Some? then Flatten(u.prior.value.chunks) else []
  }

  predicate Holds(copies: seq<Copy>, index: nat, node: nat) {
    exists c :: c in copies && c.index == index && c.node == node
  }

  /** The check at the start of handle_download. */
  predicate Contiguous(chunks: seq<ChunkMeta>) {
    forall k :: 0 <= k < |chunks| ==> chunks[k].index == k && chunks[k].ids != []
  }

  /** Every chunk file of f that exists anywhere is one of these copies. */
  ghost predicate NoOrphans(disks: Disks, f: string, copies: seq<Copy>) {
    forall k: nat, i: nat :: OnDisk(disks, i, ChunkName(f, k)) ==> Holds(copies, k, i)
  }

  // ----------------------------------------------------------------------------- guards

  ghost predicate NoWriter(s: State, f: string) {
    && (forall o :: o in s.uploads ==> s.uploads[o].name != f)
    && (forall o :: o in s.deletions ==> s.deletions[o].name != f)
  }

  ghost predicate Enabled(s: State, e: Event) {
    match e
    case Admit(op, name, content) => op !in s.uploads && content != "" && name !in s.pending && NoWriter(s, name)
    case Connect(op, unreachable) => op in s.uploads && s.uploads[op].phase.Admitted?
    case ClientLost(op) => op in s.uploads && s.uploads[op].phase.Receiving?
    case Select(op, chosen) =>
      && op in s.uploads && s.uploads[op].phase.Receiving?
      && LeastLoaded(s.load.bytes, s.uploads[op].fds - s.dead, s.cfg.replicas, chosen)
    case Reserve(op) => op in s.uploads && s.uploads[op].phase.Selected?
    case StoreReply(op, node, acked, effect) =>
      && op in s.uploads && s.uploads[op].phase.Storing?
      && node in s.uploads[op].phase.chosen && node !in s.uploads[op].phase.answers
    case Settle(op) => op in s.uploads && AllAnswered(s.uploads[op].phase)
    case Abort(op) => op in s.uploads && s.uploads[op].phase.Aborting?
    case Sweep(op, acked, effect) =>
      op in s.uploads && s.uploads[op].phase.Sweeping? && s.uploads[op].phase.pos < |PriorCopies(s.uploads[op])|
    case Commit(op) =>
      op in s.uploads && s.uploads[op].phase.Sweeping? && s.uploads[op].phase.pos == |PriorCopies(s.uploads[op])|
    case BeginDelete(op, name) => op !in s.deletions && name in s.meta && NoWriter(s, name)
    case DeleteCopy(op, outcome, effect) =>
      && op in s.deletions && s.deletions[op].pos < |Flatten(s.deletions[op].meta.chunks)|
      && (outcome.SkippedDead? ==> Flatten(s.deletions[op].meta.chunks)[s.deletions[op].pos].node in s.dead)
    case EndDelete(op) => op in s.deletions && s.deletions[op].pos == |Flatten(s.deletions[op].meta.chunks)|
    case BeginDownload(op, name) => op !in s.downloads && name in s.meta && Contiguous(s.meta[name].chunks)
    case Retrieve(op, got) => op in s.downloads && CanRetrieve(s, s.downloads[op], got)
    case EndDownload(op) => op in s.downloads && s.downloads[op].chunk == |s.downloads[op].meta.chunks|
    case Revive(node, total) => node < s.cfg.nodes
    case Kill(node) => node < s.cfg.nodes
  }

  predicate AllAnswered(p: Phase) {
    p.Storing? && forall i :: i in p.chosen ==> i in p.answers
  }

  predicate CanRetrieve(s: State, d: Download, got: RetrieveReply) {
    && d.chunk < |d.meta.chunks| && d.replica < |d.meta.chunks[d.chunk].ids|
    && var node := d.meta.chunks[d.chunk].ids[d.replica];
       && (got.NodeDead? ==> node in s.dead)
       && (got.Delivered? ==> OnDisk(s.disks, node, ChunkName(d.name, d.meta.chunks[d.chunk].index)))
  }

  // ------------------------------------------------------------------------------ shape

  ghost predicate MetaShaped(meta: map<string, FileMeta>, cfg: Config) {
    forall f :: f in meta ==> InRange(Flatten(meta[f].chunks), cfg.nodes)
  }

  ghost predicate UploadsShaped(uploads: map<nat, Upload>, cfg: Config) {
    forall o :: o in uploads ==> UploadShaped(uploads[o], cfg)
  }

  ghost predicate DeletionsShaped(deletions: map<nat, Deletion>, cfg: Config) {
    forall o :: o in deletions ==> DeletionShaped(deletions[o], cfg)
  }

  ghost predicate DownloadsShaped(downloads: map<nat, Download>, cfg: Config) {
    forall o :: o in downloads ==> DownloadShaped(downloads[o], cfg)
  }

  /** What every event needs in order to be defined. */
  ghost predicate Shaped(s: State) {
    && s.cfg.nodes > 0 && s.cfg.replicas > 0 && s.cfg.chunk > 0
    && |s.load.bytes| == s.cfg.nodes && |s.disks| == s.cfg.nodes && |s.drift| == s.cfg.nodes
    && MetaShaped(s.meta, s.cfg) && UploadsShaped(s.uploads, s.cfg)
    && DeletionsShaped(s.deletions, s.cfg) && DownloadsShaped(s.downloads, s.cfg)
  }

  ghost predicate ChosenShaped(chosen: seq<nat>, cfg: Config) {
    && chosen != [] && Distinct(chosen) && |chosen| <= cfg.replicas
    && forall i :: i in chosen ==> i < cfg.nodes
  }

  ghost predicate UploadShaped(u: Upload, cfg: Config) {
    && u.content != ""
    && InRange(PriorCopies(u), cfg.nodes) && InRange(Flatten(u.chunks), cfg.nodes)
    && (u.phase.Selected? || u.phase.Storing? ==> ChosenShaped(u.phase.chosen, cfg))
    && (u.phase.Sweeping? ==> u.phase.pos <= |PriorCopies(u)|)
  }

  ghost predicate DeletionShaped(d: Deletion, cfg: Config) {
    && InRange(Flatten(d.meta.chunks), cfg.nodes) && d.pos <= |Flatten(d.meta.chunks)|
    && InRange(d.removed, cfg.nodes)
  }

  ghost predicate DownloadShaped(d: Download, cfg: Config) {
    && InRange(Flatten(d.meta.chunks), cfg.nodes)
    && Contiguous(d.meta.chunks) && d.chunk <= |d.meta.chunks|
    && (d.chunk < |d.meta.chunks| ==> d.replica < |d.meta.chunks[d.chunk].ids|)
  }

  // ---------------------------------------------------------------------------- effects

  function WithUpload(s: State, op: nat, u: Upload): State {
    s.(uploads := s.uploads[op := u])
  }

  function WithDeletion(s: State, op: nat, d: Deletion): State {
    s.(deletions := s.deletions[op := d])
  }

  ghost function DoAdmit(s: State, op: nat, name: string, content: string): State {
    var prior := if name in s.meta then Some(s.meta[name]) else None;
    var listed := if prior.Some? then Flatten(prior.value.chunks) else [];
    var u := Upload(name, content, prior, Admitted, {}, [], false, {}, NoOrphans(s.disks, name, listed));
    WithUpload(s, op, u).(pending := s.pending + {name})
  }

  /** The nodes in the index that are not dead. */
  function Tried(s: State): set<nat> {
    set e | e in s.load.heap && e.1 !in s.dead :: e.1
  }

  /** Connections to all of them; those that fail are dead from now on. */
  function DoConnect(s: State, op: nat, unreachable: set<nat>): State
    requires op in s.uploads
  {
    var fds := Tried(s) - unreachable;
    var u := s.uploads[op].(fds := fds, phase := if fds == {} then Aborting else Receiving);
    WithUpload(s, op, u).(dead := s.dead + Tried(s) * unreachable)
  }

  function DoSelect(s: State, op: nat, chosen: seq<nat>): State
    requires op in s.uploads
  {
    WithUpload(s, op, s.uploads[op].(phase := if chosen == [] then Aborting else Selected(chosen)))
  }

  ghost function DoReserve(s: State, op: nat): State
    requires Shaped(s) && Enabled(s, Reserve(op))
  {
    var u := s.uploads[op];
    WithUpload(s, op, u.(phase := Storing(u.phase.chosen, map[]))).(
      load := Adjust(s.load, CopiesOf(Current(u, s.cfg, u.phase.chosen)), 1))
  }

  /** An acknowledged store leaves the whole chunk on disk; any other may leave anything under
      that one name. A store on a committed name taints it. */
  ghost function DoStoreReply(s: State, op: nat, node: nat, acked: bool, effect: Option<string>): State
    requires Shaped(s) && Enabled(s, StoreReply(op, node, acked, effect))
  {
    var u := s.uploads[op];
    var phase := Storing(u.phase.chosen, u.phase.answers[node := acked]);
    WithUpload(s, op, u.(phase := phase, exact := u.exact && acked)).(
      disks := Touch(s.disks, node, ChunkName(u.name, |u.chunks|), if acked then Some(Piece(u, s.cfg)) else effect),
      tainted := if u.name in s.meta then s.tainted + {u.name} else s.tainted,
      stamps := Bumped(s.stamps, u.name))
  }

  /** The upload after the replies to one chunk: good replicas are recorded, bad ones dropped. */
  function SettledUpload(u: Upload, cfg: Config, good: seq<nat>, bad: seq<nat>): Upload {
    var chunks := if good == [] then u.chunks else u.chunks + [Current(u, cfg, good)];
    u.(fds := u.fds - ToSet(bad),
       chunks := chunks,
       reduced := u.reduced || 0 < |good| < cfg.replicas,
       failed := u.failed + ToSet(bad),
       phase := if good == [] then Aborting
                else if Offset(|u.content|, cfg.chunk, |chunks|) < |u.content| then Receiving
                else Sweeping(0))
  }

  ghost function DoSettle(s: State, op: nat): State
    requires Shaped(s) && Enabled(s, Settle(op))
  {
    var u := s.uploads[op];
    var good := Answered(u.phase.chosen, u.phase.answers, true);
    var bad := Answered(u.phase.chosen, u.phase.answers, false);
    AnsweredFacts(u.phase.chosen, u.phase.answers, false);
    WithUpload(s, op, SettledUpload(u, s.cfg, good, bad)).(
      load := Adjust(s.load, CopiesOf(Current(u, s.cfg, bad)), -1),
      dead := s.dead + ToSet(bad))
  }

  ghost function DoAbort(s: State, op: nat): State
    requires Shaped(s) && op in s.uploads
  {
    var u := s.uploads[op];
    s.(uploads := s.uploads - {op},
       load := Adjust(s.load, Flatten(u.chunks), -1),
       pending := s.pending - {u.name})
  }

  /** Whether the new placement also holds this copy, so that the sweep must keep it. */
  predicate Kept(u: Upload, c: Copy) {
    Holds(Flatten(u.chunks), c.index, c.node)
  }

  function SweptUpload(u: Upload, c: Copy, acked: bool): Upload
    requires u.phase.Sweeping?
  {
    u.(phase := Sweeping(u.phase.pos + 1), exact := u.exact && (Kept(u, c) || acked))
  }

  /** One copy of an overwritten file. */
  ghost function DoSweep(s: State, op: nat, acked: bool, effect: Option<string>): State
    requires Shaped(s) && Enabled(s, Sweep(op, acked, effect))
  {
    var u := s.uploads[op];
    var c := PriorCopies(u)[u.phase.pos];
    var gone := Touch(s.disks, c.node, ChunkName(u.name, c.index), if acked then None else effect);
    WithUpload(s, op, SweptUpload(u, c, acked)).(
      disks := if Kept(u, c) then s.disks else gone,
      stamps := Bumped(s.stamps, u.name))
  }

  ghost function DoCommit(s: State, op: nat): State
    requires Shaped(s) && op in s.uploads
  {
    var u := s.uploads[op];
    s.(uploads := s.uploads - {op},
       load := Adjust(s.load, PriorCopies(u), -1),
       meta := s.meta[u.name := FileMeta(|u.content|, u.chunks)],
       pending := s.pending - {u.name},
       contents := s.contents[u.name := u.content],
       tainted := s.tainted - {u.name},
       stamps := Bumped(s.stamps, u.name))
  }

  ghost function DoBeginDelete(s: State, op: nat, name: string): State
    requires name in s.meta
  {
    var meta := s.meta[name];
    WithDeletion(s, op, Deletion(name, meta, 0, [], [], {}, NoOrphans(s.disks, name, Flatten(meta.chunks)))).(
      tainted := s.tainted + {name},
      stamps := Bumped(s.stamps, name))
  }

  function NextDeletion(d: Deletion, c: Copy, outcome: DeleteReply): Deletion {
    d.(pos := d.pos + 1,
       removed := if outcome.Acknowledged? then d.removed + [c] else d.removed,
       failed := if outcome.Acknowledged? then d.failed else d.failed + [c],
       missed := if outcome.Acknowledged? then d.missed else d.missed + {c.node})
  }

  /** One copy of a file being deleted. Only an acknowledged deletion releases its bytes; any
      other leaves the node dead, and a refused one may have changed the chunk file. */
  ghost function DoDeleteCopy(s: State, op: nat, outcome: DeleteReply, effect: Option<string>): State
    requires Shaped(s) && Enabled(s, DeleteCopy(op, outcome, effect))
  {
    var d := s.deletions[op];
    var c := Flatten(d.meta.chunks)[d.pos];
    var asked := outcome.Refused? || outcome.Acknowledged?;
    var after := Touch(s.disks, c.node, ChunkName(d.name, c.index), if outcome.Acknowledged? then None else effect);
    WithDeletion(s, op, NextDeletion(d, c, outcome)).(
      load := if outcome.Acknowledged? then Adjust(s.load, [c], -1) else s.load,
      disks := if asked then after else s.disks,
      dead := if outcome.Acknowledged? then s.dead else s.dead + {c.node})
  }

  ghost function DoEndDelete(s: State, op: nat): State
    requires Shaped(s) && op in s.deletions
  {
    var d := s.deletions[op];
    var copies := Flatten(d.meta.chunks);
    s.(deletions := s.deletions - {op},
       meta := s.meta - {d.name},
       contents := s.contents - {d.name},
       tainted := s.tainted - {d.name},
       drift := seq(s.cfg.nodes, i requires 0 <= i < s.cfg.nodes =>
                      s.drift[i] + BytesOn(copies, i) - BytesOn(d.removed, i)),
       stamps := Bumped(s.stamps, d.name))
  }

  function DoBeginDownload(s: State, op: nat, name: string): State
    requires name in s.meta
  {
    var content := if name in s.contents then s.contents[name] else "";
    var d := Download(name, s.meta[name], content, Stamp(s.stamps, name),
                      name in s.contents && name !in s.tainted, 0, 0, true, "");
    s.(downloads := s.downloads[op := d])
  }

  function NextRetrieval(s: State, d: Download, got: RetrieveReply): Download
    requires CanRetrieve(s, d, got)
  {
    var c := d.meta.chunks[d.chunk];
    var next := d.(chunk := d.chunk + 1, replica := 0);
    if got.Delivered? then next.(emitted := d.emitted + s.disks[c.ids[d.replica]][ChunkName(d.name, c.index)])
    else if d.replica + 1 < |c.ids| then d.(replica := d.replica + 1)
    else next.(complete := false)
  }

  function DoRetrieve(s: State, op: nat, got: RetrieveReply): State
    requires op in s.downloads && CanRetrieve(s, s.downloads[op], got)
  {
    var d := s.downloads[op];
    var node := d.meta.chunks[d.chunk].ids[d.replica];
    s.(downloads := s.downloads[op := NextRetrieval(s, d, got)],
       dead := if got.NoConnection? || got.NoReply? then s.dead + {node} else s.dead)
  }

  /** health_check_loop: the node's own total replaces node_bytes. */
  function DoRevive(s: State, node: nat, total: int): State
    requires node < |s.load.bytes| && node < |s.drift|
  {
    s.(load := Bump(s.load, node, total - s.load.bytes[node]),
       dead := s.dead - {node},
       drift := s.drift[node := s.drift[node] + total - s.load.bytes[node]])
  }

  function DoKill(s: State, node: nat): State
    requires node < |s.load.bytes|
  {
    s.(load := s.load.(heap := s.load.heap - {(s.load.bytes[node], node)}),
       dead := s.dead + {node})
  }

  predicate OfUpload(e: Event) {
    || e.Admit? || e.Connect? || e.ClientLost? || e.Select? || e.Reserve?
    || e.StoreReply? || e.Settle? || e.Abort? || e.Sweep? || e.Commit?
  }

  ghost function ApplyUpload(s: State, e: Event): State
    requires Shaped(s) && Enabled(s, e) && OfUpload(e)
  {
    match e
    case Admit(op, name, content) => DoAdmit(s, op, name, content)
    case Connect(op, unreachable) => DoConnect(s, op, unreachable)
    case ClientLost(op) => WithUpload(s, op, s.uploads[op].(phase := Aborting))
    case Select(op, chosen) => DoSelect(s, op, chosen)
    case Reserve(op) => DoReserve(s, op)
    case StoreReply(op, node, acked, effect) => DoStoreReply(s, op, node, acked, effect)
    case Settle(op) => DoSettle(s, op)
    case Abort(op) => DoAbort(s, op)
    case Sweep(op, acked, effect) => DoSweep(s, op, acked, effect)
    case Commit(op) => DoCommit(s, op)
  }

  ghost function Apply(s: State, e: Event): State
    requires Shaped(s) && Enabled(s, e)
  {
    if OfUpload(e) then ApplyUpload(s, e) else
    match e
    case BeginDelete(op, name) => DoBeginDelete(s, op, name)
    case DeleteCopy(op, outcome, effect) => DoDeleteCopy(s, op, outcome, effect)
    case EndDelete(op) => DoEndDelete(s, op)
    case BeginDownload(op, name) => DoBeginDownload(s, op, name)
    case Retrieve(op, got) => DoRetrieve(s, op, got)
    case EndDownload(op) => s.(downloads := s.downloads - {op})
    case Revive(node, total) => DoRevive(s, node, total)
    case Kill(node) => DoKill(s, node)
  }

  lemma {:induction false} AnsweredFacts(chosen: seq<nat>, answers: map<nat, bool>, good: bool)
    requires forall i :: i in chosen ==> i in answers
    ensures forall i :: i in Answered(chosen, answers, good) <==> i in chosen && answers[i] == good
    ensures Distinct(chosen) ==> Distinct(Answered(chosen, answers, good))
    ensures |Answered(chosen, answers, good)| <= |chosen|
    decreases |chosen|
  {
    if chosen != [] {
      AnsweredFacts(chosen[1..], answers, good);
      assert Distinct(chosen) ==> chosen[0] !in chosen[1..];
    }
  }

  /** The order of the chosen nodes is kept. */
  lemma {:induction false} AnsweredInOrder(a: seq<nat>, b: seq<nat>, answers: map<nat, bool>, good: bool)
    requires (forall i :: i in a ==> i in answers) && forall i :: i in b ==> i in answers
    ensures Answered(a + b, answers, good) == Answered(a, answers, good) + Answered(b, answers, good)
    decreases |a|
  {
    if a == [] {
      assert a + b == b;
    } else {
      assert (a + b)[0] == a[0] && (a + b)[1..] == a[1..] + b;
      AnsweredInOrder(a[1..], b, answers, good);
      AnsweredFirst(a, answers, good);
      AnsweredFirst(a + b, answers, good);
    }
  }

  lemma AnsweredFirst(a: seq<nat>, answers: map<nat, bool>, good: bool)
    requires a != [] && forall i :: i in a ==> i in answers
    ensures Answered(a, answers, good)
            == (if answers[a[0]] == good then [a[0]] else []) + Answered(a[1..], answers, good)
  {
  }
}
