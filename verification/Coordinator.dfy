/** The coordinator as the program it is: the globals of the server, the blocks that hold the
    metadata lock, and the handlers built from them. Each block is proved to be one event of the
    state machine in module Cluster, so handlers of any number of clients, interleaved at their
    blocks, are runs of that machine. */
module Coordinator {
  import opened Wrappers
  import opened ChunkNames
  import opened Load
  import opened Cluster
  import opened Invariants
  import opened Steps
  import opened NodeLoads

  /** What a node makes of a request: it acknowledges, or it does not and anything may have
      become of the one chunk file. */
  datatype Answer = Answer(acked: bool, effect: Option<string>)

  class Server {
    const cfg: Config
    const index: LoadIndex
    var fileMetadata: map<string, FileMeta>
    var pendingUploads: set<string>
    var deadNodes: set<nat>
    var disks: Disks         // what the nodes hold, changed only by requests to them
    ghost var model: State

    ghost predicate Valid()
      reads this, index, index.nodeBytes
    {
      && Sound(model) && model.cfg == cfg && model.meta == fileMetadata && model.pending == pendingUploads
      && model.load == index.View() && model.dead == deadNodes && model.disks == disks
    }

    /** The globals before the start-up rebuild. */
    constructor (cfg: Config, disks: Disks)
      ensures this.cfg == cfg && this.disks == disks && fresh(index) && fresh(index.nodeBytes)
      ensures index.nodeBytes.Length == cfg.nodes && fileMetadata == map[] && pendingUploads == {} && deadNodes == {}
    {
      this.cfg, this.disks := cfg, disks;
      index := new LoadIndex(cfg.nodes);
      fileMetadata, pendingUploads, deadNodes := map[], {}, {};
    }

    // ----------------------------------------------------------- blocks of handle_upload

    method AdmitUpload(ghost op: nat, name: string, ghost content: string)
      returns (admitted: bool, prior: Option<FileMeta>)
      requires Valid() && PendingExact(model.pending, model.uploads) && op !in model.uploads && content != ""
      requires forall o :: o in model.deletions ==> model.deletions[o].name != name
      modifies this
      ensures Valid() && admitted == (name !in old(pendingUploads))
      ensures !admitted ==> model == old(model)
      ensures admitted ==> Follows(old(model), Admit(op, name, content), model) && prior == model.uploads[op].prior
    {
      prior := None;
      if name in pendingUploads {
        return false, prior;
      }
      if name in fileMetadata {
        prior := Some(fileMetadata[name]);
      }
      pendingUploads := pendingUploads + {name};
      SoundKept(model, Admit(op, name, content));
      model := Apply(model, Admit(op, name, content));
      admitted := true;
    }

    /** A connection to every live node; the ones that fail are dead from now on. */
    method ConnectLive(unreachable: set<nat>) returns (fds: set<nat>)
      requires forall e :: e in index.minHeap ==> e.1 < |index.View().bytes| && e.0 == index.View().bytes[e.1]
      modifies this`deadNodes
      ensures fds == (set e | e in index.minHeap && e.1 !in old(deadNodes) :: e.1) - unreachable
      ensures deadNodes == old(deadNodes) + (set e | e in index.minHeap && e.1 !in old(deadNodes) :: e.1) * unreachable
    {
      ghost var heap, dead, bytes := index.minHeap, deadNodes, index.View().bytes;
      fds := {};
      var todo := index.minHeap;
      while todo != {}
        invariant todo <= heap
        invariant forall i :: i in fds <==> Asked(bytes, heap, todo, dead, i) && i !in unreachable
        invariant forall i :: i in deadNodes <==> i in dead || (Asked(bytes, heap, todo, dead, i) && i in unreachable)
        decreases |todo|
      {
        ghost var first := FirstExists(todo);
        assert IsFirst(todo, first);
        var e: (int, nat) :| e in todo && forall f :: f in todo ==> f == e || Before(e, f);
        assert e.1 < |bytes| && e.0 == bytes[e.1];
        todo := todo - {e};
        if e.1 in deadNodes {
          continue;
        }
        if e.1 in unreachable {
          deadNodes := deadNodes + {e.1};
        } else {
          fds := fds + {e.1};
        }
      }
      forall i | i in set e | e in heap && e.1 !in dead :: e.1 ensures Asked(bytes, heap, {}, dead, i) {
        var e :| e in heap && e.1 !in dead && e.1 == i;
        assert e == (bytes[i], i);
      }
    }

    /** The nodes whose entries have been passed and that were not dead. */
    static ghost predicate Asked(bytes: seq<int>, heap: set<(int, nat)>, todo: set<(int, nat)>, dead: set<nat>,
                                 i: nat) {
      i < |bytes| && (bytes[i], i) in heap && (bytes[i], i) !in todo && i !in dead
    }

    method ConnectAll(ghost op: nat, unreachable: set<nat>) returns (fds: set<nat>)
      requires Valid() && Enabled(model, Connect(op, unreachable))
      modifies this
      ensures Valid() && Follows(old(model), Connect(op, unreachable), model) && fds == model.uploads[op].fds
    {
      fds := ConnectLive(unreachable);
      SoundKept(model, Connect(op, unreachable));
      model := Apply(model, Connect(op, unreachable));
    }

    method SelectNodes(ghost op: nat, fds: set<nat>) returns (chosen: seq<nat>)
      requires Valid() && op in model.uploads && model.uploads[op].phase.Receiving? && model.uploads[op].fds == fds
      requires forall i :: i in fds ==> i < cfg.nodes
      modifies this`model
      ensures Valid() && Follows(old(model), Select(op, chosen), model)
      ensures LeastLoaded(index.nodeBytes[..], fds - deadNodes, cfg.replicas, chosen)
    {
      chosen := index.SelectNodes(fds, deadNodes, cfg.replicas);
      SoundKept(model, Select(op, chosen));
      model := Apply(model, Select(op, chosen));
    }

    method ReserveBytes(ghost op: nat, chunk: ChunkMeta)
      requires Valid() && Enabled(model, Reserve(op))
      requires chunk == Current(model.uploads[op], cfg, model.uploads[op].phase.chosen)
      modifies this`model, index, index.nodeBytes
      ensures Valid() && Follows(old(model), Reserve(op), model)
    {
      SoundKept(model, Reserve(op));
      model := Apply(model, Reserve(op));
      index.AdjustChunk(chunk, 1);
    }

    /** One worker thread: the store request, its payload, and the node's reply. */
    method StoreReplica(ghost op: nat, chunkName: string, piece: string, node: nat, answer: Answer)
      requires Valid() && Enabled(model, StoreReply(op, node, answer.acked, answer.effect)) && node < |disks|
      requires chunkName == ChunkName(model.uploads[op].name, |model.uploads[op].chunks|)
      requires piece == Piece(model.uploads[op], cfg)
      modifies this`model, this`disks
      ensures Valid() && Follows(old(model), StoreReply(op, node, answer.acked, answer.effect), model)
      ensures var u, v := old(model).uploads[op], model.uploads[op];
              v == u.(phase := Storing(u.phase.chosen, u.phase.answers[node := answer.acked]),
                      exact := u.exact && answer.acked)
    {
      hide Shaped, IndexAgrees;
      SoundKept(model, StoreReply(op, node, answer.acked, answer.effect));
      model := Apply(model, StoreReply(op, node, answer.acked, answer.effect));
      disks := Touch(disks, node, chunkName, if answer.acked then Some(piece) else answer.effect);
    }

    /** The block after the workers have joined: failed replicas give their bytes back, are dead
        and lose their connection. */
    method SettleChunk(ghost op: nat, chosen: seq<nat>, answers: map<nat, bool>, chunk: ChunkMeta, fds: set<nat>)
      returns (committed: seq<nat>, left: set<nat>)
      requires Valid() && Enabled(model, Settle(op))
      requires model.uploads[op].phase == Storing(chosen, answers) && model.uploads[op].fds == fds
      requires chunk == Current(model.uploads[op], cfg, chunk.ids)
      modifies this`model, this`deadNodes, index, index.nodeBytes
      ensures Valid() && Follows(old(model), Settle(op), model)
      ensures left == fds - ToSet(Answered(chosen, answers, false)) && committed == Answered(chosen, answers, true)
    {
      hide Shaped, IndexAgrees, Known, Adjust, Answered, Enabled;
      SettlesAs(model, op);
      SoundKept(model, Settle(op));
      committed, left := DropFailed(chosen, answers, chunk, fds);
      model := Apply(model, Settle(op));
    }

    static lemma SettlesAs(s: State, op: nat)
      requires Shaped(s) && Enabled(s, Settle(op))
      ensures op in s.uploads && s.uploads[op].phase.Storing? && |s.load.bytes| == s.cfg.nodes
      ensures forall i :: i in s.uploads[op].phase.chosen ==> i in s.uploads[op].phase.answers && i < s.cfg.nodes
      ensures var u, t := s.uploads[op], DoSettle(s, op);
              var bad := Answered(u.phase.chosen, u.phase.answers, false);
              && InRange(CopiesOf(Current(u, s.cfg, bad)), |s.load.bytes|)
              && t.load == Adjust(s.load, CopiesOf(Current(u, s.cfg, bad)), -1) && t.dead == s.dead + ToSet(bad)
              && t.cfg == s.cfg && t.meta == s.meta && t.pending == s.pending && t.disks == s.disks
    {
      var u := s.uploads[op];
      assert UploadShaped(u, s.cfg);
      AnsweredFacts(u.phase.chosen, u.phase.answers, false);
    }

    method DropFailed(chosen: seq<nat>, answers: map<nat, bool>, chunk: ChunkMeta, fds: set<nat>)
      returns (committed: seq<nat>, left: set<nat>)
      requires (forall i :: i in chosen ==> i in answers) && forall i :: i in chosen ==> i < index.nodeBytes.Length
      modifies this`deadNodes, index, index.nodeBytes
      ensures var bad := Answered(chosen, answers, false);
              && InRange(CopiesOf(chunk.(ids := bad)), index.nodeBytes.Length)
              && committed == Answered(chosen, answers, true)
              && left == fds - ToSet(bad) && deadNodes == old(deadNodes) + ToSet(bad)
              && index.View() == Adjust(old(index.View()), CopiesOf(chunk.(ids := bad)), -1)
    {
      hide Adjust, Split, Answered, IndexAgrees, ToSet;
      committed, left := [], fds;
      ghost var bad: seq<nat> := [];
      NothingSplit(chosen, answers, index.View(), chunk);
      var n := 0;
      while n < |chosen|
        invariant 0 <= n <= |chosen|
        invariant Split(chosen, answers, n, committed, bad)
        invariant left == fds - ToSet(bad) && deadNodes == old(deadNodes) + ToSet(bad)
        invariant InRange(CopiesOf(chunk.(ids := bad)), index.nodeBytes.Length)
        invariant index.View() == Adjust(old(index.View()), CopiesOf(chunk.(ids := bad)), -1)
      {
        var node := chosen[n];
        assert node in chosen;
        SplitStep(chosen, answers, n, committed, bad);
        if answers[node] {
          committed := committed + [node];
        } else {
          index.UpdateNodeSize(node, -1 * chunk.size);
          GivenBack(old(index.View()), chunk, bad, node);
          ToSetTail(bad, node);
          bad := bad + [node];
          deadNodes := deadNodes + {node};
          left := left - {node};
        }
        n := n + 1;
      }
      SplitEnd(chosen, answers, committed, bad);
    }

    static lemma NothingSplit(chosen: seq<nat>, answers: map<nat, bool>, l: Load, chunk: ChunkMeta)
      requires forall i :: i in chosen ==> i in answers
      ensures Split(chosen, answers, 0, [], []) && ToSet([]) == {}
      ensures CopiesOf(chunk.(ids := [])) == [] && Adjust(l, [], -1) == l
    {
    }

    static lemma SplitEnd(chosen: seq<nat>, answers: map<nat, bool>, good: seq<nat>, bad: seq<nat>)
      requires (forall i :: i in chosen ==> i in answers) && Split(chosen, answers, |chosen|, good, bad)
      ensures good == Answered(chosen, answers, true) && bad == Answered(chosen, answers, false)
    {
      assert chosen[|chosen|..] == [];
    }

    /** The first n replies have been sorted into good and bad ones. */
    static ghost predicate Split(chosen: seq<nat>, answers: map<nat, bool>, n: nat, good: seq<nat>, bad: seq<nat>)
      requires n <= |chosen| && forall i :: i in chosen ==> i in answers
    {
      && Answered(chosen, answers, true) == good + Answered(chosen[n..], answers, true)
      && Answered(chosen, answers, false) == bad + Answered(chosen[n..], answers, false)
    }

    static lemma SplitStep(chosen: seq<nat>, answers: map<nat, bool>, n: nat, good: seq<nat>, bad: seq<nat>)
      requires n < |chosen| && (forall i :: i in chosen ==> i in answers) && Split(chosen, answers, n, good, bad)
      ensures if answers[chosen[n]] then Split(chosen, answers, n + 1, good + [chosen[n]], bad)
              else Split(chosen, answers, n + 1, good, bad + [chosen[n]])
    {
      assert chosen[n..][0] == chosen[n] && chosen[n..][1..] == chosen[n + 1..];
    }

    static lemma ToSetTail(ids: seq<nat>, node: nat)
      ensures ToSet(ids + [node]) == ToSet(ids) + {node}
    {
    }

    static lemma CopiesTail(c: ChunkMeta, ids: seq<nat>, node: nat)
      ensures CopiesOf(c.(ids := ids + [node])) == CopiesOf(c.(ids := ids)) + [Copy(c.index, c.size, node)]
    {
    }

    static lemma AdjustOne(l: Load, c: Copy, sign: int)
      requires c.node < |l.bytes|
      ensures Adjust(l, [c], sign) == Bump(l, c.node, sign * c.size)
    {
      assert [c][1..] == [];
    }

    static lemma GivenBack(l: Load, chunk: ChunkMeta, bad: seq<nat>, node: nat)
      requires InRange(CopiesOf(chunk.(ids := bad)), |l.bytes|) && node < |l.bytes|
      ensures InRange(CopiesOf(chunk.(ids := bad + [node])), |l.bytes|)
      ensures Bump(Adjust(l, CopiesOf(chunk.(ids := bad)), -1), node, -1 * chunk.size)
              == Adjust(l, CopiesOf(chunk.(ids := bad + [node])), -1)
    {
      var c := Copy(chunk.index, chunk.size, node);
      CopiesTail(chunk, bad, node);
      AdjustAppend(l, CopiesOf(chunk.(ids := bad)), [c], -1);
      AdjustOne(Adjust(l, CopiesOf(chunk.(ids := bad)), -1), c, -1);
    }

    /** The client's connection has ended; only the history records it. */
    ghost method LoseClient(op: nat)
      requires Valid() && Enabled(model, ClientLost(op))
      modifies this`model
      ensures Valid() && Follows(old(model), ClientLost(op), model)
      ensures model.uploads[op] == old(model).uploads[op].(phase := Aborting)
    {
      SoundKept(model, ClientLost(op));
      model := Apply(model, ClientLost(op));
    }

    /** One copy of the file that is being replaced: kept if the new placement has it too, else
        deleted on its node, if that can be reached. */
    method SweepCopy(ghost op: nat, c: Copy, chunkName: string, kept: bool, reply: Option<Answer>)
      returns (ghost e: Event)
      requires Valid() && op in model.uploads && model.uploads[op].phase.Sweeping?
      requires model.uploads[op].phase.pos < |PriorCopies(model.uploads[op])|
      requires c == PriorCopies(model.uploads[op])[model.uploads[op].phase.pos] && c.node < |disks|
      requires kept == Kept(model.uploads[op], c) && chunkName == ChunkName(model.uploads[op].name, c.index)
      modifies this`model, this`disks
      ensures Valid() && e.Sweep? && e.op == op && Follows(old(model), e, model)
      ensures var u, v := old(model).uploads[op], model.uploads[op];
              v == u.(phase := Sweeping(u.phase.pos + 1), exact := v.exact)
      ensures kept || (reply.Some? && reply.value.acked) ==> model.uploads[op].exact == old(model).uploads[op].exact
      ensures disks == if kept || reply.None? then old(disks)
                       else Touch(old(disks), c.node, chunkName, if reply.value.acked then None else reply.value.effect)
    {
      hide Shaped, IndexAgrees, Kept;
      var node := disks[c.node];
      var left := if chunkName in node then Some(node[chunkName]) else None;
      var acked := reply.Some? && reply.value.acked;
      var effect := if reply.Some? then reply.value.effect else left;
      e := Sweep(op, acked, effect);
      SweptAs(model, op, c, chunkName, acked, effect);
      TouchSame(disks, c.node, chunkName);
      model := DoSweep(model, op, acked, effect);
      if !kept && reply.Some? {
        disks := Touch(disks, c.node, chunkName, if acked then None else effect);
      }
    }

    static lemma SweptAs(s: State, op: nat, c: Copy, chunkName: string, acked: bool, effect: Option<string>)
      requires Sound(s) && Enabled(s, Sweep(op, acked, effect))
      requires c == PriorCopies(s.uploads[op])[s.uploads[op].phase.pos] && c.node < |s.disks|
      requires chunkName == ChunkName(s.uploads[op].name, c.index)
      ensures var u, t := s.uploads[op], DoSweep(s, op, acked, effect);
              && Sound(t) && t.cfg == s.cfg && t.meta == s.meta && t.pending == s.pending
              && t.load == s.load && t.dead == s.dead
              && t.disks == (if Kept(u, c) then s.disks
                             else Touch(s.disks, c.node, chunkName, if acked then None else effect))
              && op in t.uploads && t.uploads[op] == SweptUpload(u, c, acked)
    {
      SweepSound(s, op, acked, effect);
    }

    static lemma TouchSame(disks: Disks, node: nat, name: string)
      requires node < |disks|
      ensures Touch(disks, node, name, if name in disks[node] then Some(disks[node][name]) else None) == disks
    {
      var disk := disks[node];
      var same := if name in disk then disk[name := disk[name]] else disk - {name};
      assert same == disk;
      assert disks[node := disk] == disks;
    }

    /** The last block of an upload that failed. */
    method AbortUpload(ghost op: nat, name: string, chunks: seq<ChunkMeta>)
      requires Valid() && Enabled(model, Abort(op))
      requires model.uploads[op].name == name && model.uploads[op].chunks == chunks
      modifies this`model, this`pendingUploads, index, index.nodeBytes
      ensures Valid() && Follows(old(model), Abort(op), model)
    {
      SoundKept(model, Abort(op));
      model := Apply(model, Abort(op));
      index.AdjustFile(chunks, -1);
      pendingUploads := pendingUploads - {name};
    }

    lemma PriorInRange(s: State, op: nat)
      requires Shaped(s) && op in s.uploads
      ensures |s.load.bytes| == s.cfg.nodes && InRange(PriorCopies(s.uploads[op]), s.cfg.nodes)
    {
    }

    /** The last block of an upload that succeeded. */
    method CommitUpload(ghost op: nat, name: string, prior: Option<FileMeta>, file: FileMeta)
      requires Valid() && Enabled(model, Commit(op))
      requires model.uploads[op].name == name && model.uploads[op].prior == prior
      requires file == FileMeta(|model.uploads[op].content|, model.uploads[op].chunks)
      modifies this, index, index.nodeBytes
      ensures Valid() && Follows(old(model), Commit(op), model) && disks == old(disks)
    {
      hide IndexAgrees, MetaShaped, UploadsShaped, DeletionsShaped, DownloadsShaped, Known, InRange;
      PriorInRange(model, op);
      SoundKept(model, Commit(op));
      model := Apply(model, Commit(op));
      if prior.Some? {
        index.AdjustFile(prior.value.chunks, -1);
      }
      fileMetadata := fileMetadata[name := file];
      pendingUploads := pendingUploads - {name};
    }

    // --------------------------------------------------------- blocks of handle_download

    ghost method BeginDownload(op: nat, name: string)
      requires Valid() && Enabled(model, Event.BeginDownload(op, name))
      modifies this`model
      ensures Valid() && Follows(old(model), Event.BeginDownload(op, name), model)
    {
      SoundKept(model, Event.BeginDownload(op, name));
      model := Apply(model, Event.BeginDownload(op, name));
    }

    /** One attempt at one replica. A refused connection and a missing reply mark the node dead. */
    method Retrieve(ghost op: nat, node: nat, got: RetrieveReply)
      requires op in model.downloads && CanRetrieve(model, model.downloads[op], got)
      requires var d := model.downloads[op]; node == d.meta.chunks[d.chunk].ids[d.replica]
      requires Valid()
      modifies this`model, this`deadNodes
      ensures Valid() && Follows(old(model), Event.Retrieve(op, got), model)
      ensures deadNodes == old(deadNodes) + if got.NoConnection? || got.NoReply? then {node} else {}
    {
      SoundKept(model, Event.Retrieve(op, got));
      model := Apply(model, Event.Retrieve(op, got));
      if got.NoConnection? || got.NoReply? {
        deadNodes := deadNodes + {node};
      }
    }

    ghost method EndDownload(op: nat)
      requires Valid() && Enabled(model, Event.EndDownload(op))
      modifies this`model
      ensures Valid() && Follows(old(model), Event.EndDownload(op), model)
    {
      SoundKept(model, Event.EndDownload(op));
      model := Apply(model, Event.EndDownload(op));
    }

    // ----------------------------------------------------------- blocks of handle_delete

    ghost method BeginDelete(op: nat, name: string)
      requires Valid() && Enabled(model, Event.BeginDelete(op, name))
      modifies this`model
      ensures Valid() && Follows(old(model), Event.BeginDelete(op, name), model)
    {
      SoundKept(model, Event.BeginDelete(op, name));
      model := Apply(model, Event.BeginDelete(op, name));
    }

    /** One copy: a dead node is skipped; one that cannot be reached or refuses is dead from now
        on; only an acknowledgement releases the copy's bytes. */
    method EraseCopy(c: Copy, chunkName: string, reply: Option<Answer>) returns (outcome: DeleteReply)
      requires c.node < index.nodeBytes.Length && c.node < |disks|
      modifies this`deadNodes, this`disks, index, index.nodeBytes
      ensures outcome.SkippedDead? <==> c.node in old(deadNodes)
      ensures outcome.Unreachable? <==> c.node !in old(deadNodes) && reply.None?
      ensures outcome.Acknowledged? <==> Acks(old(deadNodes), c, reply)
      ensures index.View() == if outcome.Acknowledged? then Adjust(old(index.View()), [c], -1) else old(index.View())
      ensures deadNodes == if outcome.Acknowledged? then old(deadNodes) else old(deadNodes) + {c.node}
      ensures disks == (if outcome.Acknowledged? then Touch(old(disks), c.node, chunkName, None)
                        else if outcome.Refused? then Touch(old(disks), c.node, chunkName, Effect(reply))
                        else old(disks))
    {
      if c.node in deadNodes {
        outcome := SkippedDead;
      } else if reply.None? {
        outcome := Unreachable;
      } else if reply.value.acked {
        outcome := Acknowledged;
        disks := Touch(disks, c.node, chunkName, None);
        AdjustOne(index.View(), c, -1);
        index.UpdateNodeSize(c.node, -1 * c.size);
        return;
      } else {
        outcome := Refused;
        disks := Touch(disks, c.node, chunkName, reply.value.effect);
      }
      deadNodes := deadNodes + {c.node};
    }

    /** A node that is not dead, can be reached and acknowledges. */
    static predicate Acks(dead: set<nat>, c: Copy, reply: Option<Answer>) {
      c.node !in dead && reply.Some? && reply.value.acked
    }

    static function Effect(reply: Option<Answer>): Option<string> {
      if reply.Some? then reply.value.effect else None
    }

    static lemma ErasedAs(s: State, op: nat, c: Copy, chunkName: string, outcome: DeleteReply, effect: Option<string>)
      requires Sound(s) && Enabled(s, Event.DeleteCopy(op, outcome, effect))
      requires c == Flatten(s.deletions[op].meta.chunks)[s.deletions[op].pos]
      requires InRange([c], |s.load.bytes|) && c.node < |s.disks|
      requires chunkName == ChunkName(s.deletions[op].name, c.index)
      ensures var t := DoDeleteCopy(s, op, outcome, effect);
              && Sound(t) && t.cfg == s.cfg && t.meta == s.meta && t.pending == s.pending
              && t.load == (if outcome.Acknowledged? then Adjust(s.load, [c], -1) else s.load)
              && t.dead == (if outcome.Acknowledged? then s.dead else s.dead + {c.node})
              && t.disks == (if outcome.Acknowledged? then Touch(s.disks, c.node, chunkName, None)
                             else if outcome.Refused? then Touch(s.disks, c.node, chunkName, effect)
                             else s.disks)
    {
      SoundKept(s, Event.DeleteCopy(op, outcome, effect));
    }

    method DeleteCopy(ghost op: nat, c: Copy, chunkName: string, reply: Option<Answer>)
      returns (outcome: DeleteReply)
      requires Valid() && op in model.deletions && model.deletions[op].pos < |Flatten(model.deletions[op].meta.chunks)|
      requires c == Flatten(model.deletions[op].meta.chunks)[model.deletions[op].pos] && c.node < cfg.nodes
      requires chunkName == ChunkName(model.deletions[op].name, c.index)
      modifies this`model, this`deadNodes, this`disks, index, index.nodeBytes
      ensures Valid() && Follows(old(model), Event.DeleteCopy(op, outcome, Effect(reply)), model)
      ensures outcome.SkippedDead? <==> c.node in old(deadNodes)
      ensures outcome.Unreachable? <==> c.node !in old(deadNodes) && reply.None?
      ensures outcome.Acknowledged? <==> Acks(old(deadNodes), c, reply)
      ensures outcome.Acknowledged? ==> deadNodes == old(deadNodes)
    {
      outcome := EraseCopy(c, chunkName, reply);
      ErasedAs(model, op, c, chunkName, outcome, Effect(reply));
      model := DoDeleteCopy(model, op, outcome, Effect(reply));
    }

    method EndDelete(ghost op: nat, name: string)
      requires Valid() && Enabled(model, Event.EndDelete(op)) && model.deletions[op].name == name
      modifies this`model, this`fileMetadata
      ensures Valid() && Follows(old(model), Event.EndDelete(op), model)
    {
      SoundKept(model, Event.EndDelete(op));
      model := Apply(model, Event.EndDelete(op));
      fileMetadata := fileMetadata - {name};
    }

    // --------------------------------------------------- KILL_NODE and health_check_loop

    /** The block that takes a killed node out of the index. */
    method KillNode(node: nat)
      requires Valid() && node < cfg.nodes
      modifies this`model, this`deadNodes, index
      ensures Valid() && Follows(old(model), Kill(node), model)
    {
      SoundKept(model, Kill(node));
      model := Apply(model, Kill(node));
      deadNodes := deadNodes + {node};
      index.Remove(node);
    }

    /** What other threads do while this handler does not hold the lock. Handlers rely on nothing
        but the contract, so they are proved for every run of other operations; the body kills
        and revives nodes. */
    method LetOthers(ghost op: nat, others: Company) returns (ghost es: seq<Event>)
      requires Valid()
      modifies this, index, index.nodeBytes
      ensures Valid() && Meanwhile(old(model), es, model, op, others)
    {
      hide Ran, Shaped, IndexAgrees, Stands;
      ghost var m0 := model;
      MeanwhileNothing(m0, op, others);
      es := [];
      if others.Alone? || cfg.nodes == 0 {
        return;
      }
      var turns: nat :| true;
      while turns > 0
        invariant Valid() && Meanwhile(m0, es, model, op, others)
      {
        ghost var m := model;
        var node: nat :| node < cfg.nodes;
        if * {
          KillNode(node);
          MeanwhileOn(m0, es, m, Kill(node), model, op, others);
          es := es + [Kill(node)];
        } else {
          var total: int :| true;
          ReviveNode(node, total);
          MeanwhileOn(m0, es, m, Revive(node, total), model, op, others);
          es := es + [Revive(node, total)];
        }
        turns := turns - 1;
      }
    }

    /** The block that takes a node back, with the total it reports. */
    method ReviveNode(node: nat, total: int)
      requires Valid() && node < cfg.nodes
      modifies this`model, this`deadNodes, index, index.nodeBytes
      ensures Valid() && Follows(old(model), Revive(node, total), model)
    {
      SoundKept(model, Revive(node, total));
      model := Apply(model, Revive(node, total));
      deadNodes := deadNodes - {node};
      index.Reset(node, total);
    }
  }
}
