/** handle_delete, copy by copy, with whatever other handlers do between its blocks. */
module DeleteHandler {
  import opened Wrappers
  import opened ChunkNames
  import opened Load
  import opened Cluster
  import opened Orphans
  import opened Runs
  import opened Attribution
  import opened Steps
  import opened Coordinator

  datatype DeleteResult = NotFound | Deleted | FragmentsRemain

  /** Between s, right after a deletion began, and t: only deletion op has moved; it has released
      the bytes it removed, and every node it missed is dead. */
  ghost predicate Erasing(s: State, t: State, op: nat) {
    && op in s.deletions && op in t.deletions && t.deletions == s.deletions[op := t.deletions[op]]
    && t.deletions[op].name == s.deletions[op].name && t.deletions[op].meta == s.deletions[op].meta
    && t.deletions[op].exact == s.deletions[op].exact
    && t.meta == s.meta && t.contents == s.contents && t.pending == s.pending && t.uploads == s.uploads
    && t.cfg == s.cfg
    && t.downloads == s.downloads && t.stamps == s.stamps
    && s.dead <= t.dead && t.deletions[op].missed <= t.dead
    && |s.load.bytes| == |t.load.bytes| == s.cfg.nodes
    && forall i: nat {:trigger t.load.bytes[i]} :: i < s.cfg.nodes ==>
         t.load.bytes[i] == s.load.bytes[i] - BytesOn(t.deletions[op].removed, i)
  }

  lemma ErasingOn(s: State, t: State, e: Event, u: State)
    requires e.DeleteCopy? && Erasing(s, t, e.op) && Follows(t, e, u)
    ensures Erasing(s, u, e.op)
  {
    CopyMoves(t, e, u);
    MissedNodesAreDead(t, e.op, e.outcome, e.effect);
    hide Shaped, Enabled, Touch;
    forall i: nat | i < s.cfg.nodes
      ensures u.load.bytes[i] == s.load.bytes[i] - BytesOn(u.deletions[e.op].removed, i)
    {
      DeleteCopyBytes(t, e.op, e.outcome, e.effect, i);
    }
  }

  /** What one copy leaves alone. */
  lemma CopyMoves(t: State, e: Event, u: State)
    requires e.DeleteCopy? && Follows(t, e, u)
    ensures e.op in t.deletions && e.op in u.deletions && u.deletions == t.deletions[e.op := u.deletions[e.op]]
    ensures var d, v := t.deletions[e.op], u.deletions[e.op]; v.name == d.name && v.meta == d.meta && v.exact == d.exact
    ensures u.meta == t.meta && u.contents == t.contents && u.pending == t.pending && u.uploads == t.uploads
    ensures u.cfg == t.cfg && u.downloads == t.downloads && u.stamps == t.stamps && t.dead <= u.dead
    ensures |u.load.bytes| == |t.load.bytes|
  {
  }

  /** From s, right after the deletion began, to t: it has visited copies, and others may have run. */
  ghost predicate Visits(s: State, es: seq<Event>, t: State, op: nat, others: Company) {
    && Ran(s, es, t) && t.cfg == s.cfg && op in s.deletions && op in t.deletions
    && t.deletions[op].name == s.deletions[op].name && t.deletions[op].meta == s.deletions[op].meta
    && t.deletions[op].exact == s.deletions[op].exact
    && (forall e :: e in es ==> (e.DeleteCopy? && e.op == op) || Elsewhere(e, op, others))
    && (others.Alone? ==> Erasing(s, t, op))
  }

  lemma VisitsNothing(s: State, op: nat, others: Company)
    requires Shaped(s) && Erasing(s, s, op)
    ensures Visits(s, [], s, op, others)
  {
    RanNothing(s);
  }

  lemma VisitsOn(s: State, es: seq<Event>, t: State, e: Event, u: State, others: Company)
    requires e.DeleteCopy? && Visits(s, es, t, e.op, others) && Follows(t, e, u) && Shaped(u)
    ensures Visits(s, es + [e], u, e.op, others)
  {
    RanOn(s, es, t, e, u);
    if others.Alone? {
      ErasingOn(s, t, e, u);
    }
  }

  lemma VisitsAmong(s: State, es: seq<Event>, t: State, fs: seq<Event>, u: State, op: nat, others: Company)
    requires Visits(s, es, t, op, others) && Meanwhile(t, fs, u, op, others)
    ensures Visits(s, es + fs, u, op, others)
  {
    RanBoth(s, es, t, fs, u);
    if others.Alone? {
      AloneNothing(t, fs, u, op);
    }
    forall e | e in es + fs ensures (e.DeleteCopy? && e.op == op) || Elsewhere(e, op, others) {
      assert e in es || e in fs;
    }
  }

  /** The lock is free: other handlers may run. */
  method LetOthersRun(server: Server, ghost op: nat, others: Company, ghost m1: State, ghost before: seq<Event>)
    returns (ghost es: seq<Event>)
    requires server.Valid() && Visits(m1, before, server.model, op, others)
    modifies server, server.index, server.index.nodeBytes
    ensures server.Valid() && Visits(m1, es, server.model, op, others)
    ensures server.model.deletions[op] == old(server.model).deletions[op]
    ensures others.Alone? ==> server.model == old(server.model)
  {
    hide Ran, Shaped, IndexAgrees, Erasing;
    ghost var m := server.model;
    ghost var turn := server.LetOthers(op, others);
    VisitsAmong(m1, before, m, turn, server.model, op, others);
    es := before + turn;
    if others.Alone? {
      AloneNothing(m, turn, server.model, op);
    }
  }

  /** One copy, after whatever others have done. */
  method DeleteNext(server: Server, ghost op: nat, c: Copy, chunkName: string, reply: Option<Answer>,
                    others: Company, ghost m1: State, ghost before: seq<Event>)
    returns (outcome: DeleteReply, ghost es: seq<Event>)
    requires server.Valid() && Visits(m1, before, server.model, op, others)
    requires server.model.deletions[op].pos < |Flatten(server.model.deletions[op].meta.chunks)|
    requires c == Flatten(server.model.deletions[op].meta.chunks)[server.model.deletions[op].pos]
    requires chunkName == ChunkName(server.model.deletions[op].name, c.index)
    modifies server, server.index, server.index.nodeBytes
    ensures server.Valid() && Visits(m1, es, server.model, op, others)
    ensures server.model.deletions[op] == NextDeletion(old(server.model).deletions[op], c, outcome)
    ensures others.Alone? ==>
              && (outcome.Acknowledged? <==> Server.Acks(old(server.deadNodes), c, reply))
              && server.deadNodes == old(server.deadNodes) + if outcome.Acknowledged? then {} else {c.node}
  {
    hide Ran, IndexAgrees, Erasing;
    es := LetOthersRun(server, op, others, m1, before);
    ghost var m := server.model;
    assert c in Flatten(m.deletions[op].meta.chunks) && DeletionShaped(m.deletions[op], m.cfg);
    outcome := server.DeleteCopy(op, c, chunkName, reply);
    ghost var e := DeleteCopy(op, outcome, Server.Effect(reply));
    VisitsOn(m1, es, m, e, server.model, others);
    es := es + [e];
  }

  /** Apart from deletion op, the same operations are in flight. */
  ghost predicate OnlyDeletion(s: State, t: State, op: nat, name: string) {
    && t.uploads == s.uploads && t.deletions - {op} == s.deletions - {op} && t.downloads == s.downloads
    && OnlyCounts(s, t, name)
  }

  lemma ErasingOnlyDeletion(s: State, r: State, t: State, op: nat, name: string)
    requires OnlyDeletion(s, r, op, name) && Erasing(r, t, op)
    ensures OnlyDeletion(s, t, op, name)
  {
    assert t.deletions - {op} == r.deletions - {op};
  }

  lemma BackAgain(s: State, t: State, u: State, op: nat, name: string)
    requires op !in s.deletions && OnlyDeletion(s, t, op, name) && OnlyDeletion(t, u, op, name) && op !in u.deletions
    ensures SameFlights(s, u) && OnlyCounts(s, u, name)
  {
    assert s.deletions == s.deletions - {op} && u.deletions == u.deletions - {op};
  }

  lemma ErasingStarts(s: State, op: nat, name: string)
    requires Shaped(s) && Enabled(s, BeginDelete(op, name))
    ensures var t := DoBeginDelete(s, op, name);
            && Erasing(t, t, op) && OnlyDeletion(s, t, op, name)
            && t.deletions[op].name == name && t.deletions[op].meta == s.meta[name]
            && t.deletions[op].exact == NoOrphans(s.disks, name, Flatten(s.meta[name].chunks))
  {
    var t := DoBeginDelete(s, op, name);
    assert forall i: nat :: BytesOn(t.deletions[op].removed, i) == 0;
  }

  /** The loops over chunks and replicas. */
  method EraseAll(server: Server, ghost op: nat, name: string, file: FileMeta, answer: (nat, nat) -> Option<Answer>,
                  others: Company)
    returns (allDeleted: bool, ghost es: seq<Event>)
    requires server.Valid() && Erasing(server.model, server.model, op)
    requires server.model.deletions[op].name == name && server.model.deletions[op].meta == file
    requires server.model.deletions[op].pos == 0 && server.model.deletions[op].missed == {}
    modifies server, server.index, server.index.nodeBytes
    ensures server.Valid() && Visits(old(server.model), es, server.model, op, others)
    ensures server.model.deletions[op].pos == |Flatten(file.chunks)|
    ensures allDeleted <==> server.model.deletions[op].missed == {}
    ensures others.Alone? ==>
              && (allDeleted <==> AllAck(old(server.deadNodes), Flatten(file.chunks), answer))
              && server.deadNodes == old(server.deadNodes) + Unheard(Flatten(file.chunks), answer)
  {
    hide IsRun, End, Shaped, IndexAgrees, Erasing, Unheard, AllAck, Ran;
    ghost var m1, dead0 := server.model, server.deadNodes;
    VisitsNothing(m1, op, others);
    NoneUnheard(dead0, answer);
    var copies := Flatten(file.chunks);
    allDeleted, es := true, [];
    var n := 0;
    while n < |copies|
      invariant 0 <= n <= |copies|
      invariant server.Valid() && Visits(m1, es, server.model, op, others)
      invariant server.model.deletions[op].pos == n && (allDeleted <==> server.model.deletions[op].missed == {})
      invariant others.Alone? ==>
                  && (allDeleted <==> AllAck(dead0, copies[..n], answer)) && (allDeleted ==> server.deadNodes == dead0)
                  && server.deadNodes == dead0 + Unheard(copies[..n], answer)
    {
      AllAckStep(dead0, copies, n, answer);
      UnheardStep(copies, n, answer);
      var c := copies[n];
      var outcome: DeleteReply;
      outcome, es := DeleteNext(server, op, c, ChunkName(name, c.index), answer(c.index, c.node), others, m1, es);
      if !outcome.Acknowledged? {
        assert c.node in server.model.deletions[op].missed;
        allDeleted := false;
      }
      n := n + 1;
    }
    assert copies[..n] == copies;
  }

  /** Every node that holds one of these copies is alive, can be reached and acknowledges. */
  predicate AllAck(dead: set<nat>, copies: seq<Copy>, answer: (nat, nat) -> Option<Answer>) {
    forall c :: c in copies ==> Server.Acks(dead, c, answer(c.index, c.node))
  }

  /** The nodes of those copies that were not acknowledged. */
  function Unheard(copies: seq<Copy>, answer: (nat, nat) -> Option<Answer>): set<nat> {
    set c | c in copies && !Server.Acks({}, c, answer(c.index, c.node)) :: c.node
  }

  lemma NoneUnheard(dead: set<nat>, answer: (nat, nat) -> Option<Answer>)
    ensures Unheard([], answer) == {} && AllAck(dead, [], answer)
  {
  }

  lemma UnheardStep(copies: seq<Copy>, n: nat, answer: (nat, nat) -> Option<Answer>)
    requires n < |copies|
    ensures var c := copies[n];
            Unheard(copies[..n + 1], answer)
            == Unheard(copies[..n], answer) + if Server.Acks({}, c, answer(c.index, c.node)) then {} else {c.node}
  {
    assert copies[..n + 1] == copies[..n] + [copies[n]];
  }

  lemma AllAckStep(dead: set<nat>, copies: seq<Copy>, n: nat, answer: (nat, nat) -> Option<Answer>)
    requires n < |copies|
    ensures AllAck(dead, copies[..n + 1], answer) <==>
              AllAck(dead, copies[..n], answer) && Server.Acks(dead, copies[n], answer(copies[n].index, copies[n].node))
  {
    assert copies[..n + 1] == copies[..n] + [copies[n]];
  }

  /** Every chunk file of this name is on one of these nodes. */
  ghost predicate LeftOnlyOn(disks: Disks, name: string, nodes: set<nat>) {
    forall k: nat, i: nat :: OnDisk(disks, i, ChunkName(name, k)) ==> i in nodes
  }

  /** What a deletion of this file achieves between s and t: when it replies OK every node's
      total has fallen by exactly its share; and if the metadata had listed every chunk file of
      the name, none is left then, and otherwise what is left is on nodes that are dead. */
  ghost predicate Erased(s: State, t: State, name: string, file: FileMeta, allDeleted: bool) {
    && |s.load.bytes| == |t.load.bytes|
    && (allDeleted ==> forall i: nat {:trigger t.load.bytes[i]} :: i < |t.load.bytes| ==>
          t.load.bytes[i] == s.load.bytes[i] - BytesOn(Flatten(file.chunks), i))
    && (NoOrphans(s.disks, name, Flatten(file.chunks)) ==>
          LeftOnlyOn(t.disks, name, if allDeleted then {} else t.dead))
  }

  /** Of a deletion: the states right after its beginning and right before its end, and everything
      that happened in between. */
  datatype Trace = Trace(begun: State, mid: seq<Event>, last: State)

  function Whole(op: nat, name: string, tr: Trace): seq<Event> {
    [BeginDelete(op, name)] + tr.mid + [EndDelete(op)]
  }

  /** The deletion's own steps have released exactly these copies. */
  ghost predicate Releases(s: State, es: seq<Event>, op: nat, copies: seq<Copy>) {
    && IsRun(s, es)
    && forall i: nat :: i < s.cfg.nodes ==> OwnChange(s, es, op, false, i) == 0 - BytesOn(copies, i)
  }

  /** What a deletion of this file has achieved between s, the state before it, and its end: it has
      released what it removed; with every copy acknowledged that is the whole file; and if the
      metadata had listed every chunk file of the name, what is left is on nodes that it missed. */
  ghost predicate Achieved(s: State, name: string, file: FileMeta, op: nat, tr: Trace) {
    && op in tr.last.deletions
    && var d := tr.last.deletions[op];
       && Releases(tr.begun, tr.mid, op, d.removed)
       && (d.missed == {} ==> d.removed == Flatten(file.chunks))
       && (NoOrphans(s.disks, name, Flatten(file.chunks)) ==> LeftOnlyOn(tr.last.disks, name, d.missed))
  }

  lemma VisitsRelease(s: State, es: seq<Event>, t: State, op: nat, others: Company)
    requires Visits(s, es, t, op, others) && s.deletions[op].removed == []
    ensures Releases(s, es, op, t.deletions[op].removed)
  {
    forall e | e in es && ByDeletion(e, op) ensures e.DeleteCopy? {
      assert (e.DeleteCopy? && e.op == op) || Elsewhere(e, op, others);
    }
    forall i: nat | i < s.cfg.nodes
      ensures OwnChange(s, es, op, false, i) == 0 - BytesOn(t.deletions[op].removed, i)
    {
      DeletionAccount(s, es, op, i);
    }
  }

  lemma VisitsAchieve(s: State, name: string, file: FileMeta, op: nat, tr: Trace, others: Company)
    requires Inv(s) && Follows(s, BeginDelete(op, name), tr.begun) && file == s.meta[name]
    requires Visits(tr.begun, tr.mid, tr.last, op, others)
    requires tr.last.deletions[op].pos == |Flatten(file.chunks)|
    ensures Achieved(s, name, file, op, tr)
  {
    hide IsRun, End, Shaped;
    InvKept(s, BeginDelete(op, name));
    RunKeepsInv(tr.begun, tr.mid);
    VisitsRelease(tr.begun, tr.mid, tr.last, op, others);
    var d := tr.last.deletions[op];
    assert DeletionTidy(d, tr.last.disks);
    FinishedDeletion(d, tr.last.disks, 0, 0);
    if d.exact {
      forall k: nat, i: nat | OnDisk(tr.last.disks, i, ChunkName(d.name, k)) ensures i in d.missed {
        FinishedDeletion(d, tr.last.disks, k, i);
      }
    }
  }

  lemma AloneVisits(s: State, es: seq<Event>, t: State, op: nat)
    requires Visits(s, es, t, op, Alone)
    ensures Erasing(s, t, op)
  {
  }

  /** With nobody else at work. */
  lemma AloneErased(s: State, name: string, file: FileMeta, op: nat, tr: Trace, u: State)
    requires name in s.meta && file == s.meta[name] && tr.begun == DoBeginDelete(s, op, name) && op in tr.last.deletions
    requires Achieved(s, name, file, op, tr) && Erasing(tr.begun, tr.last, op) && Follows(tr.last, EndDelete(op), u)
    ensures Erased(s, u, name, file, tr.last.deletions[op].missed == {})
  {
    hide Shaped, Enabled, Erased, Achieved, Erasing;
    BeginKeepsLoad(s, op, name);
    AchievedAlone(s, name, file, op, tr);
    EndKeepsDisks(tr.last, op, u);
    StillErased(s, tr.last, u, name, file, tr.last.deletions[op].missed == {});
  }

  lemma BeginKeepsLoad(s: State, op: nat, name: string)
    requires name in s.meta
    ensures DoBeginDelete(s, op, name).load == s.load
  {
  }

  lemma EndKeepsDisks(t: State, op: nat, u: State)
    requires Follows(t, EndDelete(op), u)
    ensures u.load == t.load && u.disks == t.disks && u.dead == t.dead
  {
  }

  lemma StillErased(s: State, t: State, u: State, name: string, file: FileMeta, allDeleted: bool)
    requires Erased(s, t, name, file, allDeleted) && u.load == t.load && u.disks == t.disks && u.dead == t.dead
    ensures Erased(s, u, name, file, allDeleted)
  {
  }

  lemma EndsOnly(t: State, op: nat, u: State)
    requires Follows(t, EndDelete(op), u)
    ensures op in t.deletions && op !in u.deletions && OnlyDeletion(t, u, op, t.deletions[op].name)
    ensures u.meta == t.meta - {t.deletions[op].name}
  {
  }

  /** Right before the end: what an erasing that has visited every copy has left. */
  lemma AchievedAlone(s: State, name: string, file: FileMeta, op: nat, tr: Trace)
    requires Achieved(s, name, file, op, tr) && Erasing(tr.begun, tr.last, op) && tr.begun.load == s.load
    ensures Erased(s, tr.last, name, file, tr.last.deletions[op].missed == {})
  {
  }

  lemma AloneBack(s: State, name: string, op: nat, tr: Trace, u: State)
    requires Follows(s, BeginDelete(op, name), tr.begun) && Erasing(tr.begun, tr.last, op)
    requires Follows(tr.last, EndDelete(op), u)
    ensures SameFlights(s, u) && OnlyCounts(s, u, name) && u.meta == s.meta - {name}
  {
    hide Shaped;
    ErasingStarts(s, op, name);
    ErasingOnlyDeletion(s, tr.begun, tr.last, op, name);
    EndsOnly(tr.last, op, u);
    BackAgain(s, tr.last, u, op, name);
  }

  lemma WholeRun(s: State, name: string, op: nat, tr: Trace, u: State, others: Company)
    requires Follows(s, BeginDelete(op, name), tr.begun) && Shaped(u)
    requires Visits(tr.begun, tr.mid, tr.last, op, others) && Follows(tr.last, EndDelete(op), u)
    ensures Ran(s, Whole(op, name, tr), u)
  {
    RanOne(s, BeginDelete(op, name), tr.begun);
    RanBoth(s, [BeginDelete(op, name)], tr.begun, tr.mid, tr.last);
    RanOn(s, [BeginDelete(op, name)] + tr.mid, tr.last, EndDelete(op), u);
  }

  /** What one deletion of a listed file amounts to, from s to u. */
  ghost predicate Erasure(s: State, name: string, op: nat, tr: Trace, u: State, others: Company) {
    && Follows(s, BeginDelete(op, name), tr.begun) && Visits(tr.begun, tr.mid, tr.last, op, others)
    && tr.last.deletions[op].pos == |Flatten(s.meta[name].chunks)|
    && Follows(tr.last, EndDelete(op), u) && u.meta == tr.last.meta - {name}
    && (Inv(s) ==> Achieved(s, name, s.meta[name], op, tr))
  }

  method DeleteListed(server: Server, ghost op: nat, name: string, file: FileMeta,
                      answer: (nat, nat) -> Option<Answer>, others: Company)
    returns (reply: DeleteResult, ghost tr: Trace)
    requires server.Valid() && op !in server.model.deletions && NoWriter(server.model, name)
    requires name in server.fileMetadata && file == server.fileMetadata[name]
    modifies server, server.index, server.index.nodeBytes
    ensures server.Valid() && !reply.NotFound? && Erasure(old(server.model), name, op, tr, server.model, others)
    ensures reply.Deleted? <==> tr.last.deletions[op].missed == {}
    ensures others.Alone? ==>
              && (reply.Deleted? <==> AllAck(old(server.deadNodes), Flatten(file.chunks), answer))
              && server.deadNodes == old(server.deadNodes) + Unheard(Flatten(file.chunks), answer)
  {
    hide IsRun, End, Shaped, IndexAgrees, Inv, Achieved, Erasing, Unheard;
    ghost var m0 := server.model;
    ErasingStarts(m0, op, name);
    server.BeginDelete(op, name);
    ghost var begun := server.model;
    var allDeleted;
    ghost var mid;
    allDeleted, mid := EraseAll(server, op, name, file, answer, others);
    mid := LetOthersRun(server, op, others, begun, mid);
    tr := Trace(begun, mid, server.model);
    server.EndDelete(op, name);
    if Inv(m0) {
      VisitsAchieve(m0, name, file, op, tr, others);
    }
    reply := if allDeleted then Deleted else FragmentsRemain;
  }

  lemma Untouched(s: State, name: string)
    ensures SameFlights(s, s) && OnlyCounts(s, s, name)
  {
  }

  /** handle_delete, with whatever other handlers do between its blocks. The name is gone afterwards;
      the reply is OK exactly when every copy was acknowledged; and its own steps have released
      exactly the copies it removed. */
  method HandleDelete(server: Server, ghost op: nat, name: string, answer: (nat, nat) -> Option<Answer>,
                      others: Company)
    returns (reply: DeleteResult, ghost tr: Trace, ghost es: seq<Event>)
    requires server.Valid() && op !in server.model.deletions && NoWriter(server.model, name)
    modifies server, server.index, server.index.nodeBytes
    ensures server.Valid() && Ran(old(server.model), es, server.model)
    ensures reply.NotFound? <==> name !in old(server.fileMetadata)
    ensures reply.NotFound? ==> server.model == old(server.model) && es == []
    ensures name !in server.fileMetadata
    ensures !reply.NotFound? ==>
              && es == Whole(op, name, tr) && Erasure(old(server.model), name, op, tr, server.model, others)
              && (reply.Deleted? <==> tr.last.deletions[op].missed == {})
    ensures others.Alone? ==>
              && SameFlights(old(server.model), server.model) && OnlyCounts(old(server.model), server.model, name)
              && server.fileMetadata == old(server.fileMetadata) - {name}
    ensures others.Alone? && !reply.NotFound? ==>
              && (reply.Deleted? <==>
                    AllAck(old(server.deadNodes), Flatten(old(server.fileMetadata)[name].chunks), answer))
              && server.deadNodes
                 == old(server.deadNodes) + Unheard(Flatten(old(server.fileMetadata)[name].chunks), answer)
              && (Inv(old(server.model)) ==>
                    Erased(old(server.model), server.model, name, old(server.fileMetadata)[name], reply.Deleted?))
  {
    hide IsRun, End, Shaped, IndexAgrees, Inv, Achieved, Erasing, Unheard, AllAck, Erased, OnlyCounts, SameFlights, Ran;
    ghost var m0 := server.model;
    tr := Trace(m0, [], m0);
    RanNothing(m0);
    Untouched(m0, name);
    if name !in server.fileMetadata {
      return NotFound, tr, [];
    }
    reply, tr := DeleteListed(server, op, name, server.fileMetadata[name], answer, others);
    es := Whole(op, name, tr);
    WholeRun(m0, name, op, tr, server.model, others);
    if others.Alone? {
      AloneVisits(tr.begun, tr.mid, tr.last, op);
      AloneBack(m0, name, op, tr, server.model);
      if Inv(m0) {
        AloneErased(m0, name, m0.meta[name], op, tr, server.model);
      }
    }
  }
}
