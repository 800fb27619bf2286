/** handle_client: the command loop of one client connection, while operations of other clients
    may be in flight. */
module ClientHandler {
  import opened Wrappers
  import opened Text
  import opened Descriptors
  import opened ClientProtocol
  import opened Load
  import opened Cluster
  import opened Invariants
  import opened Bytes
  import opened Contents
  import opened Orphans
  import opened Runs
  import opened Resilience
  import opened Attribution
  import opened Steps
  import opened Interference
  import opened Coordinator
  import Up = UploadHandler
  import Down = DownloadHandler
  import Del = DeleteHandler
  import Maintenance

  /** What the nodes do while one command is being served. */
  datatype Weather = Weather(unreachable: set<nat>, store: (nat, nat) -> Answer, remove: (nat, nat) -> Option<Answer>,
                             health: (nat, nat) -> Down.Health, reachable: bool)

  /** Between two commands of this client: all invariants hold, and it has nothing in flight. */
  ghost predicate Ready(s: State, op: nat) {
    Inv(s) && op !in s.uploads && op !in s.deletions && op !in s.downloads
  }

  /** No operation of another client writes what this request is about to write. An upload may meet
      another upload of its name, and is then turned away. */
  ghost predicate Free(s: State, r: Request) {
    match r
    case UploadRequest(name, _) => forall o :: o in s.deletions ==> s.deletions[o].name != name
    case DeleteRequest(name) => NoWriter(s, name)
    case _ => true
  }

  ghost predicate AllFree(s: State, taken: seq<Taken>) {
    forall q :: q in taken ==> Free(s, q.request)
  }

  /** Others spare the names that these requests write. */
  predicate SparesAll(others: Company, taken: seq<Taken>) {
    others.Among? ==> forall q :: q in taken && Writes(q.request) ==> q.request.name in others.spared
  }

  predicate Writes(r: Request) {
    r.UploadRequest? || r.DeleteRequest?
  }

  /** The events of one command, or of what others do. */
  predicate Fitting(e: Event, op: nat, others: Company) {
    ByUpload(e, op) || ByDeletion(e, op) || ByDownload(e, op) || e.Kill? || Elsewhere(e, op, others)
  }

  /** What a command leaves for those that follow. */
  lemma StaysFree(s: State, es: seq<Event>, t: State, op: nat, others: Company, taken: seq<Taken>)
    requires Ran(s, es, t) && forall e :: e in es ==> Fitting(e, op, others)
    requires op !in t.uploads && op !in t.deletions && AllFree(s, taken) && SparesAll(others, taken)
    ensures AllFree(t, taken)
  {
    forall q | q in taken ensures Free(t, q.request) {
      assert Free(s, q.request);
      if Writes(q.request) {
        var names := if others.Among? then others.spared else {q.request.name};
        forall e | e in es ensures OwnOrForeign(e, op, names) {
          assert Fitting(e, op, others);
        }
        RunNoNewWriter(s, es, t, op, names, q.request.name);
      }
    }
  }

  /** How much of the stream a request takes beyond its line. */
  function PayloadLength(r: Request, stream: string): nat {
    if r.UploadRequest? then Min(r.size, |stream|) else 0
  }

  datatype Reply =
    | OfUpload(upload: Up.UploadReply)
    | OfDownload(download: Down.DownloadReply, emitted: string)
    | OfDelete(deletion: Del.DeleteResult)
    | OfKill(kill: Maintenance.KillReply)
    | Plain

  // ---------------------------------------------------- what every command does, whoever runs

  /** What a command's own blocks have been, for the commands that have several. */
  datatype Deed = OfUploading(uploading: Up.Trace) | OfDeleting(deleting: Del.Trace) | OfReading(last: State) | Nothing

  /** An upload: rejected, or stored as exactly its payload, or without any trace of its own. */
  ghost predicate Uploaded(s: State, es: seq<Event>, name: string, size: nat, payload: string, op: nat, others: Company,
                           reply: Up.UploadReply, tr: Up.Trace, t: State) {
    && (reply.InvalidName? <==> Contains(name, "/") || Contains(name, ".."))
    && (reply.InProgress? <==> !reply.InvalidName? && name in s.pending)
    && (reply.ConnectionLost? ==> |payload| < size)
    && (reply.Stored? ==>
          && |payload| == size && es == Up.Whole(op, name, payload, tr, true) && reply.updated == (name in s.meta)
          && name in t.meta && Up.Finished(tr.begun, tr.mid, tr.last, t, op, others, t.meta[name])
          && FileFaithful(t.meta[name], payload, false, name, t.disks, t.cfg))
    && (Up.WasAdmitted(reply) && !reply.Stored? ==> Up.GaveUp(tr.begun, tr.mid, tr.last, t, op, others))
  }

  /** A download: complete and undisturbed ones have handed over exactly the committed bytes. */
  ghost predicate Downloaded(s: State, es: seq<Event>, name: string, op: nat, others: Company,
                             reply: Down.DownloadReply,
                             emitted: string, last: State, t: State) {
    && Down.Reads(s, es, t, op, others)
    && (reply.NotFound? <==> name !in s.meta)
    && (reply.Sending? <==> name in s.meta && Contiguous(s.meta[name].chunks))
    && (if reply.Sending? then
          && reply.total == s.meta[name].total
          && (Reachable(s) && Down.Complete(last, op) ==> name in last.contents && emitted == last.contents[name])
        else emitted == "")
  }

  /** A deletion: its own blocks have released what they removed, and the name is gone. */
  ghost predicate Removed(s: State, es: seq<Event>, name: string, op: nat, others: Company, reply: Del.DeleteResult,
                          tr: Del.Trace, t: State) {
    && (reply.NotFound? <==> name !in s.meta) && name !in t.meta
    && (!reply.NotFound? ==>
          && es == Del.Whole(op, name, tr) && Del.Erasure(s, name, op, tr, t, others)
          && (reply.Deleted? <==> tr.last.deletions[op].missed == {}))
  }

  function KillEvents(node: int, reply: Maintenance.KillReply): seq<Event> {
    if reply.Killed? && node >= 0 then [Kill(node)] else []
  }

  /** What one request has done, by these events between s and t, and what it was answered. */
  ghost predicate Obeys(s: State, es: seq<Event>, q: Taken, op: nat, others: Company, reply: Reply, deed: Deed,
                        t: State) {
    match q.request
    case UploadRequest(name, size) =>
      && reply.OfUpload? && deed.OfUploading?
      && Uploaded(s, es, name, size, q.payload, op, others, reply.upload, deed.uploading, t)
    case DownloadRequest(name) =>
      && reply.OfDownload? && deed.OfReading?
      && Downloaded(s, es, name, op, others, reply.download, reply.emitted, deed.last, t)
    case DeleteRequest(name) =>
      && reply.OfDelete? && deed.OfDeleting?
      && Removed(s, es, name, op, others, reply.deletion, deed.deleting, t)
    case KillRequest(node) => reply.OfKill? && es == KillEvents(node, reply.kill)
    case _ => reply.Plain? && t == s && es == []
  }

  // ------------------------------------------------------------- when nobody else is at work

  /** An upload that was served between s and t. */
  ghost predicate Uploads(s: State, name: string, size: nat, payload: string, w: Weather, reply: Up.UploadReply,
                          t: State) {
    && (if reply.Stored? then name in t.meta && t.meta == s.meta[name := t.meta[name]]
        else t.meta == s.meta && t.load.bytes == s.load.bytes)
    && OnlyCounts(s, t, name)
    && (Up.WasAdmitted(reply) && Tried(s) - w.unreachable == {} ==> reply.NoNodes?)
    && (Up.WasAdmitted(reply) && Tried(s) - w.unreachable != {} && Up.Willing(Tried(s) - w.unreachable, w.store) ==>
          (reply.Stored? && !reply.warned) || reply.ConnectionLost?)
  }

  ghost predicate Downloads(s: State, name: string, w: Weather, reply: Down.DownloadReply, emitted: string, t: State) {
    && t.meta == s.meta && t.disks == s.disks && t.load == s.load && t.stamps == s.stamps
    && (Down.Lasting(w.health) && reply.Sending? && name in s.meta ==>
          && emitted == ReadAll(s.disks, name, s.meta[name].chunks, s.dead + Down.Useless(w.health, |s.disks|))
          && Down.Marked(s.dead, t.dead,
                         Down.Asked(s.disks, name, s.meta[name].chunks, s.dead + Down.Useless(w.health, |s.disks|)),
                         w.health))
    && (!reply.Sending? ==> t.dead == s.dead)
  }

  ghost predicate Deletes(s: State, name: string, w: Weather, reply: Del.DeleteResult, t: State) {
    && t.meta == s.meta - {name} && OnlyCounts(s, t, name)
    && (name in s.meta ==>
          && (reply.Deleted? <==> Del.AllAck(s.dead, Flatten(s.meta[name].chunks), w.remove))
          && t.dead == s.dead + Del.Unheard(Flatten(s.meta[name].chunks), w.remove)
          && Del.Erased(s, t, name, s.meta[name], reply.Deleted?))
  }

  ghost predicate Kills(s: State, node: int, w: Weather, reply: Maintenance.KillReply, t: State) {
    && (reply.Killed? <==> 0 <= node < s.cfg.nodes && node !in s.dead && w.reachable)
    && t.meta == s.meta && t.disks == s.disks && t.load.bytes == s.load.bytes && t.stamps == s.stamps
    && t.dead == s.dead + if reply.Killed? then {node} else {}
  }

  /** What one request has to have done between s and t, and what it was answered. */
  ghost predicate Serves(s: State, q: Taken, w: Weather, reply: Reply, t: State) {
    match q.request
    case UploadRequest(name, size) => reply.OfUpload? && Uploads(s, name, size, q.payload, w, reply.upload, t)
    case DownloadRequest(name) => reply.OfDownload? && Downloads(s, name, w, reply.download, reply.emitted, t)
    case DeleteRequest(name) => reply.OfDelete? && Deletes(s, name, w, reply.deletion, t)
    case KillRequest(node) => reply.OfKill? && Kills(s, node, w, reply.kill, t)
    case _ => reply.Plain? && t == s
  }

  method UploadCommand(server: Server, ghost op: nat, client: Descriptor, name: string, size: nat, w: Weather,
                       others: Company)
    returns (reply: Up.UploadReply, ghost tr: Up.Trace, ghost es: seq<Event>)
    requires server.Valid() && Ready(server.model, op) && Free(server.model, UploadRequest(name, size)) && size > 0
    modifies server, server.index, server.index.nodeBytes, client`incoming
    ensures server.Valid() && Ran(old(server.model), es, server.model) && Ready(server.model, op)
    ensures forall e :: e in es ==> Fitting(e, op, others)
    ensures client.incoming == old(client.incoming)[Min(size, |old(client.incoming)|)..]
    ensures var payload := old(client.incoming)[..Min(size, |old(client.incoming)|)];
            && Uploaded(old(server.model), es, name, size, payload, op, others, reply, tr, server.model)
            && (others.Alone? ==>
                  && Uploads(old(server.model), name, size, payload, w, reply, server.model)
                  && SameFlights(old(server.model), server.model))
  {
    hide IsRun, End, Shaped, IndexAgrees, OneWriter, Fresh, Conserved, Faithful, Tidy, FileFaithful, Tried, Fitting;
    hide Up.Told, Up.Cancels;
    ghost var m0 := server.model;
    reply, tr, es := Up.HandleUpload(server, op, client, name, size, w.unreachable, w.store, w.remove, others);
    UploadFits(m0, es, server.model, op, tr, others, reply, name);
  }

  lemma UploadEvents(content: string, op: nat, tr: Up.Trace, others: Company, stored: bool, name: string)
    requires Works(tr.begun, tr.mid, tr.last, op, others)
    ensures forall e :: e in Up.Whole(op, name, content, tr, stored) ==>
              Fitting(e, op, others) && !ByDeletion(e, op) && !ByDownload(e, op)
  {
    forall e | e in Up.Whole(op, name, content, tr, stored)
      ensures Fitting(e, op, others) && !ByDeletion(e, op) && !ByDownload(e, op)
    {
      assert ByUpload(e, op) || (e in tr.mid && (ByUpload(e, op) || Elsewhere(e, op, others)));
    }
  }

  /** What follows for the operation number and the events. */
  lemma UploadFits(s: State, es: seq<Event>, t: State, op: nat, tr: Up.Trace, others: Company, reply: Up.UploadReply,
                   name: string)
    requires Ready(s, op) && Ran(s, es, t) && Inv(t)
    requires if Up.WasAdmitted(reply) then
               && (exists content :: es == Up.Whole(op, name, content, tr, reply.Stored?))
               && Works(tr.begun, tr.mid, tr.last, op, others) && t.uploads == tr.last.uploads - {op}
             else es == [] && t == s
    ensures Ready(t, op) && forall e :: e in es ==> Fitting(e, op, others)
  {
    hide Inv, Works, Ran, Fitting;
    if Up.WasAdmitted(reply) {
      var content :| es == Up.Whole(op, name, content, tr, reply.Stored?);
      UploadEvents(content, op, tr, others, reply.Stored?, name);
      RunStaysOut(s, es, t, op);
    }
  }

  method DeleteCommand(server: Server, ghost op: nat, name: string, w: Weather, others: Company)
    returns (reply: Del.DeleteResult, ghost tr: Del.Trace, ghost es: seq<Event>)
    requires server.Valid() && Ready(server.model, op) && Free(server.model, DeleteRequest(name))
    modifies server, server.index, server.index.nodeBytes
    ensures server.Valid() && Ran(old(server.model), es, server.model) && Ready(server.model, op)
    ensures forall e :: e in es ==> Fitting(e, op, others)
    ensures Removed(old(server.model), es, name, op, others, reply, tr, server.model)
    ensures others.Alone? ==>
              && Deletes(old(server.model), name, w, reply, server.model)
              && SameFlights(old(server.model), server.model)
  {
    hide IsRun, End, Shaped, IndexAgrees, Named, Conserved, Faithful, Tidy, Fitting, Del.Achieved, Del.Erasing;
    hide Del.Erased;
    ghost var m0 := server.model;
    reply, tr, es := Del.HandleDelete(server, op, name, w.remove, others);
    DeleteFits(m0, es, server.model, op, tr, others, reply, name);
  }

  lemma DeleteEvents(op: nat, tr: Del.Trace, others: Company, name: string)
    requires Del.Visits(tr.begun, tr.mid, tr.last, op, others)
    ensures forall e :: e in Del.Whole(op, name, tr) ==>
              Fitting(e, op, others) && !ByUpload(e, op) && !ByDownload(e, op)
  {
    forall e | e in Del.Whole(op, name, tr) ensures Fitting(e, op, others) && !ByUpload(e, op) && !ByDownload(e, op) {
      assert ByDeletion(e, op) || (e in tr.mid && (ByDeletion(e, op) || Elsewhere(e, op, others)));
    }
  }

  lemma DeleteFits(s: State, es: seq<Event>, t: State, op: nat, tr: Del.Trace, others: Company, reply: Del.DeleteResult,
                   name: string)
    requires Ready(s, op) && Ran(s, es, t)
    requires if reply.NotFound? then es == [] && t == s
             else es == Del.Whole(op, name, tr) && Del.Erasure(s, name, op, tr, t, others)
    ensures Ready(t, op) && forall e :: e in es ==> Fitting(e, op, others)
  {
    hide Inv, IsRun, End, Fitting, Del.Visits, Follows, Del.Achieved;
    RunKeepsInv(s, es);
    if !reply.NotFound? {
      DeleteEvents(op, tr, others, name);
      Del.EndsOnly(tr.last, op, t);
      RunStaysOut(s, es, t, op);
    }
  }

  method DownloadCommand(server: Server, ghost op: nat, name: string, w: Weather, others: Company)
    returns (reply: Down.DownloadReply, emitted: string, ghost last: State, ghost es: seq<Event>)
    requires server.Valid() && Ready(server.model, op)
    modifies server, server.index, server.index.nodeBytes
    ensures server.Valid() && Ran(old(server.model), es, server.model) && Ready(server.model, op)
    ensures forall e :: e in es ==> Fitting(e, op, others)
    ensures Downloaded(old(server.model), es, name, op, others, reply, emitted, last, server.model)
    ensures others.Alone? ==>
              && Downloads(old(server.model), name, w, reply, emitted, server.model)
              && SameFlights(old(server.model), server.model)
  {
    hide IsRun, End, Shaped, IndexAgrees, Named, Conserved, Faithful, Tidy, Fitting, Reachable;
    ghost var m0 := server.model;
    reply, emitted, last, es := Down.HandleDownload(server, op, name, w.health, others);
    DownloadFits(m0, es, server.model, op, others);
  }

  lemma DownloadFits(s: State, es: seq<Event>, t: State, op: nat, others: Company)
    requires Ready(s, op) && Down.Reads(s, es, t, op, others) && op !in t.downloads
    ensures Ready(t, op) && forall e :: e in es ==> Fitting(e, op, others)
  {
    forall e | e in es ensures Fitting(e, op, others) && !ByUpload(e, op) && !ByDeletion(e, op) {
      assert ByDownload(e, op) || Elsewhere(e, op, others);
    }
    RunKeepsInv(s, es);
    RunStaysOut(s, es, t, op);
  }

  method KillCommand(server: Server, ghost op: nat, node: int, w: Weather, ghost others: Company)
    returns (reply: Maintenance.KillReply, ghost es: seq<Event>)
    requires server.Valid() && Ready(server.model, op)
    modifies server`model, server`deadNodes, server.index
    ensures server.Valid() && Ran(old(server.model), es, server.model) && Ready(server.model, op)
    ensures forall e :: e in es ==> Fitting(e, op, others)
    ensures es == KillEvents(node, reply)
    ensures Kills(old(server.model), node, w, reply, server.model) && SameFlights(old(server.model), server.model)
  {
    hide IsRun, End, Shaped, IndexAgrees, Named, Conserved, Faithful, Tidy;
    ghost var m0 := server.model;
    reply, es := Maintenance.HandleKill(server, node, w.reachable);
    RunKeepsInv(m0, es);
  }

  /** One command, with whatever other handlers do between its blocks. Whatever its outcome, exactly
      its payload has been taken off the stream. */
  method HandleCommand(server: Server, ghost op: nat, client: Descriptor, r: Request, w: Weather, others: Company)
    returns (reply: Reply, ghost deed: Deed, ghost es: seq<Event>)
    requires server.Valid() && Ready(server.model, op) && Free(server.model, r) && (r.UploadRequest? ==> r.size > 0)
    modifies server, server.index, server.index.nodeBytes, client`incoming
    ensures server.Valid() && Ran(old(server.model), es, server.model) && Ready(server.model, op)
    ensures forall e :: e in es ==> Fitting(e, op, others)
    ensures client.incoming == old(client.incoming)[PayloadLength(r, old(client.incoming))..]
    ensures var q := Taken(r, old(client.incoming)[..PayloadLength(r, old(client.incoming))]);
            && Obeys(old(server.model), es, q, op, others, reply, deed, server.model)
            && (others.Alone? ==>
                  && Serves(old(server.model), q, w, reply, server.model)
                  && SameFlights(old(server.model), server.model))
  {
    hide IsRun, End, Shaped, IndexAgrees, Uploads, Uploaded, Deletes, Removed, Downloads, Downloaded, Fitting, Ready;
    reply, deed := Plain, Nothing;
    match r {
      case UploadRequest(name, size) =>
        var u: Up.UploadReply;
        ghost var tr: Up.Trace;
        u, tr, es := UploadCommand(server, op, client, name, size, w, others);
        reply, deed := OfUpload(u), OfUploading(tr);
      case DownloadRequest(name) =>
        var d: Down.DownloadReply, emitted: string;
        ghost var last: State;
        d, emitted, last, es := DownloadCommand(server, op, name, w, others);
        reply, deed := OfDownload(d, emitted), OfReading(last);
      case DeleteRequest(name) =>
        var x: Del.DeleteResult;
        ghost var tr: Del.Trace;
        x, tr, es := DeleteCommand(server, op, name, w, others);
        reply, deed := OfDelete(x), OfDeleting(tr);
      case KillRequest(node) =>
        var k: Maintenance.KillReply;
        k, es := KillCommand(server, op, node, w, others);
        reply := OfKill(k);
      case _ =>
        RanNothing(server.model);
        es := [];
    }
  }

  /** One command that has been served: what others did before it, its events, and the states around
      them. */
  datatype Served = Served(turn: seq<Event>, from: State, es: seq<Event>, deed: Deed, to: State)

  ghost predicate ServedRight(start: State, v: Served, q: Taken, w: Weather, op: nat, others: Company, reply: Reply) {
    && Meanwhile(start, v.turn, v.from, op, others) && Ran(v.from, v.es, v.to)
    && Obeys(v.from, v.es, q, op, others, reply, v.deed, v.to)
    && (others.Alone? ==> Serves(v.from, q, w, reply, v.to))
  }

  /** One command, as the next steps of a run. */
  method ServeNext(server: Server, ghost op: nat, client: Descriptor, r: Request, w: Weather, others: Company,
                   ghost later: seq<Taken>, ghost m0: State, ghost before: seq<Event>)
    returns (reply: Reply, ghost deed: Deed, ghost part: seq<Event>, ghost es: seq<Event>)
    requires server.Valid() && Ready(server.model, op) && Free(server.model, r) && AllFree(server.model, later)
    requires SparesAll(others, later) && Ran(m0, before, server.model) && (r.UploadRequest? ==> r.size > 0)
    modifies server, server.index, server.index.nodeBytes, client`incoming
    ensures server.Valid() && Ready(server.model, op) && AllFree(server.model, later) && Ran(m0, es, server.model)
    ensures others.Alone? ==> SameFlights(old(server.model), server.model)
    ensures client.incoming == old(client.incoming)[PayloadLength(r, old(client.incoming))..]
    ensures Ran(old(server.model), part, server.model)
    ensures var q := Taken(r, old(client.incoming)[..PayloadLength(r, old(client.incoming))]);
            && Obeys(old(server.model), part, q, op, others, reply, deed, server.model)
            && (others.Alone? ==> Serves(old(server.model), q, w, reply, server.model))
  {
    hide IsRun, End, Shaped, IndexAgrees, Serves, Obeys, Free, Fitting, AllFree, SparesAll, Inv;
    ghost var m := server.model;
    reply, deed, part := HandleCommand(server, op, client, r, w, others);
    RanBoth(m0, before, m, part, server.model);
    StaysFree(m, part, server.model, op, others, later);
    es := before + part;
  }

  /** One step of a session. */
  lemma SessionNext(taken: seq<Taken>, stream: string, line: string, rest: string)
    requires CommandLine(stream) == (line, rest) && line != ""
    ensures var r := ParseCommand(line); var n := PayloadLength(r, rest);
            taken + Session(stream) == (taken + [Taken(r, rest[..n])]) + if r.Quit? then [] else Session(rest[n..])
  {
  }

  /** Reading and parsing the next line; `more` says whether there is a command to serve, `quit`
      whether the client said goodbye. */
  method NextCommand(client: Descriptor, ghost before: seq<Taken>)
    returns (more: bool, quit: bool, r: Request, ghost taken: seq<Taken>)
    modifies client`incoming
    ensures more ==> !r.Quit? && (r.UploadRequest? ==> r.size > 0)
    ensures more ==> before + Session(old(client.incoming))
                     == taken + Session(client.incoming[PayloadLength(r, client.incoming)..])
    ensures more ==> Session(old(client.incoming))
                     == [Taken(r, client.incoming[..PayloadLength(r, client.incoming)])]
                        + Session(client.incoming[PayloadLength(r, client.incoming)..])
    ensures more ==> taken == before + [Taken(r, client.incoming[..PayloadLength(r, client.incoming)])]
    ensures more ==> |client.incoming| < |old(client.incoming)|
    ensures !more ==> taken == before + Session(old(client.incoming))
    ensures !more ==> taken == if quit then before + [Taken(Quit, "")] else before
  {
    ghost var stream := client.incoming;
    var line := ReadLine(client);
    if line == "" {
      return false, false, Quit, before;
    }
    SessionNext(before, stream, line, client.incoming);
    r := ParseCommand(line);
    more, quit := !r.Quit?, r.Quit?;
    taken := before + [Taken(r, client.incoming[..PayloadLength(r, client.incoming)])];
  }

  /** The state after these commands. */
  function Reached(start: State, served: seq<Served>): State {
    if served == [] then start else served[|served| - 1].to
  }

  /** Every request has been served, each after whatever others did since the one before. */
  ghost predicate ServesAll(start: State, served: seq<Served>, taken: seq<Taken>, weather: nat -> Weather, op: nat,
                            others: Company, replies: seq<Reply>) {
    && |served| == |taken| == |replies|
    && forall i: nat :: i < |taken| ==>
         ServedRight(Reached(start, served[..i]), served[i], taken[i], weather(i), op, others, replies[i])
  }

  lemma ServesOneMore(start: State, served: seq<Served>, taken: seq<Taken>, weather: nat -> Weather, op: nat,
                      others: Company, replies: seq<Reply>, v: Served, q: Taken, reply: Reply)
    requires ServesAll(start, served, taken, weather, op, others, replies)
    requires ServedRight(Reached(start, served), v, q, weather(|taken|), op, others, reply)
    ensures ServesAll(start, served + [v], taken + [q], weather, op, others, replies + [reply])
    ensures Reached(start, served + [v]) == v.to
  {
    hide ServedRight;
    var all := served + [v];
    forall i: nat | i < |all|
      ensures ServedRight(Reached(start, all[..i]), all[i], (taken + [q])[i], weather(i), op, others,
                          (replies + [reply])[i])
    {
      assert all[..i] == served[..i];
      if i < |served| {
        assert all[i] == served[i] && (taken + [q])[i] == taken[i] && (replies + [reply])[i] == replies[i];
      } else {
        assert served[..i] == served;
      }
    }
  }

  lemma ServesNothing(start: State, weather: nat -> Weather, op: nat, others: Company)
    ensures ServesAll(start, [], [], weather, op, others, []) && Reached(start, []) == start
  {
  }

  /** Others run until the next line has been read. */
  method LetOthersRun(server: Server, ghost op: nat, others: Company, ghost session: seq<Taken>, ghost m0: State,
                      ghost before: seq<Event>)
    returns (ghost turn: seq<Event>, ghost es: seq<Event>)
    requires server.Valid() && Ready(server.model, op) && AllFree(server.model, session)
    requires SparesAll(others, session) && Ran(m0, before, server.model)
    modifies server, server.index, server.index.nodeBytes
    ensures server.Valid() && Ready(server.model, op) && AllFree(server.model, session)
    ensures Ran(m0, es, server.model) && Meanwhile(old(server.model), turn, server.model, op, others)
    ensures others.Alone? ==> server.model == old(server.model)
  {
    hide IsRun, End, Shaped, IndexAgrees, Free, AllFree, SparesAll;
    ghost var m := server.model;
    turn := server.LetOthers(op, others);
    RanBoth(m0, before, m, turn, server.model);
    RunKeepsInv(m, turn);
    StaysFree(m, turn, server.model, op, others, session);
    if others.Alone? {
      AloneNothing(m, turn, server.model, op);
    }
    es := before + turn;
  }

  /** The loop. It takes exactly the requests that the stream means off it, each with exactly its
      payload, until the stream ends, a line is empty, or the client quits; it serves every one
      of them as it should, whatever other clients do on names that this one does not write; and
      all of it is one run of the state machine. */
  method HandleClient(server: Server, ghost op: nat, client: Descriptor, weather: nat -> Weather, others: Company)
    returns (replies: seq<Reply>, ghost taken: seq<Taken>, ghost served: seq<Served>, ghost es: seq<Event>)
    requires server.Valid() && Ready(server.model, op) && AllFree(server.model, Session(client.incoming))
    requires SparesAll(others, Session(client.incoming))
    modifies server, server.index, server.index.nodeBytes, client`incoming
    ensures server.Valid() && Ready(server.model, op) && Ran(old(server.model), es, server.model)
    ensures others.Alone? ==> SameFlights(old(server.model), server.model)
    ensures taken == Session(old(client.incoming))
    ensures ServesAll(old(server.model), served, taken, weather, op, others, replies)
  {
    hide IsRun, End, Shaped, IndexAgrees, Serves, Obeys, Ready, AllFree, Meanwhile, ServesAll, Reached, Session;
    hide SparesAll;
    ghost var m0 := server.model;
    ReadyShaped(m0, op);
    RanNothing(m0);
    ServesNothing(m0, weather, op, others);
    replies, taken, served, es := [], [], [], [];
    while true
      invariant server.Valid() && Ready(server.model, op) && Ran(m0, es, server.model)
      invariant others.Alone? ==> SameFlights(m0, server.model)
      invariant AllFree(server.model, Session(client.incoming)) && SparesAll(others, Session(client.incoming))
      invariant taken + Session(client.incoming) == Session(old(client.incoming)) && |taken| == |replies|
      invariant ServesAll(m0, served, taken, weather, op, others, replies) && Reached(m0, served) == server.model
      decreases |client.incoming|
    {
      ghost var before, session, turn := taken, Session(client.incoming), [];
      turn, es := LetOthersRun(server, op, others, session, m0, es);
      ghost var m := server.model;
      var more, quit, r;
      more, quit, r, taken := NextCommand(client, taken);
      if !more {
        if quit {
          ghost var v := Served(turn, m, [], Nothing, m);
          QuitServed(m0, served, before, weather, op, others, replies, v);
          replies, served := replies + [Plain], served + [v];
        }
        return;
      }
      ghost var q := Taken(r, client.incoming[..PayloadLength(r, client.incoming)]);
      ghost var later := Session(client.incoming[PayloadLength(r, client.incoming)..]);
      FreeNext(m, session, q, later, others);
      var reply;
      ghost var deed, part;
      reply, deed, part, es := ServeNext(server, op, client, r, weather(|replies|), others, later, m0, es);
      ghost var v := Served(turn, m, part, deed, server.model);
      ServesOneMore(m0, served, before, weather, op, others, replies, v, q, reply);
      replies, served := replies + [reply], served + [v];
    }
  }

  lemma ReadyShaped(s: State, op: nat)
    requires Ready(s, op)
    ensures Shaped(s)
  {
  }

  lemma FreeNext(s: State, session: seq<Taken>, q: Taken, later: seq<Taken>, others: Company)
    requires AllFree(s, session) && SparesAll(others, session) && session == [q] + later
    ensures Free(s, q.request) && AllFree(s, later) && SparesAll(others, later)
  {
    assert q in session;
    forall x | x in later ensures Free(s, x.request) {
      assert x in session;
    }
  }

  lemma QuitServed(start: State, served: seq<Served>, taken: seq<Taken>, weather: nat -> Weather, op: nat,
                   others: Company, replies: seq<Reply>, v: Served)
    requires ServesAll(start, served, taken, weather, op, others, replies)
    requires Meanwhile(Reached(start, served), v.turn, v.from, op, others)
    requires v.es == [] && v.to == v.from && Shaped(v.from)
    ensures ServesAll(start, served + [v], taken + [Taken(Quit, "")], weather, op, others, replies + [Plain])
  {
    RanNothing(v.from);
    ServesOneMore(start, served, taken, weather, op, others, replies, v, Taken(Quit, ""), Plain);
  }
}
