/** KILL_NODE and the round of health_check_loop. */
module Maintenance {
  import opened Wrappers
  import opened Text
  import opened Statuses
  import opened Cluster
  import opened Runs
  import opened Steps
  import opened Coordinator

  datatype KillReply = BadNode | AlreadyOffline | AlreadyUnreachable | Killed

  /** KILL_NODE: a node that is alive and can be reached leaves the index and is dead, its total
      unchanged. */
  method HandleKill(server: Server, node: int, reachable: bool) returns (reply: KillReply, ghost es: seq<Event>)
    requires server.Valid()
    modifies server`model, server`deadNodes, server.index
    ensures server.Valid() && Ran(old(server.model), es, server.model)
    ensures SameFlights(old(server.model), server.model) && server.model.stamps == old(server.model).stamps
    ensures server.model.disks == old(server.model).disks && server.model.meta == old(server.model).meta
    ensures reply.BadNode? <==> !(0 <= node < server.cfg.nodes)
    ensures reply.AlreadyOffline? <==> 0 <= node < server.cfg.nodes && node in old(server.deadNodes)
    ensures reply.Killed? <==> 0 <= node < server.cfg.nodes && node !in old(server.deadNodes) && reachable
    ensures server.index.View().bytes == old(server.index.View().bytes)
    ensures if reply.Killed? then
              && server.deadNodes == old(server.deadNodes) + {node}
              && forall e :: e in server.index.minHeap <==> e in old(server.index.minHeap) && e.1 != node
            else server.model == old(server.model)
    ensures es == if reply.Killed? then [Kill(node)] else []
  {
    RanNothing(server.model);
    es := [];
    if node < 0 || node >= server.cfg.nodes {
      return BadNode, es;
    }
    if node in server.deadNodes {
      return AlreadyOffline, es;
    }
    if !reachable {
      return AlreadyUnreachable, es;
    }
    ghost var m := server.model;
    server.KillNode(node);
    RanOne(m, Kill(node), server.model);
    reply, es := Killed, [Kill(node)];
  }

  /** What one round has done so far: of the dead nodes, those whose reply reports a total are back
      under it. */
  ghost predicate Revived(s: State, t: State, asked: set<nat>, replies: nat -> Option<string>) {
    && |t.load.bytes| == |s.load.bytes| == s.cfg.nodes && t.cfg == s.cfg
    && t.dead == s.dead - (set i | i in asked && Reported(replies(i)).Some?)
    && t.stamps == s.stamps && t.meta == s.meta && t.disks == s.disks && t.contents == s.contents
    && t.uploads == s.uploads && t.pending == s.pending
    && forall i: nat {:trigger t.load.bytes[i]} :: i < s.cfg.nodes ==>
         t.load.bytes[i]
         == if i in asked && Reported(replies(i)).Some? then Reported(replies(i)).value else s.load.bytes[i]
  }

  lemma RevivedOne(s: State, t: State, asked: set<nat>, replies: nat -> Option<string>, node: nat)
    requires Revived(s, t, asked, replies) && Shaped(t) && node < s.cfg.nodes && node !in asked
    requires Reported(replies(node)).Some?
    ensures Revived(s, DoRevive(t, node, Reported(replies(node)).value), asked + {node}, replies)
  {
    hide Reported;
    var u := DoRevive(t, node, Reported(replies(node)).value);
    assert u.dead == s.dead - (set i | i in asked + {node} && Reported(replies(i)).Some?);
  }

  lemma RevivedNone(s: State, t: State, asked: set<nat>, replies: nat -> Option<string>, node: nat)
    requires Revived(s, t, asked, replies) && Reported(replies(node)).None?
    ensures Revived(s, t, asked + {node}, replies)
  {
    hide Reported;
    assert (set i | i in asked + {node} && Reported(replies(i)).Some?)
           == set i | i in asked && Reported(replies(i)).Some?;
  }

  method CheckNode(server: Server, node: nat, replies: nat -> Option<string>, ghost asked: set<nat>, ghost m0: State,
                   ghost before: seq<Event>)
    returns (ghost es: seq<Event>)
    requires server.Valid() && Ran(m0, before, server.model) && Revived(m0, server.model, asked, replies)
    requires node < server.cfg.nodes && node !in asked
    modifies server`model, server`deadNodes, server.index, server.index.nodeBytes
    ensures server.Valid() && Ran(m0, es, server.model) && Revived(m0, server.model, asked + {node}, replies)
  {
    hide IsRun, End, Reported;
    ghost var m := server.model;
    es := before;
    var total := Reported(replies(node));
    if total.Some? {
      server.ReviveNode(node, total.value);
      RevivedOne(m0, m, asked, replies, node);
      RanOn(m0, before, m, Revive(node, total.value), server.model);
      es := before + [Revive(node, total.value)];
    } else {
      RevivedNone(m0, m, asked, replies, node);
    }
  }

  /** If a node with any such files sent this reply, it is back under the bytes it has cached. */
  ghost predicate BackAs(t: State, i: nat, reply: Option<string>)
    requires i < |t.load.bytes|
  {
    forall files, cached :: Tells(reply, files, cached) ==>
      i !in t.dead && t.load.bytes[i] == if |files| <= INT_MAX then Clamp(cached, 0, LONG_MAX) else 0
  }

  ghost predicate BackUnderCache(s: State, t: State, replies: nat -> Option<string>) {
    forall i :: i in s.dead && i < |t.load.bytes| ==> BackAs(t, i, replies(i))
  }

  lemma RevivedUnderCache(s: State, t: State, replies: nat -> Option<string>)
    requires Revived(s, t, s.dead, replies)
    ensures BackUnderCache(s, t, replies)
  {
    hide Reported, Tells;
    forall i | i in s.dead && i < |t.load.bytes| ensures BackAs(t, i, replies(i)) {
      forall files, cached | Tells(replies(i), files, cached)
        ensures i !in t.dead && t.load.bytes[i] == if |files| <= INT_MAX then Clamp(cached, 0, LONG_MAX) else 0
      {
        ReplyTells(replies(i), files, cached);
      }
    }
  }

  /** One round of health_check_loop: every node that was dead at its start is asked; those whose
      reply is a report, and no others, are back in the index under the total it reports. That is
      the cached total of the node, and where the cache is exact, what its files add up to. */
  method HealthCheck(server: Server, replies: nat -> Option<string>) returns (ghost es: seq<Event>)
    requires server.Valid()
    modifies server`model, server`deadNodes, server.index, server.index.nodeBytes
    ensures server.Valid() && Ran(old(server.model), es, server.model)
    ensures Revived(old(server.model), server.model, old(server.deadNodes), replies)
    ensures BackUnderCache(old(server.model), server.model, replies)
  {
    hide IsRun, End, Reported, BackUnderCache;
    ghost var m0 := server.model;
    var toCheck := server.deadNodes;
    ghost var asked: set<nat> := {};
    RanNothing(m0);
    RevivedNobody(m0, replies);
    es := [];
    while toCheck != {}
      invariant server.Valid() && Ran(m0, es, server.model) && Revived(m0, server.model, asked, replies)
      invariant toCheck + asked == m0.dead && toCheck !! asked
      decreases |toCheck|
    {
      var node :| node in toCheck;
      toCheck := toCheck - {node};
      es := CheckNode(server, node, replies, asked, m0, es);
      asked := asked + {node};
    }
    assert asked == m0.dead;
    RevivedUnderCache(m0, server.model, replies);
  }

  lemma RevivedNobody(s: State, replies: nat -> Option<string>)
    requires Shaped(s)
    ensures Revived(s, s, {}, replies)
  {
  }
}
