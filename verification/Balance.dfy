/** How well placement balances the nodes, under any interleaving: node failures, downloads,
    consecutive and concurrent uploads. */
module Balance {
  import opened Load
  import opened Cluster
  import opened Invariants
  import opened Bytes
  import opened Runs

  function Gap(s: State, a: nat, b: nat): nat
    requires a < |s.load.bytes| && b < |s.load.bytes|
  {
    if s.load.bytes[a] <= s.load.bytes[b] then s.load.bytes[b] - s.load.bytes[a]
    else s.load.bytes[a] - s.load.bytes[b]
  }

  function Max(a: int, b: int): int {
    if a <= b then b else a
  }

  /** The uploads that have chosen nodes for a chunk and not yet reserved its bytes. */
  function Choosing(s: State): set<nat> {
    set o | o in s.uploads && s.uploads[o].phase.Selected?
  }

  /** Those that will put their chunk on x and not on y. */
  function Favouring(s: State, x: nat, y: nat): set<nat> {
    set o | o in s.uploads && s.uploads[o].phase.Selected?
            && x in s.uploads[o].phase.chosen && y !in s.uploads[o].phase.chosen
  }

  /** Whatever releases bytes releases as many on a as on b. All other events qualify. */
  ghost predicate Even(s: State, e: Event, a: nat, b: nat)
    requires Enabled(s, e)
  {
    match e
    case Abort(op) => BytesOn(Flatten(s.uploads[op].chunks), a) == BytesOn(Flatten(s.uploads[op].chunks), b)
    case Commit(op) => BytesOn(PriorCopies(s.uploads[op]), a) == BytesOn(PriorCopies(s.uploads[op]), b)
    case DeleteCopy(op, outcome, _) =>
      var node := Flatten(s.deletions[op].meta.chunks)[s.deletions[op].pos].node;
      outcome.Acknowledged? ==> node != a && node != b
    case Revive(node, _) => node != a && node != b
    case _ => true
  }

  /** a and b stay up through the run, releases are even, and at no time have more than m uploads
      chosen nodes without having reserved. */
  ghost predicate Steady(s: State, es: seq<Event>, a: nat, b: nat, m: nat)
    requires IsRun(s, es)
    decreases |es|
  {
    && a !in s.dead && b !in s.dead && |Choosing(s)| <= m
    && (es == [] || (Even(s, es[0], a, b) && Steady(Apply(s, es[0]), es[1..], a, b, m)))
  }

  /** Uploads that are past connecting have both nodes. */
  predicate Joined(s: State, a: nat, b: nat) {
    forall o :: o in s.uploads && Connected(s.uploads[o]) ==> a in s.uploads[o].fds && b in s.uploads[o].fds
  }

  predicate Connected(u: Upload) {
    u.phase.Receiving? || u.phase.Selected? || u.phase.Storing?
  }

  /** How much x can be ahead of y once every choice made has been reserved. */
  function Lean(s: State, x: nat, y: nat): int
    requires x < |s.load.bytes| && y < |s.load.bytes|
  {
    s.load.bytes[x] - s.load.bytes[y] + s.cfg.chunk * |Favouring(s, x, y)|
  }

  // ------------------------------------------------------------------------ one event

  lemma ReservedAt(s: State, op: nat, a: nat)
    requires Shaped(s) && Enabled(s, Reserve(op)) && a < s.cfg.nodes
    ensures DoReserve(s, op).load.bytes[a]
            == s.load.bytes[a] + if a in s.uploads[op].phase.chosen then |Piece(s.uploads[op], s.cfg)| else 0
  {
    var u := s.uploads[op];
    var c := Current(u, s.cfg, u.phase.chosen);
    AdjustBytes(s.load, CopiesOf(c), 1, a);
    BytesOfDistinct(c, u.phase.chosen, a);
    assert c.(ids := u.phase.chosen) == c;
  }

  /** A failed replica gives its reservation back and is no longer connected. */
  lemma SettledAt(s: State, op: nat, a: nat)
    requires Shaped(s) && Enabled(s, Settle(op)) && a < s.cfg.nodes
    requires a !in DoSettle(s, op).dead
    ensures DoSettle(s, op).load.bytes[a] == s.load.bytes[a]
    ensures a in DoSettle(s, op).uploads[op].fds <==> a in s.uploads[op].fds
  {
    var u := s.uploads[op];
    var bad := Answered(u.phase.chosen, u.phase.answers, false);
    AnsweredFacts(u.phase.chosen, u.phase.answers, false);
    var c := Current(u, s.cfg, bad);
    AdjustBytes(s.load, CopiesOf(c), -1, a);
    BytesOfDistinct(c, bad, a);
    assert c.(ids := bad) == c;
  }

  lemma ConnectJoins(s: State, op: nat, unreachable: set<nat>, a: nat)
    requires Sound(s) && Enabled(s, Connect(op, unreachable)) && a < s.cfg.nodes
    requires a !in s.dead && a !in DoConnect(s, op, unreachable).dead
    ensures a in DoConnect(s, op, unreachable).uploads[op].fds
  {
    IndexVisitsLiveNodes(s);
  }

  /** An event of an upload leaves the other uploads as they are. */
  ghost predicate OthersSame(s: State, t: State, op: nat) {
    t.cfg == s.cfg
    && forall o :: o != op ==>
         ((o in t.uploads <==> o in s.uploads) && (o in s.uploads ==> t.uploads[o] == s.uploads[o]))
  }

  lemma ReplacedOnly(s: State, t: State, op: nat)
    requires ReplacesUpload(s, t, op)
    ensures OthersSame(s, t, op)
  {
  }

  lemma ChangesOne(s: State, e: Event)
    requires Shaped(s) && Enabled(s, e) && OfUpload(e)
    ensures OthersSame(s, ApplyUpload(s, e), e.op)
  {
    if InPlace(e) {
      hide *;
      InPlaceReplaces(s, e);
      ReplacedOnly(s, ApplyUpload(s, e), e.op);
    } else if e.Admit? {
      AddsOne(s, e.op, e.name, e.content);
    } else {
      RemovesOne(s, e.op);
    }
  }

  lemma AddsOne(s: State, op: nat, name: string, content: string)
    ensures OthersSame(s, DoAdmit(s, op, name, content), op)
  {
  }

  lemma RemovesOne(s: State, op: nat)
    requires Shaped(s) && op in s.uploads
    ensures OthersSame(s, DoAbort(s, op), op) && OthersSame(s, DoCommit(s, op), op)
  {
  }

  lemma ChangesNone(s: State, e: Event)
    requires Shaped(s) && Enabled(s, e) && !OfUpload(e)
    ensures Apply(s, e).uploads == s.uploads && Apply(s, e).cfg == s.cfg
  {
  }

  lemma StaysJoined(s: State, e: Event, a: nat)
    requires Sound(s) && Enabled(s, e) && OfUpload(e) && a < s.cfg.nodes && a !in s.dead && a !in ApplyUpload(s, e).dead
    requires e.op in s.uploads && Connected(s.uploads[e.op]) ==> a in s.uploads[e.op].fds
    ensures var t := ApplyUpload(s, e);
            e.op in t.uploads && Connected(t.uploads[e.op]) ==> a in t.uploads[e.op].fds
  {
    if e.Connect? {
      ConnectJoins(s, e.op, e.unreachable, a);
    } else if e.Settle? {
      SettledAt(s, e.op, a);
    }
  }

  lemma JoinedKept(s: State, e: Event, a: nat, b: nat)
    requires Sound(s) && Enabled(s, e) && Joined(s, a, b) && a < s.cfg.nodes && b < s.cfg.nodes
    requires a !in s.dead && b !in s.dead && a !in Apply(s, e).dead && b !in Apply(s, e).dead
    ensures Joined(Apply(s, e), a, b)
  {
    hide Shaped, IndexAgrees, Enabled, ApplyUpload, Connected;
    if OfUpload(e) {
      ChangesOne(s, e);
      StaysJoined(s, e, a);
      StaysJoined(s, e, b);
    } else {
      ChangesNone(s, e);
    }
  }

  lemma ReserveChoices(s: State, op: nat, x: nat, y: nat)
    requires Shaped(s) && Enabled(s, Reserve(op))
    ensures Favouring(DoReserve(s, op), x, y) == Favouring(s, x, y) - {op} && DoReserve(s, op).cfg == s.cfg
  {
  }

  /** Reserving carries out a choice that has been counted already. */
  lemma ReserveLean(s: State, op: nat, x: nat, y: nat)
    requires Shaped(s) && Enabled(s, Reserve(op)) && x < s.cfg.nodes && y < s.cfg.nodes
    ensures Lean(DoReserve(s, op), x, y) <= Lean(s, x, y)
  {
    hide Shaped, DoReserve, Piece, Adjust;
    var u := s.uploads[op];
    ReservedAt(s, op, x);
    ReservedAt(s, op, y);
    PieceSize(u, s.cfg);
    ReserveChoices(s, op, x, y);
    if x in u.phase.chosen && y !in u.phase.chosen {
      assert op in Favouring(s, x, y);
      Distribute(s.cfg.chunk, |Favouring(s, x, y) - {op}|);
    } else {
      assert op !in Favouring(s, x, y);
      assert Favouring(s, x, y) - {op} == Favouring(s, x, y);
    }
  }

  lemma PieceSize(u: Upload, cfg: Config)
    ensures |Piece(u, cfg)| <= cfg.chunk
  {
  }

  lemma AheadOfLean(s: State, x: nat, y: nat)
    requires x < |s.load.bytes| && y < |s.load.bytes|
    ensures s.load.bytes[x] - s.load.bytes[y] <= Lean(s, x, y)
  {
  }

  lemma Distribute(c: nat, n: nat)
    ensures c * (n + 1) == c * n + c
  {
  }

  lemma SelectLean(s: State, op: nat, chosen: seq<nat>, x: nat, y: nat, m: nat)
    requires Shaped(s) && Enabled(s, Select(op, chosen)) && x < s.cfg.nodes && y < s.cfg.nodes
    requires y in s.uploads[op].fds && y !in s.dead && |Choosing(DoSelect(s, op, chosen))| <= m
    ensures Lean(DoSelect(s, op, chosen), x, y) <= Max(Lean(s, x, y), s.cfg.chunk * m)
  {
    var t := DoSelect(s, op, chosen);
    if x in chosen && y !in chosen {
      assert s.load.bytes[x] <= s.load.bytes[y] by { assert Lighter(s.load.bytes, x, y); }
      FavouringSize(t, x, y, m);
    } else {
      assert Favouring(t, x, y) == Favouring(s, x, y);
    }
  }

  lemma FavouringSize(s: State, x: nat, y: nat, m: nat)
    requires |Choosing(s)| <= m
    ensures s.cfg.chunk * |Favouring(s, x, y)| <= s.cfg.chunk * m
  {
    SubsetSize(Favouring(s, x, y), Choosing(s));
    var k := m - |Favouring(s, x, y)|;
    assert s.cfg.chunk * m == s.cfg.chunk * |Favouring(s, x, y)| + s.cfg.chunk * k;
  }

  /** What an event that is neither a choice nor a reservation does to two nodes. */
  lemma OthersKeepDistance(s: State, e: Event, x: nat, y: nat)
    requires Shaped(s) && Enabled(s, e) && Even(s, e, x, y) && x < s.cfg.nodes && y < s.cfg.nodes
    requires !e.Select? && !e.Reserve? && x !in Apply(s, e).dead && y !in Apply(s, e).dead
    ensures x < |Apply(s, e).load.bytes| && y < |Apply(s, e).load.bytes|
    ensures Apply(s, e).load.bytes[x] - Apply(s, e).load.bytes[y] == s.load.bytes[x] - s.load.bytes[y]
  {
    if e.Settle? {
      SettledAt(s, e.op, x);
      SettledAt(s, e.op, y);
    } else if e.Abort? {
      var copies := Flatten(s.uploads[e.op].chunks);
      AdjustBytes(s.load, copies, -1, x);
      AdjustBytes(s.load, copies, -1, y);
    } else if e.Commit? {
      var copies := PriorCopies(s.uploads[e.op]);
      AdjustBytes(s.load, copies, -1, x);
      AdjustBytes(s.load, copies, -1, y);
    } else if e.DeleteCopy? {
      var c := Flatten(s.deletions[e.op].meta.chunks)[s.deletions[e.op].pos];
      AdjustBytes(s.load, [c], -1, x);
      AdjustBytes(s.load, [c], -1, y);
    }
  }

  lemma NotChoosing(s: State, e: Event)
    requires Shaped(s) && Enabled(s, e) && OfUpload(e) && !e.Select? && !e.Reserve?
    ensures e.op in s.uploads ==> !s.uploads[e.op].phase.Selected?
    ensures e.op in ApplyUpload(s, e).uploads ==> !ApplyUpload(s, e).uploads[e.op].phase.Selected?
  {
  }

  lemma OthersKeepChoices(s: State, e: Event, x: nat, y: nat)
    requires Shaped(s) && Enabled(s, e) && !e.Select? && !e.Reserve?
    ensures Favouring(Apply(s, e), x, y) == Favouring(s, x, y) && Apply(s, e).cfg == s.cfg
  {
    hide Shaped, Enabled, ApplyUpload;
    if OfUpload(e) {
      ChangesOne(s, e);
      NotChoosing(s, e);
    } else {
      ChangesNone(s, e);
    }
  }

  lemma LeanKept(s: State, e: Event, x: nat, y: nat, m: nat, bound: int)
    requires Sound(s) && Enabled(s, e) && Even(s, e, x, y) && Joined(s, x, y)
    requires x < s.cfg.nodes && y < s.cfg.nodes && x !in s.dead && y !in s.dead
    requires x !in Apply(s, e).dead && y !in Apply(s, e).dead && |Choosing(Apply(s, e))| <= m
    requires Lean(s, x, y) <= bound && s.cfg.chunk * m <= bound
    ensures x < |Apply(s, e).load.bytes| && y < |Apply(s, e).load.bytes| && Lean(Apply(s, e), x, y) <= bound
  {
    if e.Select? {
      SelectLean(s, e.op, e.chosen, x, y, m);
    } else if e.Reserve? {
      ReserveLean(s, e.op, x, y);
    } else {
      OthersKeepDistance(s, e, x, y);
      OthersKeepChoices(s, e, x, y);
    }
  }

  // ------------------------------------------------------------------------- whole runs

  lemma {:induction false} RunKeepsLean(s: State, es: seq<Event>, x: nat, y: nat, m: nat, bound: int)
    requires IsRun(s, es) && Sound(s) && Steady(s, es, x, y, m) && Joined(s, x, y)
    requires x < s.cfg.nodes && y < s.cfg.nodes && Lean(s, x, y) <= bound && s.cfg.chunk * m <= bound
    ensures x < |End(s, es).load.bytes| && y < |End(s, es).load.bytes|
    ensures End(s, es).load.bytes[x] - End(s, es).load.bytes[y] <= bound
    decreases |es|
  {
    hide Sound, Joined, Lean, Even, Choosing, Enabled;
    AheadOfLean(s, x, y);
    if es != [] {
      var t := Apply(s, es[0]);
      SoundKept(s, es[0]);
      LeanKept(s, es[0], x, y, m, bound);
      JoinedKept(s, es[0], x, y);
      RunKeepsLean(t, es[1..], x, y, m, bound);
    }
  }

  lemma {:induction false} SteadySwaps(s: State, es: seq<Event>, a: nat, b: nat, m: nat)
    requires IsRun(s, es) && Steady(s, es, a, b, m)
    ensures Steady(s, es, b, a, m)
    decreases |es|
  {
    if es != [] {
      SteadySwaps(Apply(s, es[0]), es[1..], a, b, m);
    }
  }

  /** For any number of uploads, chunks, nodes and replicas, over any run in which two nodes stay
      up and are released evenly: they end no further apart than they were, or than one chunk for
      every upload that may have chosen its nodes and not yet reserved. */
  lemma LoadStaysBalanced(s: State, es: seq<Event>, a: nat, b: nat, m: nat)
    requires IsRun(s, es) && Sound(s) && Steady(s, es, a, b, m)
    requires a < s.cfg.nodes && b < s.cfg.nodes && Joined(s, a, b)
    ensures a < |End(s, es).load.bytes| && b < |End(s, es).load.bytes|
    ensures Gap(End(s, es), a, b) <= Max(Gap(s, a, b) + s.cfg.chunk * |Choosing(s)|, s.cfg.chunk * m)
  {
    var bound := Max(Gap(s, a, b) + s.cfg.chunk * |Choosing(s)|, s.cfg.chunk * m);
    FavouringSize(s, a, b, |Choosing(s)|);
    FavouringSize(s, b, a, |Choosing(s)|);
    RunKeepsLean(s, es, a, b, m, bound);
    SteadySwaps(s, es, a, b, m);
    RunKeepsLean(s, es, b, a, m, bound);
  }

  /** One upload at a time: the gap never exceeds what it was or one chunk, whatever nodes other
      than these two are killed, found dead or come back, and however many uploads follow. */
  lemma OneUploadAtATime(s: State, es: seq<Event>, a: nat, b: nat)
    requires Reachable(s) && IsRun(s, es) && Steady(s, es, a, b, 1)
    requires a < s.cfg.nodes && b < s.cfg.nodes && Joined(s, a, b) && Choosing(s) == {}
    ensures a < |s.load.bytes| && b < |s.load.bytes| && a < |End(s, es).load.bytes| && b < |End(s, es).load.bytes|
    ensures Gap(End(s, es), a, b) <= Max(Gap(s, a, b), s.cfg.chunk)
  {
    ReachableInv(s);
    LoadStaysBalanced(s, es, a, b, 1);
  }
}
