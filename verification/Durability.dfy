/** Acknowledged chunks survive: whole runs of a node in which operations on other names
    complete, throw or are cut off anywhere, and boots succeed, throw or are cut off too. */
module Durability {
  import opened Journal
  import opened CrashRecovery
  import opened Logs

  datatype Node = Node(disk: Disk, up: bool)

  datatype Event =
    | Perform(op: Op)                    // the operation returns
    | CrashDuring(op: Op, step: nat)     // the process dies after this micro-step
    | CrashIdle
    | BootUp
    | CrashInBoot(step: nat)             // 0: right after the storage directory is mounted

  predicate Enabled(n: Node, e: Event) {
    match e
    case Perform(op) => n.up && !Throws(op, n.disk)
    case CrashDuring(op, step) => n.up && step < |Steps(op, n.disk)|
    case CrashIdle => n.up
    case BootUp => !n.up
    case CrashInBoot(step) => !n.up && step <= |BootSteps(n.disk)|
  }

  function Apply(n: Node, e: Event): Node
    requires Enabled(n, e)
  {
    match e
    case Perform(op) => Node(Last(n.disk, Steps(op, n.disk)), true)
    case CrashDuring(op, step) => Node(Steps(op, n.disk)[step], false)
    case CrashIdle => Node(n.disk, false)
    case BootUp => Node(Recover(n.disk).disk, Recover(n.disk).Up?)
    case CrashInBoot(step) =>
      Node(if step == 0 then Mounted(n.disk) else BootSteps(n.disk)[step - 1], false)
  }

  predicate Touches(e: Event, name: string) {
    (e.Perform? || e.CrashDuring?) && e.op.name == name
  }

  /** A run that leaves `name` alone. */
  predicate RunWithout(n: Node, es: seq<Event>, name: string)
    decreases |es|
  {
    es == [] || (Enabled(n, es[0]) && !Touches(es[0], name) && RunWithout(Apply(n, es[0]), es[1..], name))
  }

  function After(n: Node, es: seq<Event>, name: string): Node
    requires RunWithout(n, es, name)
    decreases |es|
  {
    if es == [] then n else After(Apply(n, es[0]), es[1..], name)
  }

  /** The chunk is complete on disk and no journal entry, live or stale, names it. */
  predicate Safe(d: Disk, name: string, bytes: string) {
    && name in d.files && d.files[name] == bytes
    && d.modifying != name && d.status != "c"
  }

  lemma BodyKeepsOthers(op: Op, d: Disk, name: string, bytes: string)
    requires op.name != name && Safe(d, name, bytes)
    ensures forall e :: e in Body(op, d) ==> Safe(e, name, bytes)
  {
    match op {
      case Create(n, blocks) => WriteStepsShape(d, n, "", blocks);
      case Delete(n) =>
      case Replace(n, blocks) =>
        var mid := Last(d, DeleteBody(d, n));
        WriteStepsShape(mid, n, "", blocks);
        assert Safe(mid, name, bytes);
        forall e | e in CreateBody(mid, n, blocks) ensures Safe(e, name, bytes) {}
    }
  }

  lemma StepsKeepOthers(op: Op, d: Disk, name: string, bytes: string)
    requires op.name != name && Safe(d, name, bytes) && name != ROOT
    ensures forall e :: e in Steps(op, d) ==> Safe(e, name, bytes)
  {
    var m := Started(d, op.name);
    BodyKeepsOthers(op, m, name, bytes);
    var last := Last(m, Body(op, m));
    assert Safe(last, name, bytes);
    forall e | e in Steps(op, d) ensures Safe(e, name, bytes) {
      assert e in StartSteps(d, op.name) || e in Body(op, m) || e in EndSteps(last);
    }
  }

  lemma EventKeepsSafe(n: Node, e: Event, name: string, bytes: string)
    requires Enabled(n, e) && !Touches(e, name) && name != ROOT
    requires Safe(n.disk, name, bytes)
    ensures Safe(Apply(n, e).disk, name, bytes)
  {
    if e.Perform? || e.CrashDuring? {
      StepsKeepOthers(e.op, n.disk, name, bytes);
    } else if !n.up && Interrupted(n.disk) {
      var m := Mounted(n.disk);
      StepsKeepOthers(Delete(m.modifying), m, name, bytes);
    }
  }

  /** Whatever happens to other names, across any number of crashes and boots. */
  lemma {:induction false} SafeForever(n: Node, es: seq<Event>, name: string, bytes: string)
    requires RunWithout(n, es, name) && name != ROOT
    requires Safe(n.disk, name, bytes)
    ensures Safe(After(n, es, name).disk, name, bytes)
    decreases |es|
  {
    if es != [] {
      EventKeepsSafe(n, es[0], name, bytes);
      SafeForever(Apply(n, es[0]), es[1..], name, bytes);
    }
  }

  /** The operation handle_store chooses: replace what exists, create what does not. */
  function StoreOp(d: Disk, name: string, blocks: seq<string>): Op {
    if Exists(d, name) then Replace(name, blocks) else Create(name, blocks)
  }

  /** What handle_store leaves in the log. */
  ghost predicate StoreLogged(d: Disk, name: string, blocks: seq<string>,
                              disks: seq<Disk>, disks': seq<Disk>, sends: seq<Sent>, sends': seq<Sent>)
  {
    && disks' == disks + Steps(StoreOp(d, name, blocks), d)
    && SaidPart(sends, sends', |disks'|, "OK\n")
  }

  /** The disk a crash leaves, when nothing has been changed before `first`. */
  function DiskAt(first: Disk, disks: seq<Disk>, i: nat): Disk
    requires i <= |disks|
  {
    if i == 0 then first else disks[i - 1]
  }

  /** Wherever the process dies after the first `said` sends, and whatever is done to other names
      from then on, across any number of crashes and boots: the file holds these bytes. */
  ghost predicate Permanent(d: Disk, disks: seq<Disk>, sends: seq<Sent>, said: nat, name: string, bytes: string) {
    forall i: nat, j: nat, up: bool, es: seq<Event> ::
      CrashPoint(disks, sends, i, j) && j > said && RunWithout(Node(DiskAt(d, disks, i), up), es, name) ==>
        Holds(After(Node(DiskAt(d, disks, i), up), es, name).disk, name, bytes)
  }

  predicate Holds(d: Disk, name: string, bytes: string) {
    name in d.files && d.files[name] == bytes
  }

  lemma StoredIsSafe(d: Disk, name: string, blocks: seq<string>)
    requires Quiescent(d) && FlatName(d, name)
    ensures Safe(Last(d, Steps(StoreOp(d, name, blocks), d)), name, Concat(blocks)) <==> Parent(name) in d.dirs
  {
    var op := StoreOp(d, name, blocks);
    var m := Started(d, name);
    BodyShape(op, m);
    assert Last(d, Steps(op, d)) == Ended(Outcome(op, m));
  }

  /** From the first byte of OK on, the bytes stored are permanent until the next operation on the
      same name. */
  lemma AcknowledgedIsDurable(d: Disk, name: string, blocks: seq<string>,
                              disks: seq<Disk>, disks': seq<Disk>, sends: seq<Sent>, sends': seq<Sent>)
    requires Quiescent(d) && FlatName(d, name) && Parent(name) in d.dirs
    requires StoreLogged(d, name, blocks, disks, disks', sends, sends')
    ensures Permanent(d, disks', sends', |sends|, name, Concat(blocks))
  {
    StoredIsSafe(d, name, blocks);
    forall i: nat, j: nat, up: bool, es: seq<Event>
      | CrashPoint(disks', sends', i, j) && j > |sends| && RunWithout(Node(DiskAt(d, disks', i), up), es, name)
      ensures Holds(After(Node(DiskAt(d, disks', i), up), es, name).disk, name, Concat(blocks))
    {
      assert sends'[j - 1].after == |disks'|;
      assert DiskAt(d, disks', i) == Last(d, Steps(StoreOp(d, name, blocks), d));
      SafeForever(Node(DiskAt(d, disks', i), up), es, name, Concat(blocks));
    }
  }

  /** A node that has lost its storage directory acknowledges every store and keeps none. */
  lemma NothingIsKept(d: Disk, name: string, blocks: seq<string>)
    requires d.files == map[] && d.dirs == {}
    ensures !Throws(StoreOp(d, name, blocks), d) && Last(d, Steps(StoreOp(d, name, blocks), d)) == Ended(d)
  {
    BodyShape(StoreOp(d, name, blocks), Started(d, name));
  }
}
