/** What a node has on disk after every micro-step of an operation, and what booting from
    any such state does. `status` and `modifying` are the two journal files. */
module Journal {

  datatype Disk = Disk(status: string, modifying: string, files: map<string, string>, dirs: set<string>)

  const ROOT: string := ""

  predicate Under(dir: string, path: string) {
    path != dir && (dir == ROOT || dir + "/" <= path)
  }

  predicate HasChildren(d: Disk, dir: string) {
    (exists p :: p in d.files && Under(dir, p)) || (exists p :: p in d.dirs && Under(dir, p))
  }

  predicate Exists(d: Disk, path: string) {
    path in d.files || path in d.dirs
  }

  /** The directory a path is created in. */
  function Parent(path: string): string {
    if path == "" then ROOT
    else if path[|path| - 1] == '/' then path[..|path| - 1]
    else Parent(path[..|path| - 1])
  }

  /** What is in front of the last slash, or the storage directory if there is none. */
  lemma {:induction false} ParentSplits(path: string) returns (rest: string)
    ensures if '/' in path then path == Parent(path) + "/" + rest && '/' !in rest else Parent(path) == ROOT
    decreases |path|
  {
    rest := "";
    if path != "" && path[|path| - 1] != '/' {
      var last := path[|path| - 1];
      rest := ParentSplits(path[..|path| - 1]);
      rest := rest + [last];
      assert path == path[..|path| - 1] + [last];
    } else if path != "" {
      assert path == Parent(path) + "/";
    }
  }

  function Concat(blocks: seq<string>): string {
    if blocks == [] then "" else blocks[0] + Concat(blocks[1..])
  }

  /** The operations the node server performs; blocks are the pieces the data loop wrote. */
  datatype Op =
    | Create(name: string, blocks: seq<string>)
    | Replace(name: string, blocks: seq<string>)
    | Delete(name: string)

  function Last(d: Disk, steps: seq<Disk>): Disk {
    if steps == [] then d else steps[|steps| - 1]
  }

  /** indicate_start_modifying: every truncation and every write is one micro-step. */
  function StartSteps(d: Disk, name: string): seq<Disk> {
    [d.(status := ""),
     d.(status := "t"),
     d.(status := "t", modifying := ""),
     d.(status := "t", modifying := name),
     d.(status := "", modifying := name),
     d.(status := "m", modifying := name)]
  }

  /** indicate_end_modifying. */
  function EndSteps(d: Disk): seq<Disk> {
    [d.(status := ""),
     d.(status := "t"),
     d.(status := "t", modifying := ""),
     d.(status := "", modifying := ""),
     d.(status := "i", modifying := "")]
  }

  function Started(d: Disk, name: string): Disk {
    d.(status := "m", modifying := name)
  }

  function Ended(d: Disk): Disk {
    d.(status := "i", modifying := "")
  }

  /** One of the two journal files is truncated, or written after it has been truncated; the one
      that holds the name only while the status is t. */
  predicate OneWrite(a: Disk, b: Disk) {
    && a.files == b.files && a.dirs == b.dirs
    && (if a.modifying == b.modifying then a.status == b.status || a.status == "" || b.status == ""
        else a.status == b.status == "t" && (a.modifying == "" || b.modifying == ""))
  }

  /** How the journal is opened and closed: write by write, and the status says m or i only once the
      name is there or gone. */
  lemma JournalWrites(d: Disk, name: string, opening: bool, k: nat)
    requires d.status == if opening then "i" else "m"
    requires k < |if opening then StartSteps(d, name) else EndSteps(d)|
    ensures var steps := if opening then StartSteps(d, name) else EndSteps(d);
            && OneWrite(if k == 0 then d else steps[k - 1], steps[k])
            && (steps[k].status == "m" ==> steps[k].modifying == name)
            && (steps[k].status == "i" ==> steps[k].modifying == "")
            && (k == |steps| - 1 <==> steps[k].status == if opening then "m" else "i")
  {
  }

  function WriteSteps(d: Disk, name: string, done: string, blocks: seq<string>): seq<Disk>
    decreases |blocks|
  {
    if blocks == [] then [] else
      var now := done + blocks[0];
      [d.(files := d.files[name := now])] + WriteSteps(d, name, now, blocks[1..])
  }

  /** The data loop of create_file, from open(O_CREAT) on. When the parent directory is
      missing the open fails and nothing reaches the disk. */
  function CreateBody(d: Disk, name: string, blocks: seq<string>): seq<Disk> {
    if Exists(d, name) || Parent(name) !in d.dirs then [] else
      [d.(files := d.files[name := ""])] + WriteSteps(d, name, "", blocks)
  }

  /** fs::remove of a file or an empty directory. */
  function DeleteBody(d: Disk, name: string): seq<Disk> {
    if name in d.files then [d.(files := d.files - {name})]
    else if name in d.dirs && !HasChildren(d, name) then [d.(dirs := d.dirs - {name})]
    else []
  }

  /** The micro-steps between the two halves of the journal entry. */
  function Body(op: Op, d: Disk): seq<Disk> {
    match op
    case Create(name, blocks) => CreateBody(d, name, blocks)
    case Delete(name) => DeleteBody(d, name)
    case Replace(name, blocks) =>
      if !Exists(d, name) then [] else
        var removed := DeleteBody(d, name);
        removed + CreateBody(Last(d, removed), name, blocks)
  }

  /** Removing a directory that is not empty makes fs::remove throw. */
  predicate Throws(op: Op, d: Disk) {
    !op.Create? && op.name in d.dirs && op.name !in d.files && HasChildren(d, op.name)
  }

  /** Every persistent state an operation passes through, in order. */
  function Steps(op: Op, d: Disk): seq<Disk> {
    var m := Started(d, op.name);
    if Throws(op, d) then StartSteps(d, op.name) else
      StartSteps(d, op.name) + Body(op, m) + EndSteps(Last(m, Body(op, m)))
  }

  datatype Boot = Up(disk: Disk) | Threw(disk: Disk)

  /** The constructor re-creates the storage directory. */
  function Mounted(d: Disk): Disk {
    d.(dirs := d.dirs + {ROOT})
  }

  predicate Interrupted(d: Disk) {
    d.status == "m" || d.status == "t"
  }

  /** clear_existing_data, one micro-step per change; remove_all is taken as one. */
  function ClearSteps(d: Disk): seq<Disk> {
    [d.(status := ""),
     d.(status := "c"),
     d.(status := "c", modifying := ""),
     Disk("c", "", map[], {}),
     Disk("c", "", map[], {ROOT}),
     Disk("", "", map[], {ROOT}),
     Disk("i", "", map[], {ROOT})]
  }

  /** The persistent states recovery passes through at the start of NodeServer::run. */
  function BootSteps(d: Disk): seq<Disk> {
    var m := Mounted(d);
    if Interrupted(d) then Steps(Delete(m.modifying), m)
    else if d.status == "c" then ClearSteps(m)
    else []
  }

  function Recover(d: Disk): Boot {
    var m := Mounted(d);
    var after := Last(m, BootSteps(d));
    if Interrupted(d) && Throws(Delete(m.modifying), m) then Threw(after) else Up(after)
  }

  // ---------------------------------------------------------------- shape of the steps

  lemma {:induction false} WriteStepsShape(d: Disk, name: string, done: string, blocks: seq<string>)
    ensures forall e :: e in WriteSteps(d, name, done, blocks) ==>
              name in e.files && e == d.(files := d.files[name := e.files[name]])
    ensures blocks != [] ==> Last(d, WriteSteps(d, name, done, blocks))
                             == d.(files := d.files[name := done + Concat(blocks)])
    decreases |blocks|
  {
    if blocks != [] {
      var now := done + blocks[0];
      var rest := WriteSteps(d, name, now, blocks[1..]);
      WriteStepsShape(d, name, now, blocks[1..]);
      assert now + Concat(blocks[1..]) == done + Concat(blocks);
      if blocks[1..] == [] {
        assert Concat(blocks[1..]) == "";
        assert now == done + Concat(blocks);
      } else {
        assert Last(d, WriteSteps(d, name, done, blocks)) == Last(d, rest);
      }
    }
  }

  /** A body changes nothing but the entry of its own name, leaving the journal alone. */
  predicate OnlyEntry(d: Disk, e: Disk, name: string) {
    && e.status == d.status && e.modifying == d.modifying && e.dirs == d.dirs
    && e.files - {name} == d.files - {name}
  }

  /** What the named file may be once an operation is over. */
  predicate Settled(op: Op, d: Disk, e: Disk) {
    && (op.Delete? ==> op.name !in e.files)
    && (op.name in e.files ==>
          || (op.name in d.files && e.files[op.name] == d.files[op.name] && op.Create?)
          || (!op.Delete? && e.files[op.name] == Concat(op.blocks)))
  }

  predicate FlatName(d: Disk, name: string) {
    name !in d.dirs
  }

  lemma CreateBodyShape(d: Disk, name: string, blocks: seq<string>)
    requires FlatName(d, name)
    ensures forall e :: e in CreateBody(d, name, blocks) ==> OnlyEntry(d, e, name)
    ensures var e := Last(d, CreateBody(d, name, blocks));
            if name in d.files || Parent(name) !in d.dirs then e == d
            else e == d.(files := d.files[name := Concat(blocks)])
  {
    if !Exists(d, name) && Parent(name) in d.dirs {
      WriteStepsShape(d, name, "", blocks);
      var ws := WriteSteps(d, name, "", blocks);
      forall e | e in CreateBody(d, name, blocks) ensures OnlyEntry(d, e, name) {
        assert e.files - {name} == d.files - {name};
      }
      if blocks != [] {
        assert Last(d, CreateBody(d, name, blocks)) == Last(d, ws);
        assert "" + Concat(blocks) == Concat(blocks);
      }
    }
  }

  /** Where an operation leaves the disk, between the two halves of its journal entry. */
  function Outcome(op: Op, d: Disk): Disk {
    match op
    case Create(name, blocks) =>
      if Exists(d, name) || Parent(name) !in d.dirs then d
      else d.(files := d.files[name := Concat(blocks)])
    case Delete(name) => d.(files := d.files - {name})
    case Replace(name, blocks) =>
      if name !in d.files then d
      else if Parent(name) !in d.dirs then d.(files := d.files - {name})
      else d.(files := d.files[name := Concat(blocks)])
  }

  lemma BodyShape(op: Op, d: Disk)
    requires FlatName(d, op.name)
    ensures forall e :: e in Body(op, d) ==> OnlyEntry(d, e, op.name)
    ensures Last(d, Body(op, d)) == Outcome(op, d)
    ensures OnlyEntry(d, Outcome(op, d), op.name) && Settled(op, d, Outcome(op, d))
  {
    var name := op.name;
    match op {
      case Create(_, blocks) =>
        CreateBodyShape(d, name, blocks);
      case Delete(_) =>
        if name !in d.files {
          assert d.files - {name} == d.files;
        }
      case Replace(_, blocks) =>
        if name in d.files {
          var mid := d.(files := d.files - {name});
          CreateBodyShape(mid, name, blocks);
          assert Last(d, DeleteBody(d, name)) == mid;
          var made := CreateBody(mid, name, blocks);
          assert Body(op, d) == [mid] + made;
          forall e | e in Body(op, d) ensures OnlyEntry(d, e, name) {
            assert e == mid || e in made;
          }
          assert Last(d, Body(op, d)) == Last(mid, made);
          assert mid.files[name := Concat(blocks)] == d.files[name := Concat(blocks)];
        }
    }
  }
}
