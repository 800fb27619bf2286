/** NodeInternal: local storage with a crash journal and a cached byte total. Every change to
    a persistent field appends the new disk to the log, so a crash leaves any element of it. */
module NodeStorage {
  import opened Sums
  import opened Descriptors
  import opened Logs
  import opened Journal

  ghost function Sizes(files: map<string, string>): map<string, int> {
    map p | p in files :: |files[p]|
  }

  /** What compute_node_size sums. */
  ghost function Total(files: map<string, string>): nat {
    SumNotNegative(Sizes(files));
    Sum(Sizes(files))
  }

  function Within(files: map<string, string>, dir: string): map<string, string> {
    map p | p in files && Under(dir, p) :: files[p]
  }

  function Outside(files: map<string, string>, dir: string): map<string, string> {
    map p | p in files && !Under(dir, p) :: files[p]
  }

  lemma TotalUpdate(files: map<string, string>, name: string, bytes: string)
    ensures Total(files[name := bytes])
            == Total(files) - (if name in files then |files[name]| else 0) + |bytes|
  {
    assert Sizes(files[name := bytes]) == Sizes(files)[name := |bytes|];
    SumUpdate(Sizes(files), name, |bytes|);
  }

  lemma TotalWithout(files: map<string, string>, name: string)
    ensures Total(files - {name}) == Total(files) - (if name in files then |files[name]| else 0)
  {
    assert Sizes(files - {name}) == Sizes(files) - {name};
    SumWithout(Sizes(files), name);
  }

  lemma TotalSplit(files: map<string, string>, dir: string)
    ensures Total(files) == Total(Within(files, dir)) + Total(Outside(files, dir))
  {
    var a, b := Sizes(Within(files, dir)), Sizes(Outside(files, dir));
    assert Sizes(files) == a + b;
    SumSplit(a, b);
  }

  /** get_file_size: the contents of a directory, the length of a file, or -1. */
  ghost function FileSize(d: Disk, path: string): int {
    if path in d.dirs then Total(Within(d.files, path))
    else if path in d.files then |d.files[path]|
    else -1
  }

  /** The micro-steps of an operation, nested in another one or not. */
  function Trace(op: Op, d: Disk, nested: bool): seq<Disk> {
    if nested then Body(op, d) else Steps(op, d)
  }

  /** The journalled steps of creating a file that does not exist. */
  lemma CreateSteps(d: Disk, name: string, blocks: seq<string>)
    requires !Exists(d, name)
    ensures var op, m := Create(name, blocks), Started(d, name);
            && Steps(op, d) == StartSteps(d, name) + CreateBody(m, name, blocks) + EndSteps(Outcome(op, m))
            && Ended(Outcome(op, m)) == Ended(Outcome(op, d)) && Body(op, d) == CreateBody(d, name, blocks)
  {
    CreateBodyShape(Started(d, name), name, blocks);
  }

  /** Creating a file that exists only opens and closes the journal. */
  lemma RefusedSteps(d: Disk, name: string)
    requires Exists(d, name)
    ensures var op := Create(name, []);
            && Body(op, d) == [] && Steps(op, d) == StartSteps(d, name) + EndSteps(Started(d, name))
            && Outcome(op, d) == d && Ended(Started(d, name)) == Ended(d)
  {
  }

  lemma {:induction false} ConcatAppend(blocks: seq<string>, b: string)
    ensures Concat(blocks + [b]) == Concat(blocks) + b
    decreases |blocks|
  {
    if blocks == [] {
      assert blocks + [b] == [b] && [b][1..] == [];
      assert Concat([b]) == b + Concat([]);
    } else {
      assert (blocks + [b])[1..] == blocks[1..] + [b];
      ConcatAppend(blocks[1..], b);
    }
  }

  lemma {:induction false} WriteStepsAppend(d: Disk, name: string, done: string, blocks: seq<string>, b: string)
    ensures WriteSteps(d, name, done, blocks + [b])
            == WriteSteps(d, name, done, blocks) + [d.(files := d.files[name := done + Concat(blocks) + b])]
    decreases |blocks|
  {
    if blocks == [] {
      assert blocks + [b] == [b] && [b][1..] == [];
      assert WriteSteps(d, name, done + b, []) == [];
      assert done + Concat([]) == done;
    } else {
      var now := done + blocks[0];
      assert (blocks + [b])[1..] == blocks[1..] + [b];
      WriteStepsAppend(d, name, now, blocks[1..], b);
      assert now + Concat(blocks[1..]) == done + Concat(blocks);
    }
  }

  lemma NothingWritten(d: Disk, name: string)
    ensures WriteSteps(d, name, "", []) == [] && Concat([]) == ""
  {
  }

  lemma WrittenMore(d: Disk, name: string, log: seq<Disk>, blocks: seq<string>, b: string)
    ensures Concat(blocks + [b]) == Concat(blocks) + b
    ensures log + WriteSteps(d, name, "", blocks) + [d.(files := d.files[name := Concat(blocks) + b])]
            == log + WriteSteps(d, name, "", blocks + [b])
  {
    ConcatAppend(blocks, b);
    WriteStepsAppend(d, name, "", blocks, b);
    assert "" + Concat(blocks) + b == Concat(blocks) + b;
  }

  lemma CreateBodyIs(d: Disk, name: string, blocks: seq<string>, log: seq<Disk>)
    requires !Exists(d, name)
    ensures log + CreateBody(d, name, blocks)
            == if Parent(name) !in d.dirs then log
               else log + [d.(files := d.files[name := ""])] + WriteSteps(d, name, "", blocks)
  {
    var first := [d.(files := d.files[name := ""])];
    var rest := WriteSteps(d, name, "", blocks);
    assert log + first + rest == log + (first + rest);
  }

  class NodeInternal {
    var status: string
    var modifying: string
    var files: map<string, string>
    var dirs: set<string>
    var bytesStored: int
    var curModifying: nat
    ghost const log: Log

    ghost function View(): Disk
      reads this
    {
      Disk(status, modifying, files, dirs)
    }

    /** How far the cached total is off. */
    ghost function CacheError(): int
      reads this
    {
      bytesStored - Total(files)
    }

    ghost predicate CacheExact()
      reads this
    {
      CacheError() == 0
    }

    constructor (d: Disk, ghost log: Log)
      ensures View() == Mounted(d) && curModifying == 0 && CacheExact() && this.log == log
    {
      status, modifying, files, dirs := d.status, d.modifying, d.files, d.dirs + {ROOT};
      curModifying, bytesStored := 0, 0;
      this.log := log;
      new;
      var size := ComputeNodeSize();
    }

    ghost method Record()
      modifies log`disks
      ensures log.disks == old(log.disks) + [View()]
    {
      log.Persist(View());
    }

    /** Sums the regular files in whatever order the directory iterator yields them. */
    method SumFiles(under: map<string, string>) returns (size: int)
      ensures size == Total(under)
    {
      size := 0;
      var left := under;
      while left != map[]
        invariant size + Total(left) == Total(under)
        decreases |left|
      {
        var p :| p in left;
        TotalWithout(left, p);
        SmallerMap(left, p);
        size := size + |left[p]|;
        left := left - {p};
      }
    }

    method ComputeNodeSize() returns (size: int)
      modifies this`bytesStored
      ensures CacheExact() && size == bytesStored
    {
      size := SumFiles(files);
      bytesStored := size;
    }

    method GetFileSize(path: string) returns (size: int)
      ensures size == FileSize(View(), path)
    {
      if path in dirs {
        size := SumFiles(Within(files, path));
      } else if path in files {
        size := |files[path]|;
      } else {
        size := -1;
      }
    }

    method WriteStatus(s: string)
      modifies this`status, log`disks
      ensures status == s
      ensures log.disks == old(log.disks) + [old(View()).(status := "")] + [old(View()).(status := s)]
    {
      status := "";
      Record();
      status := s;
      Record();
    }

    method IndicateStartModifying(name: string)
      modifies this`status, this`modifying, this`curModifying, log`disks
      ensures curModifying == old(curModifying) + 1
      ensures old(curModifying) == 0 ==>
                log.disks == old(log.disks) + StartSteps(old(View()), name) && View() == Started(old(View()), name)
      ensures old(curModifying) > 0 ==> log.disks == old(log.disks) && View() == old(View())
    {
      if curModifying == 0 {
        WriteStatus("t");
        modifying := "";
        Record();
        modifying := name;
        Record();
        WriteStatus("m");
      }
      curModifying := curModifying + 1;
    }

    method IndicateEndModifying()
      requires curModifying > 0
      modifies this`status, this`modifying, this`curModifying, log`disks
      ensures curModifying == old(curModifying) - 1
      ensures curModifying == 0 ==>
                log.disks == old(log.disks) + EndSteps(old(View())) && View() == Ended(old(View()))
      ensures curModifying > 0 ==> log.disks == old(log.disks) && View() == old(View())
    {
      curModifying := curModifying - 1;
      if curModifying == 0 {
        WriteStatus("t");
        modifying := "";
        Record();
        WriteStatus("i");
      }
    }

    /** open(O_CREAT) and the data loop of create_file. When the parent directory is missing
        the open fails unnoticed: the input is read and nothing is stored. */
    method StoreData(name: string, input: Descriptor) returns (ghost blocks: seq<string>)
      requires !Exists(View(), name)
      modifies this`files, log`disks, input`incoming
      ensures Concat(blocks) == old(input.incoming)
      ensures log.disks == old(log.disks) + CreateBody(old(View()), name, blocks)
      ensures files == if Parent(name) in dirs then old(files)[name := Concat(blocks)] else old(files)
    {
      hide Parent, WriteSteps, Concat, CreateBody;
      blocks := [];
      ghost var d, before := View(), log.disks;
      NothingWritten(d, name);
      var canOpen := Parent(name) in dirs;
      if canOpen {
        files := files[name := ""];
        Record();
      }
      ghost var created := log.disks;
      while true
        invariant Concat(blocks) + input.incoming == old(input.incoming)
        invariant canOpen ==> files == d.files[name := Concat(blocks)]
        invariant canOpen ==> log.disks == created + WriteSteps(d, name, "", blocks)
        invariant !canOpen ==> files == d.files && log.disks == before
        decreases |input.incoming|
      {
        var got := input.Read(2048);
        if got == "" {
          break;
        }
        WrittenMore(d, name, created, blocks, got);
        if canOpen {
          files := files[name := files[name] + got];
          assert View() == d.(files := d.files[name := Concat(blocks) + got]);
          Record();
        }
        blocks := blocks + [got];
      }
      CreateBodyIs(d, name, blocks, before);
    }

    /** A new file from everything `input` delivers. The cache stays in step if and only if the
        file was there already or its parent directory exists; otherwise the missing file's
        size, -1, is added. */
    method CreateFile(name: string, input: Descriptor) returns (ret: int, ghost blocks: seq<string>)
      modifies this, log`disks, input`incoming
      ensures ret == (if Exists(old(View()), name) then 1 else 0)
      ensures ret == 0 ==> Concat(blocks) == old(input.incoming)
      ensures curModifying == old(curModifying)
      ensures log.disks == old(log.disks) + Trace(Create(name, blocks), old(View()), old(curModifying) > 0)
      ensures View() == if old(curModifying) > 0 then Outcome(Create(name, blocks), old(View()))
                        else Ended(Outcome(Create(name, blocks), old(View())))
      ensures CacheError() == old(CacheError()) - (if Exists(old(View()), name) || Parent(name) in dirs then 0 else 1)
    {
      hide Parent, Total, StartSteps, EndSteps, CreateBody, Body, Steps;
      IndicateStartModifying(name);
      if name in files || name in dirs {
        blocks := [];
        RefusedSteps(old(View()), name);
        IndicateEndModifying();
        return 1, blocks;
      }
      blocks := StoreCounted(name, input);
      CreateSteps(old(View()), name, blocks);
      IndicateEndModifying();
      ret := 0;
    }

    /** The part of create_file inside the journal entry: store, and keep the cache in step. */
    method StoreCounted(name: string, input: Descriptor) returns (ghost blocks: seq<string>)
      requires !Exists(View(), name)
      modifies this`files, log`disks, this`bytesStored, input`incoming
      ensures Concat(blocks) == old(input.incoming)
      ensures log.disks == old(log.disks) + CreateBody(old(View()), name, blocks)
      ensures View() == Outcome(Create(name, blocks), old(View()))
      ensures CacheError() == old(CacheError()) - (if Parent(name) in dirs then 0 else 1)
    {
      ghost var d := View();
      blocks := StoreData(name, input);
      CreateBodyShape(d, name, blocks);
      TotalUpdate(d.files, name, Concat(blocks));
      var size := GetFileSize(name);
      bytesStored := bytesStored + size;
    }

    /** fs::remove. It throws on a directory that is not empty. */
    method Remove(name: string) returns (removed: bool, threw: bool)
      modifies this`files, this`dirs, log`disks
      ensures threw == (name !in old(files) && name in old(dirs) && HasChildren(old(View()), name))
      ensures threw ==> View() == old(View()) && log.disks == old(log.disks)
      ensures !threw ==> removed == Exists(old(View()), name)
      ensures !threw ==> log.disks == old(log.disks) + DeleteBody(old(View()), name)
      ensures !threw ==> View() == Last(old(View()), DeleteBody(old(View()), name))
    {
      removed, threw := false, false;
      if name in files {
        files := files - {name};
        Record();
        removed := true;
      } else if name in dirs {
        if HasChildren(Disk(status, modifying, files, dirs), name) {
          return false, true;
        }
        dirs := dirs - {name};
        Record();
        removed := true;
      }
    }

    /** When fs::remove throws, the journal entry stays open and the exception escapes. */
    method DeleteFile(name: string) returns (ret: int, threw: bool)
      requires files.Keys !! dirs
      modifies this, log`disks
      ensures threw == Throws(Delete(name), old(View()))
      ensures log.disks == old(log.disks) + Trace(Delete(name), old(View()), old(curModifying) > 0)
      ensures View() == Last(old(View()), Trace(Delete(name), old(View()), old(curModifying) > 0))
      ensures curModifying == old(curModifying) + (if threw then 1 else 0)
      ensures threw ==> files == old(files) && dirs == old(dirs)
      ensures !threw ==> ret == (if Exists(old(View()), name) then 0 else 1)
      ensures name !in old(dirs) ==> !threw && files == old(files) - {name} && dirs == old(dirs)
      ensures CacheError() == old(CacheError())
    {
      hide Parent, Under;
      IndicateStartModifying(name);
      ghost var d, h := View(), log.disks;
      assert HasChildren(d, name) == HasChildren(old(View()), name) by {
        assert d.files == old(files) && d.dirs == old(dirs);
      }
      ret, threw := RemoveCounted(name);
      if threw {
        return 1, true;
      }
      assert DeleteBody(d, name) == Body(Delete(name), d);
      IndicateEndModifying();
    }

    /** The part of delete_file inside the journal entry: remove, and keep the cache in step. */
    method RemoveCounted(name: string) returns (ret: int, threw: bool)
      requires files.Keys !! dirs
      modifies this`files, this`dirs, log`disks, this`bytesStored
      ensures threw == (name !in old(files) && name in old(dirs) && HasChildren(old(View()), name))
      ensures threw ==> View() == old(View()) && log.disks == old(log.disks) && bytesStored == old(bytesStored)
      ensures !threw ==> ret == (if Exists(old(View()), name) then 0 else 1)
      ensures !threw ==> log.disks == old(log.disks) + DeleteBody(old(View()), name)
      ensures !threw ==> View() == Last(old(View()), DeleteBody(old(View()), name))
      ensures CacheError() == old(CacheError())
    {
      ghost var d := View();
      var size := GetFileSize(name);
      var removed: bool;
      removed, threw := Remove(name);
      if threw {
        return 1, true;
      }
      TotalWithout(d.files, name);
      NoneWithin(d, name);
      if removed && size != -1 {
        bytesStored := bytesStored - size;
      }
      ret := if removed then 0 else 1;
    }

    /** Delete, then create, inside one journal entry. On a directory with something in it the
        removal throws and both entries stay open. */
    method ReplaceFile(name: string, input: Descriptor)
      returns (ret: int, threw: bool, ghost blocks: seq<string>)
      requires files.Keys !! dirs
      modifies this, log`disks, input`incoming
      ensures threw == Throws(Replace(name, blocks), old(View()))
      ensures log.disks == old(log.disks) + Trace(Replace(name, blocks), old(View()), old(curModifying) > 0)
      ensures View() == Last(old(View()), Trace(Replace(name, blocks), old(View()), old(curModifying) > 0))
      ensures curModifying == old(curModifying) + (if threw then 2 else 0)
      ensures threw ==> files == old(files) && dirs == old(dirs) && CacheError() == old(CacheError())
      ensures !threw ==> ret == (if Exists(old(View()), name) then 0 else 1)
      ensures !threw && ret == 0 ==> Concat(blocks) == old(input.incoming)
      ensures !threw ==> CacheError() == old(CacheError()) - (if ret != 0 || Parent(name) in dirs then 0 else 1)
    {
      IndicateStartModifying(name);
      threw, blocks := false, [];
      if name !in files && name !in dirs {
        IndicateEndModifying();
        return 1, false, blocks;
      }
      ghost var d := View();
      assert HasChildren(d, name) == HasChildren(old(View()), name) by {
        assert d.files == old(files) && d.dirs == old(dirs);
      }
      threw, blocks := DeleteThenCreate(name, input);
      if threw {
        return 1, true, blocks;
      }
      IndicateEndModifying();
      ret := 0;
    }

    /** The nested delete_file and create_file of replace_file. */
    method DeleteThenCreate(name: string, input: Descriptor) returns (threw: bool, ghost blocks: seq<string>)
      requires files.Keys !! dirs && Exists(View(), name) && curModifying > 0
      modifies this, log`disks, input`incoming
      ensures threw == Throws(Replace(name, blocks), old(View()))
      ensures log.disks == old(log.disks) + Body(Replace(name, blocks), old(View()))
      ensures View() == Last(old(View()), Body(Replace(name, blocks), old(View())))
      ensures curModifying == old(curModifying) + (if threw then 1 else 0)
      ensures threw ==> View() == old(View()) && CacheError() == old(CacheError())
      ensures !threw ==> Concat(blocks) == old(input.incoming)
      ensures !threw ==> CacheError() == old(CacheError()) - (if Parent(name) in dirs then 0 else 1)
    {
      ghost var d, h := View(), log.disks;
      blocks := [];
      var code;
      code, threw := DeleteFile(name);
      if threw {
        return;
      }
      ghost var mid := View();
      assert !Exists(mid, name) && log.disks == h + [mid] && DeleteBody(d, name) == [mid];
      code, blocks := CreateFile(name, input);
      ghost var made := CreateBody(mid, name, blocks);
      CreateBodyShape(mid, name, blocks);
      assert h + [mid] + made == h + ([mid] + made);
      assert Body(Replace(name, blocks), d) == [mid] + made;
    }

    /** fs::create_directory throws when there is nowhere to put the directory. */
    method CreateDirectory(name: string) returns (ret: int, threw: bool)
      modifies this, log`disks
      ensures threw == (!Exists(old(View()), name) && Parent(name) !in old(dirs))
      ensures threw ==> curModifying == old(curModifying) + 1 && files == old(files) && dirs == old(dirs)
      ensures threw && old(curModifying) == 0 ==>
                log.disks == old(log.disks) + StartSteps(old(View()), name) && View() == Started(old(View()), name)
      ensures !threw ==> ret == (if Exists(old(View()), name) then 1 else 0)
      ensures !threw ==> dirs == old(dirs) + (if ret == 0 then {name} else {}) && files == old(files)
      ensures !threw ==> curModifying == old(curModifying)
      ensures bytesStored == old(bytesStored)
    {
      IndicateStartModifying(name);
      threw := false;
      if name in files || name in dirs {
        IndicateEndModifying();
        return 1, false;
      }
      if Parent(name) !in dirs {
        return 1, true;
      }
      dirs := dirs + {name};
      Record();
      IndicateEndModifying();
      ret := 0;
    }

    /** With `contents` the whole subtree goes and its bytes leave the cache; without, only an
        empty directory is removed. */
    method DeleteDirectory(name: string, contents: bool) returns (ret: int)
      requires files.Keys !! dirs
      modifies this, log`disks
      ensures ret == (if name in old(dirs) && (contents || !HasChildren(old(View()), name)) then 0 else 1)
      ensures ret == 0 ==> files == Outside(old(files), name)
      ensures ret == 0 ==> dirs == set p | p in old(dirs) && p != name && !Under(name, p)
      ensures ret != 0 ==> files == old(files) && dirs == old(dirs)
      ensures curModifying == old(curModifying)
      ensures CacheError() == old(CacheError())
    {
      IndicateStartModifying(name);
      if name !in dirs {
        IndicateEndModifying();
        return 1;
      }
      ghost var d := View();
      assert HasChildren(d, name) == HasChildren(old(View()), name) by {
        assert d.files == old(files) && d.dirs == old(dirs);
      }
      TotalSplit(files, name);
      if contents {
        var size := GetFileSize(name);
        files := Outside(files, name);
        dirs := set p | p in dirs && p != name && !Under(name, p);
        Record();
        bytesStored := bytesStored - size;
        IndicateEndModifying();
        return 0;
      }
      if HasChildren(Disk(status, modifying, files, dirs), name) {
        IndicateEndModifying();
        return 1;
      }
      assert files == Outside(files, name);
      dirs := set p | p in dirs && p != name && !Under(name, p);
      Record();
      IndicateEndModifying();
      ret := 0;
    }

    method ClearExistingData()
      modifies this, log`disks
      ensures log.disks == old(log.disks) + ClearSteps(old(View()))
      ensures View() == Disk("i", "", map[], {ROOT}) && bytesStored == 0
      ensures curModifying == old(curModifying)
    {
      WriteStatus("c");
      modifying := "";
      Record();
      files, dirs := map[], {};
      Record();
      dirs := {ROOT};
      Record();
      var size := ComputeNodeSize();
      assert Sizes(map[]) == map[];
      WriteStatus("i");
    }

    /** What the first character of the status file stands for. */
    method CheckError() returns (error: int)
      ensures error == if status == "" then 3
                       else if status[0] == 'i' then 0
                       else if status[0] == 'm' then 2
                       else if status[0] == 'c' then 4
                       else if status[0] == 't' then 5
                       else 1
    {
      if status == "" {
        return 3;
      }
      match status[0]
      case 'i' => error := 0;
      case 'm' => error := 2;
      case 'c' => error := 4;
      case 't' => error := 5;
      case _ => error := 1;
    }

    /** The start of NodeServer::run: clean up what the last process left behind. */
    method RecoverAtStart() returns (threw: bool)
      requires |status| <= 1 && ROOT in dirs && files.Keys !! dirs && curModifying == 0 && CacheExact()
      modifies this, log`disks
      ensures Recover(old(View())) == if threw then Threw(View()) else Up(View())
      ensures log.disks == old(log.disks) + BootSteps(old(View()))
      ensures !threw ==> curModifying == 0
      ensures CacheExact()
    {
      assert Mounted(View()) == View();
      assert status != "" ==> status == [status[0]];
      var error := CheckError();
      threw := false;
      if error == 2 || error == 5 {
        var code;
        code, threw := DeleteFile(modifying);
      } else if error == 4 {
        ClearExistingData();
        assert Sizes(map[]) == map[];
      }
    }
  }

  lemma NoneWithin(d: Disk, dir: string)
    ensures !HasChildren(d, dir) ==> Total(Within(d.files, dir)) == 0
  {
    if !HasChildren(d, dir) {
      assert Within(d.files, dir) == map[];
      assert Sizes(map[]) == map[];
    }
  }
}
