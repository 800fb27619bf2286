/** Crashes: at any micro-step of an operation, again during recovery, and over whole runs. */
module CrashRecovery {
  import opened Journal

  /** A running node between operations: whatever a recovery or an earlier operation left,
      including a modifying name that was never erased. */
  predicate Quiescent(d: Disk) {
    && d.status != "m" && d.status != "t" && d.status != "c"
    && ROOT in d.dirs && d.files.Keys !! d.dirs
  }

  /** The named file is absent, as before, or complete. */
  predicate NamedWhole(files: map<string, string>, op: Op, before: Disk) {
    op.name in files ==>
      || (op.name in before.files && files[op.name] == before.files[op.name])
      || (!op.Delete? && files[op.name] == Concat(op.blocks))
  }

  /** What a crash inside `op` may leave behind once the node is up again. */
  predicate Recovered(b: Boot, op: Op, before: Disk) {
    && b.Up? && Quiescent(b.disk)
    && b.disk.dirs == before.dirs
    && b.disk.files - {op.name} == before.files - {op.name}
    && NamedWhole(b.disk.files, op, before)
  }

  /** The journal on disk does not make recovery act on anything but `name`. */
  predicate Harmless(d: Disk, name: string) {
    d.status == "t" ==> d.modifying == name || !Exists(d, d.modifying)
  }

  /** The index ranges of an operation's micro-steps. */
  lemma StepsShape(op: Op, d: Disk, k: nat)
    requires Quiescent(d) && FlatName(d, op.name) && k < |Steps(op, d)|
    ensures var e := Steps(op, d)[k]; var n := |Body(op, Started(d, op.name))|;
            && (k < 6 ==> e == StartSteps(d, op.name)[k])
            && (6 <= k < 6 + n ==> OnlyEntry(Started(d, op.name), e, op.name))
            && (6 + n <= k ==> k < 11 + n && e == EndSteps(Outcome(op, Started(d, op.name)))[k - 6 - n])
  {
    var m := Started(d, op.name);
    BodyShape(op, m);
    var body := Body(op, m);
    if 6 <= k < 6 + |body| {
      assert Steps(op, d)[k] == body[k - 6];
      assert body[k - 6] in body;
    }
  }

  /** What booting does to an interrupted disk whose journal names no directory. */
  lemma RecoverDeletes(d: Disk)
    requires Interrupted(d) && ROOT in d.dirs && d.modifying !in d.dirs
    ensures Recover(d) == Up(Ended(d.(files := d.files - {d.modifying})))
  {
    var m := Started(d, d.modifying);
    assert Mounted(d) == d;
    BodyShape(Delete(d.modifying), m);
    var steps := Steps(Delete(d.modifying), d);
    assert steps[|steps| - 1] == EndSteps(Outcome(Delete(d.modifying), m))[4];
  }

  /** A journal entry that names a directory: the exception, or a lost directory. */
  lemma RecoverDirectory(d: Disk)
    requires Interrupted(d) && ROOT in d.dirs && d.modifying in d.dirs && d.files.Keys !! d.dirs
    ensures Recover(d) == if HasChildren(d, d.modifying) then Threw(Started(d, d.modifying))
                          else Up(Ended(d.(dirs := d.dirs - {d.modifying})))
  {
    assert Mounted(d) == d;
    var m := Started(d, d.modifying);
    var op := Delete(d.modifying);
    assert HasChildren(m, d.modifying) == HasChildren(d, d.modifying) by {
      assert m.files == d.files && m.dirs == d.dirs;
    }
    if !HasChildren(d, d.modifying) {
      assert Body(op, m) == [m.(dirs := m.dirs - {d.modifying})];
      var steps := Steps(op, d);
      assert steps[|steps| - 1] == EndSteps(m.(dirs := m.dirs - {d.modifying}))[4];
    }
  }

  /** The journal invariant: at every micro-step only the named entry can differ, and it can
      be partial only while the status is 'm' and the journal names it. */
  lemma OnlyJournalledPartial(op: Op, before: Disk, k: nat)
    requires Quiescent(before) && FlatName(before, op.name)
    requires k < |Steps(op, before)|
    ensures var d := Steps(op, before)[k];
            && d.dirs == before.dirs && d.files - {op.name} == before.files - {op.name}
            && d.status != "c"
            && (d.status == "m" ==> d.modifying == op.name)
            && (d.status != "m" ==> NamedWhole(d.files, op, before))
  {
    StepsShape(op, before, k);
    BodyShape(op, Started(before, op.name));
  }

  /** Exactness of recovery from what a crash can leave, without the steps that led there. */
  lemma RecoverExact(d: Disk, op: Op, before: Disk)
    requires Quiescent(before) && FlatName(before, op.name)
    requires d.dirs == before.dirs && d.files - {op.name} == before.files - {op.name}
    requires d.status != "c" && (d.status == "m" ==> d.modifying == op.name)
    requires d.status != "m" ==> NamedWhole(d.files, op, before)
    ensures Recovered(Recover(d), op, before) <==> Harmless(d, op.name)
  {
    var name := op.name;
    assert Mounted(d) == d;
    forall p | p in d.files ensures p !in d.dirs {
      assert p == name || p in d.files - {name};
    }
    if !Interrupted(d) {
      assert Recover(d) == Up(d);
    } else if d.modifying in d.dirs {
      RecoverDirectory(d);
    } else {
      RecoverDeletes(d);
      RemoveOne(d.files, d.modifying, name);
      if d.modifying != name && d.modifying in d.files {
        assert d.modifying in before.files - {name};
      }
    }
  }

  lemma RemoveOne(files: map<string, string>, gone: string, name: string)
    ensures gone == name || gone !in files ==> (files - {gone}) - {name} == files - {name}
    ensures gone !in files ==> files - {gone} == files
    ensures gone !in (files - {gone}) - {name}
  {
    assert gone == name || gone !in files ==> ((files - {gone}) - {name}).Keys == (files - {name}).Keys;
  }

  /** A crash after any micro-step of any operation on any quiescent disk: recovery leaves
      every other file as it was and the named file absent, old or complete, exactly when the
      journal is harmless at that point. It is not in the window where the status already
      reads 't' and the modifying file still holds another name or none at all. */
  lemma CrashThenRecover(op: Op, before: Disk, k: nat)
    requires Quiescent(before) && FlatName(before, op.name)
    requires k < |Steps(op, before)|
    ensures var d := Steps(op, before)[k];
            Recovered(Recover(d), op, before) <==> Harmless(d, op.name)
  {
    OnlyJournalledPartial(op, before, k);
    RecoverExact(Steps(op, before)[k], op, before);
  }

  /** With a journal that was closed properly, the only harmful states are those that read
      't' next to an empty modifying file. */
  lemma HarmfulWindow(op: Op, before: Disk, k: nat)
    requires Quiescent(before) && FlatName(before, op.name) && before.modifying == ""
    requires k < |Steps(op, before)|
    ensures var d := Steps(op, before)[k];
            Harmless(d, op.name) <==> !(d.status == "t" && d.modifying == "")
  {
    OnlyJournalledPartial(op, before, k);
    StepsShape(op, before, k);
  }

  /** Such a state exists: two micro-steps into storing a second chunk. The server then asks
      for the storage directory itself to be removed, which throws. */
  lemma HarmfulWindowIsReal()
    ensures var before := Disk("i", "", map["a_chunk0" := "x"], {ROOT});
            var d := Steps(Create("b_chunk0", ["y"]), before)[2];
            Quiescent(before) && Recover(d) == Threw(Disk("m", "", before.files, before.dirs))
  {
    var before := Disk("i", "", map["a_chunk0" := "x"], {ROOT});
    var d := Steps(Create("b_chunk0", ["y"]), before)[2];
    assert d == before.(status := "t");
    assert "a_chunk0" in d.files && Under(ROOT, "a_chunk0");
    RecoverDirectory(d);
  }

  /** The same crash on a node that holds nothing: the storage directory itself is removed. */
  lemma EmptyNodeLosesStorage()
    ensures var before := Disk("i", "", map[], {ROOT});
            var d := Steps(Create("b_chunk0", ["y"]), before)[2];
            Quiescent(before) && Recover(d) == Up(Disk("i", "", map[], {}))
  {
    var before := Disk("i", "", map[], {ROOT});
    var d := Steps(Create("b_chunk0", ["y"]), before)[2];
    assert d == before.(status := "t");
    assert !HasChildren(d, ROOT);
    RecoverDirectory(d);
    assert {ROOT} - {ROOT} == {};
  }

  function Reboots(d: Disk, boots: nat): Disk
    decreases boots
  {
    if boots == 0 then d else Reboots(Recover(d).disk, boots - 1)
  }

  /** After the exception the node can never boot again: the disk it leaves throws once more,
      and every file is still there. */
  lemma {:induction false} StuckForever(d: Disk, boots: nat)
    requires Interrupted(d) && d.modifying == ROOT && ROOT in d.dirs
    requires d.files.Keys !! d.dirs && d.files != map[]
    ensures Reboots(d, boots).files == d.files
    ensures Recover(Reboots(d, boots)).Threw?
    decreases boots
  {
    var p :| p in d.files;
    assert Under(ROOT, p);
    RecoverDirectory(d);
    if boots > 0 {
      StuckForever(Recover(d).disk, boots - 1);
    }
  }

  /** A partial file that the journal points at. */
  predicate PartialOnDisk(d: Disk, name: string) {
    && d.status == "m" && d.modifying == name && name in d.files
    && name !in d.dirs && ROOT in d.dirs && d.files.Keys !! d.dirs
  }

  /** Recovery has removed the partial file and nothing else. */
  predicate Cleaned(b: Boot, d: Disk, name: string) {
    b.Up? && b.disk.dirs == d.dirs && b.disk.files == d.files - {name}
  }

  /** A crash inside recovery itself. Recovery reopens the journal while the partial file is
      still on disk, so a second crash is cleaned up exactly when the journal is harmless and,
      as long as the file is there, the status still asks for recovery. */
  lemma SecondCrash(d: Disk, name: string, k: nat)
    requires PartialOnDisk(d, name) && k < |BootSteps(d)|
    ensures var e := BootSteps(d)[k];
            Cleaned(Recover(e), d, name) <==> Harmless(e, name) && (name in e.files ==> Interrupted(e))
  {
    assert Mounted(d) == d;
    var m := Started(d, name);
    var op := Delete(name);
    assert Body(op, m) == [m.(files := m.files - {name})];
    var e := BootSteps(d)[k];
    assert BootSteps(d) == StartSteps(d, name) + Body(op, m) + EndSteps(m.(files := m.files - {name}));
    assert Mounted(e) == e;
    RemoveOne(d.files, name, name);
    RemoveOne(e.files, name, name);
    if Interrupted(e) {
      if e.modifying in e.dirs {
        RecoverDirectory(e);
      } else {
        RecoverDeletes(e);
      }
    }
  }

  /** The first thing recovery does is truncate the status file; a crash right there leaves
      the partial file in place and nothing that remembers it. */
  lemma SecondCrashLosesTrack()
    ensures var d := Disk("m", "a_chunk0", map["a_chunk0" := "ha"], {ROOT});
            PartialOnDisk(d, "a_chunk0") && Recover(BootSteps(d)[0]) == Up(d.(status := ""))
  {
    var d := Disk("m", "a_chunk0", map["a_chunk0" := "ha"], {ROOT});
    assert Mounted(d) == d;
    assert BootSteps(d)[0] == d.(status := "");
  }
}
