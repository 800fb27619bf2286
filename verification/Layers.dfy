/** The two halves together: what the state machine assumes of a node that is asked to store or
    delete one chunk is what nodes do, when they answer and when they crash. */
module Layers {
  import opened Wrappers
  import opened Text
  import opened Descriptors
  import opened ChunkNames
  import opened Journal
  import opened CrashRecovery
  import opened NodeProtocol
  import ClientProtocol
  import UploadHandler
  import C = Cluster

  lemma FlatParent(name: string)
    requires '/' !in name
    ensures Parent(name) == ROOT
  {
    var rest := ParentSplits(name);
  }

  /** Names the coordinator accepts give flat chunk names. */
  lemma ChunkNameIsFlat(f: string, k: nat)
    requires '/' !in f
    ensures '/' !in ChunkName(f, k) && Parent(ChunkName(f, k)) == ROOT
  {
    var d := Decimal(k);
    forall i | 0 <= i < |d| ensures d[i] != '/' {
      assert IsDigit(d[i]);
    }
    FlatParent(ChunkName(f, k));
  }

  /** The effect on one chunk name by which two stores differ. */
  function EffectOn(name: string, after: map<string, string>): Option<string> {
    if name in after then Some(after[name]) else None
  }

  /** What a directory can hold: file names are C strings. */
  predicate OnNode(l: Local) {
    forall p :: p in l.files ==> p != ROOT && '\0' !in p
  }

  lemma ChunkNameIsWord(f: string, k: nat)
    requires IsWord(f)
    ensures IsWord(ChunkName(f, k))
  {
    var s, d := ChunkName(f, k), Decimal(k);
    forall i | 0 <= i < |s| ensures !IsSpace(s[i]) {
      if i < |f| {
        assert s[i] == f[i];
      } else if i >= |f| + |MARK| {
        assert s[i] == d[i - |f| - |MARK|] && IsDigit(d[i - |f| - |MARK|]);
      }
    }
  }

  /** The store request for a chunk, as a node reads it. */
  lemma ServeStore(l: Local, order: Order, name: string, piece: string)
    requires IsWord(name) && |piece| < SIZE_LIMIT
    ensures var key := CString(name);
            Serve(l, order, Encode(Put(name, piece)))
            == if key == ROOT then Served(RemoveRoot(l, true).0, RemoveRoot(l, true).1, Lost)
               else Served(StoreLocal(l, key, piece), [Ok], Serving)
  {
    hide NextWord, NextSize, ParseRequest, SplitLine, StoreLocal, RemoveRoot, Serve;
    var c := Put(name, piece);
    PutLineParses(name, |piece|);
    HeadLineIsPlain(c);
    SplitLineOf(HeadLine(c), piece);
    assert piece[..|piece|] == piece && piece[|piece|..] == "";
    ServeRest(l, order, c, piece);
  }

  lemma ServeRest(l: Local, order: Order, c: Command, rest: string)
    requires SplitLine(Encode(c)) == Some((HeadLine(c), rest))
    requires Handle(l, order, HeadLine(c), rest).rest == ""
    ensures var h := Handle(l, order, HeadLine(c), rest);
            Serve(l, order, Encode(c)) == Served(h.local, h.replies, h.fate)
  {
    hide SplitLine, Handle, Encode, HeadLine;
    var h := Handle(l, order, HeadLine(c), rest);
    assert SplitLine("").None?;
    assert h.replies + [] == h.replies;
  }

  /** A store that is carried out: the coordinator's request text leaves the whole chunk under
      its name, and the answer reads as acknowledged, if and only if the name holds no NUL. */
  lemma StoreIsTouch(disks: C.Disks, i: nat, l: Local, order: Order, f: string, k: nat, piece: string)
    requires i < |disks| && disks[i] == l.files && OnNode(l)
    requires IsWord(f) && '/' !in f && |piece| < SIZE_LIMIT
    ensures var c := Put(ChunkName(f, k), piece);
            var served := Serve(l, order, Encode(c));
            && ReadAnswer(c, RenderAll(served.replies)) == Some((Acked, ""))
            && disks[i := served.local.files] == C.Touch(disks, i, ChunkName(f, k), Some(piece))
            <==> '\0' !in f
  {
    hide Serve, Encode, RemoveRoot, IsWord, ReadAnswer;
    ChunkNameIsWord(f, k);
    ChunkNameIsFlat(f, k);
    CutChunkName(f, k);
    ServeStore(l, order, ChunkName(f, k), piece);
    OkReadsBack(Put(ChunkName(f, k), piece), "");
    assert RenderAll([Ok]) == Render(Ok) + "";
    RootKept(l);
    var served := Serve(l, order, Encode(Put(ChunkName(f, k), piece)));
    if '\0' in f {
      assert '\0' in ChunkName(f, k);
      assert ChunkName(f, k) !in served.local.files;
      assert disks[i := served.local.files][i] == served.local.files;
    }
  }

  lemma RootKept(l: Local)
    ensures RemoveRoot(l, true).0.files == l.files && RemoveRoot(l, false).0.files == l.files
  {
  }

  /** Of two different chunks stored in turn, of one file or of two, the first reads back as itself
      unless the cut names collide; then it reads back as the second. */
  lemma SecondChunkOverwrites(l: Local, order: Order, f: string, j: nat, g: string, k: nat, p: string, q: string)
    requires IsWord(f) && f[0] != '\0' && '/' !in f && IsWord(g) && g[0] != '\0' && '/' !in g
    requires (f != g || j != k) && |p| < SIZE_LIMIT && |q| < SIZE_LIMIT
    ensures var cs := [Put(ChunkName(f, j), p), Put(ChunkName(g, k), q), Get(ChunkName(f, j))];
            var served := Serve(l, order, EncodeAll(cs));
            served.replies == [Ok, Ok, File(CString(ChunkName(f, j)), if CutTogether(f, j, g, k) then q else p)]
  {
    hide Serve, EncodeAll, IsWord, CutTogether;
    ChunkNameIsWord(f, j);
    ChunkNameIsWord(g, k);
    var a, b, c := Put(ChunkName(f, j), p), Put(ChunkName(g, k), q), Get(ChunkName(f, j));
    ServeExecutes(l, order, [a, b, c]);
    ThreeCommands(l, a, b, c);
    ChunksKeptApart(f, j, g, k);
    ChunkNameIsFlat(f, j);
    ChunkNameIsFlat(g, k);
    KeyIsFlat(ChunkName(f, j));
    KeyIsFlat(ChunkName(g, k));
  }

  lemma KeyIsFlat(name: string)
    requires '/' !in name
    ensures Parent(CString(name)) == ROOT
  {
    FlatParent(CString(name));
  }

  lemma ThreeCommands(l: Local, a: Command, b: Command, c: Command)
    ensures var l1 := Execute(l, a).0; var l2 := Execute(l1, b).0;
            ExecuteAll(l, [a, b, c]).1 == [Execute(l, a).1, Execute(l1, b).1, Execute(l2, c).1]
  {
    var l1 := Execute(l, a).0;
    var l2 := Execute(l1, b).0;
    assert [a, b, c][1..] == [b, c] && [b, c][1..] == [c] && [c][1..] == [];
    assert ExecuteAll(l2, [c]).1 == [Execute(l2, c).1];
    assert ExecuteAll(l1, [b, c]).1 == [Execute(l1, b).1] + ExecuteAll(l2, [c]).1;
  }

  /** Such a name is admitted, and both chunks of "xy" end up in one file. */
  lemma CutNameIsAdmitted(l: Local, order: Order)
    ensures var f := "a\0b";
            var cs := [Put(ChunkName(f, 0), "x"), Put(ChunkName(f, 1), "y"), Get(ChunkName(f, 0))];
            && ClientProtocol.ParseCommand("UPLOAD a\0b 2") == ClientProtocol.UploadRequest(f, 2)
            && !UploadHandler.BadName(f)
            && Serve(l, order, EncodeAll(cs)).replies == [Ok, Ok, File("a", "y")]
  {
    hide Serve, EncodeAll, ClientProtocol.ParseCommand;
    var f := "a\0b";
    SecondChunkOverwrites(l, order, f, 0, f, 1, "x", "y");
    CutChunkName(f, 0);
    CStringStops("a", "b");
    ClientProtocol.UploadLine(f, 2);
    assert "UPLOAD " + f + " " + Decimal(2) == "UPLOAD a\0b 2";
  }

  /** And so is a name whose chunk overwrites a chunk of another file, which holds no NUL itself. */
  lemma CutNameHitsOtherFile(l: Local, order: Order)
    ensures var f := "x_chunk0\0";
            var cs := [Put(ChunkName("x", 0), "p"), Put(ChunkName(f, 0), "q"), Get(ChunkName("x", 0))];
            && ClientProtocol.ParseCommand("UPLOAD x_chunk0\0 1") == ClientProtocol.UploadRequest(f, 1)
            && !UploadHandler.BadName(f)
            && Serve(l, order, EncodeAll(cs)).replies == [Ok, Ok, File("x_chunk0", "q")]
  {
    hide Serve, EncodeAll, ClientProtocol.ParseCommand, UploadHandler.BadName, IsWord, CString, ChunkName, CutTogether;
    var f := "x_chunk0\0";
    HittingName();
    SecondChunkOverwrites(l, order, "x", 0, f, 0, "p", "q");
    CutChunkName("x", 0);
    ClientProtocol.UploadLine(f, 1);
    assert "UPLOAD " + f + " " + Decimal(1) == "UPLOAD x_chunk0\0 1";
  }

  lemma HittingName()
    ensures var f := "x_chunk0\0";
            && IsWord(f) && IsWord("x") && !UploadHandler.BadName(f) && '/' !in f && ChunkName("x", 0) == "x_chunk0"
            && CutTogether("x", 0, f, 0)
  {
    hide CutTogether, CString, ChunkName;
    var chunk, f := ChunkName("x", 0), "x_chunk0\0";
    HitsFirstChunk(f);
    ChunkNameIsWord("x", 0);
    ChunkNameIsFlat("x", 0);
    assert f == chunk + "\0";
    PlainName(f);
  }

  lemma PlainName(f: string)
    requires f == "x_chunk0\0"
    ensures !UploadHandler.BadName(f)
  {
    assert '.' !in f;
  }

  lemma HitsFirstChunk(f: string)
    requires f == "x_chunk0\0"
    ensures ChunkName("x", 0) == "x_chunk0" && CutTogether("x", 0, f, 0)
  {
    CStringStops("x_chunk0", "");
    assert "x_chunk0" + "\0" + "" == f && f[8] == '\0';
    assert ChunkName("x", 0) == "x_chunk0";
  }

  /** The deletion request for a name, as a node reads it. */
  lemma ServeDelete(l: Local, order: Order, name: string)
    requires IsWord(name)
    ensures var key := CString(name);
            Serve(l, order, Encode(Del(name)))
            == if key == ROOT then Served(RemoveRoot(l, false).0, RemoveRoot(l, false).1, Lost)
               else Served(DeleteLocal(l, key).0, [DeleteLocal(l, key).1], Serving)
  {
    hide NextWord, NextSize, ParseRequest, SplitLine, DeleteLocal, RemoveRoot, Serve;
    var c := Del(name);
    OtherLineParses("NODE_DELETE", name);
    assert "NODE_DELETE " + name == "NODE_DELETE" + " " + name;
    HeadLineIsPlain(c);
    SplitLineOf(HeadLine(c), "");
    assert Encode(c) == HeadLine(c) + "\n" + "";
    ServeRest(l, order, c, "");
  }

  /** A deletion that is carried out: only that chunk can be gone, unless the name is cut to that
      of another file; and it is acknowledged exactly when there was such a file. */
  lemma DeleteIsTouch(disks: C.Disks, i: nat, l: Local, order: Order, name: string)
    requires i < |disks| && disks[i] == l.files && OnNode(l) && IsWord(name)
    ensures var served := Serve(l, order, Encode(Del(name)));
            && (disks[i := served.local.files] == C.Touch(disks, i, name, None)
                <==> '\0' !in name || CString(name) !in l.files)
            && ('\0' !in name ==>
                  ReadAnswer(Del(name), RenderAll(served.replies))
                  == Some((if name in l.files then Acked else Refused, "")))
  {
    hide Serve, Encode, RemoveRoot, ReadAnswer;
    ServeDelete(l, order, name);
    RootKept(l);
    OkReadsBack(Del(name), "");
    ErrorReadsBack(Del(name), "failed to delete file", "");
    assert forall r :: RenderAll([r]) == Render(r) + "";
    var served := Serve(l, order, Encode(Del(name)));
    assert disks[i := served.local.files][i] == served.local.files;
    assert name !in l.files ==> l.files - {name} == l.files;
    assert '\0' !in name ==> CString(name) == name;
    assert CString(name) !in l.files ==> l.files - {CString(name)} == l.files;
    if '\0' in name && CString(name) in l.files {
      assert CString(name) !in served.local.files && CString(name) in l.files - {name};
    }
  }

  /** The request for a name's contents, as a node reads it. */
  lemma ServeRetrieve(l: Local, order: Order, name: string)
    requires IsWord(name)
    ensures Serve(l, order, Encode(Get(name))) == Served(l, [RetrieveLocal(l, CString(name))], Serving)
  {
    hide NextWord, NextSize, ParseRequest, SplitLine, RetrieveLocal, Serve;
    var c := Get(name);
    OtherLineParses("NODE_RETRIEVE", name);
    assert "NODE_RETRIEVE " + name == "NODE_RETRIEVE" + " " + name;
    HeadLineIsPlain(c);
    SplitLineOf(HeadLine(c), "");
    assert Encode(c) == HeadLine(c) + "\n" + "";
    ServeRest(l, order, c, "");
  }

  lemma OneReplyText(reply: Reply)
    ensures RenderAll([reply]) == Render(reply) + ""
  {
    OneLine(reply);
  }

  /** A request for a chunk: nothing changes on the node, and the coordinator reads exactly the bytes
      under that name, or that there are none. Only a name with a NUL gets those of its cut name. */
  lemma RetrieveIsRead(disks: C.Disks, i: nat, l: Local, order: Order, name: string)
    requires i < |disks| && disks[i] == l.files && OnNode(l) && Fits(l) && IsWord(name) && name[0] != '\0'
    ensures var served := Serve(l, order, Encode(Get(name)));
            var key := if '\0' in name then CString(name) else name;
            && served.local == l && served.fate == Serving
            && ReadAnswer(Get(name), RenderAll(served.replies))
               == Some((if C.OnDisk(disks, i, key) then Got(key, disks[i][key]) else Refused, ""))
  {
    hide Serve, Encode, ReadAnswer, Render, RenderAll, IsWord;
    var key := CString(name);
    ServeRetrieve(l, order, name);
    OneReplyText(RetrieveLocal(l, key));
    KeyIsWord(name);
    GetIsAnswered(l, name);
    assert '\0' !in name ==> key == name;
    assert Serve(l, order, Encode(Get(name))).replies == [RetrieveLocal(l, key)];
    assert C.OnDisk(disks, i, key) <==> key in l.files;
  }

  lemma GetIsAnswered(l: Local, name: string)
    requires OnNode(l) && Fits(l) && IsWord(CString(name))
    ensures var key := CString(name);
            ReadAnswer(Get(name), Render(RetrieveLocal(l, key)) + "")
            == Some((if key in l.files then Got(key, l.files[key]) else Refused, ""))
  {
    hide ReadAnswer, Render, CString;
    var key := CString(name);
    if key in l.files {
      FileAnswer(name, key, l.files[key], "");
    } else {
      ErrorReadsBack(Get(name), "file not found", "");
      assert RetrieveLocal(l, key) == Error("file not found");
    }
  }

  /** A store or deletion cut off by a crash, once the node is up again: some effect on that one
      name, which is all the state machine assumes of a request that was not acknowledged. */
  lemma CrashIsTouch(disks: C.Disks, i: nat, op: Op, before: Disk, k: nat)
    requires i < |disks| && disks[i] == before.files
    requires Quiescent(before) && FlatName(before, op.name) && k < |Steps(op, before)|
    requires Harmless(Steps(op, before)[k], op.name)
    ensures var b := Recover(Steps(op, before)[k]);
            b.Up? && disks[i := b.disk.files] == C.Touch(disks, i, op.name, EffectOn(op.name, b.disk.files))
  {
    CrashThenRecover(op, before, k);
    SameButOne(before.files, Recover(Steps(op, before)[k]).disk.files, op.name);
  }

  lemma SameButOne(a: map<string, string>, b: map<string, string>, name: string)
    requires a - {name} == b - {name}
    ensures b == if name in b then a[name := b[name]] else a - {name}
  {
    forall p | p in b && p != name ensures p in a && a[p] == b[p] {
      assert p in b - {name} && (b - {name})[p] == b[p];
    }
    forall p | p in a && p != name ensures p in b {
      assert p in a - {name};
    }
  }
}
