/** The server around a node's storage: one handler per command and the command loop. */
module NodeServer {
  import opened Wrappers
  import opened Text
  import opened Descriptors
  import opened Logs
  import opened Journal
  import opened NodeStorage
  import opened NodeProtocol
  import opened CrashRecovery
  import opened Durability

  class Server {
    const order: Order
    const storage: NodeInternal

    constructor (storage: NodeInternal, order: Order)
      ensures this.storage == storage && this.order == order
    {
      this.storage, this.order := storage, order;
    }

    /** Chunks are flat files, no operation is open between two commands, and recovery has left
        nothing to be done. */
    ghost predicate Valid()
      reads this, storage
    {
      && Quiescent(storage.View()) && Flat(storage.View()) && storage.curModifying == 0
    }

    ghost predicate Flat(d: Disk) {
      d.dirs == {ROOT} && forall p :: p in d.files ==> p != ROOT && Parent(p) == ROOT
    }

    /** The start of NodeServer::run. A node that gets through it can serve, unless the journal
        named the storage directory itself, which is then gone. */
    method Start() returns (threw: bool)
      requires Flat(storage.View()) && |storage.status| <= 1
      requires storage.curModifying == 0 && storage.CacheExact()
      modifies storage, storage.log`disks
      ensures Recover(old(storage.View())) == if threw then Threw(storage.View()) else Up(storage.View())
      ensures storage.log.disks == old(storage.log.disks) + BootSteps(old(storage.View()))
      ensures threw
              <==> Interrupted(old(storage.View())) && old(storage.modifying) == ROOT && old(storage.files) != map[]
      ensures Valid() <==> !(Interrupted(old(storage.View())) && old(storage.modifying) == ROOT)
      ensures storage.CacheExact()
    {
      ghost var d := storage.View();
      assert Mounted(d) == d;
      if Interrupted(d) {
        if d.modifying in d.dirs {
          RecoverDirectory(d);
        } else {
          RecoverDeletes(d);
        }
      }
      threw := storage.RecoverAtStart();
    }

    ghost function View(): Local
      reads this, storage
    {
      Local(storage.files, storage.bytesStored)
    }

    /** The part of handle_store under the storage lock. */
    method StoreLocked(key: string, pipe: Descriptor) returns (threw: bool, ghost blocks: seq<string>)
      requires Valid()
      modifies storage, storage.log`disks, pipe`incoming
      ensures storage.log.disks
              == old(storage.log.disks) + Steps(StoreOp(old(storage.View()), key, blocks), old(storage.View()))
      ensures storage.View()
              == Last(old(storage.View()), Steps(StoreOp(old(storage.View()), key, blocks), old(storage.View())))
      ensures threw <==> key == ROOT && old(storage.files) != map[]
      ensures !threw ==> Concat(blocks) == old(pipe.incoming)
      ensures key != ROOT ==> Valid() && View() == StoreLocal(old(View()), key, old(pipe.incoming))
      ensures key == ROOT ==> View() == RemoveRoot(old(View()), true).0
    {
      ghost var d := storage.View();
      TotalUpdate(storage.files, key, pipe.incoming);
      threw := false;
      var result: int;
      if key in storage.files || key in storage.dirs {
        result, threw, blocks := storage.ReplaceFile(key, pipe);
      } else {
        result, blocks := storage.CreateFile(key, pipe);
      }
      if key != ROOT {
        StoreOpEnds(d, key, blocks);
      } else {
        RootReplaced(d, blocks);
      }
    }

    /** The payload goes through a pipe into a replaced or a new file. Every persistent change
        of the store, up to the closed journal, comes before the first byte of OK. */
    method HandleStore(conn: Descriptor, name: string, size: nat) returns (threw: bool, ghost blocks: seq<string>)
      requires Valid() && conn.log == storage.log
      modifies storage, storage.log`disks, conn, conn.log`sends
      ensures var n := Min(size, |old(conn.incoming)|);
              conn.incoming == old(conn.incoming)[n..] && (!threw ==> Concat(blocks) == old(conn.incoming)[..n])
      ensures threw <==> CString(name) == ROOT && old(storage.files) != map[]
      ensures StoreLogged(old(storage.View()), CString(name), blocks,
                          old(storage.log.disks), storage.log.disks, old(conn.log.sends), conn.log.sends)
      ensures CString(name) != ROOT ==>
                Valid() && View()
                == StoreLocal(old(View()), CString(name), old(conn.incoming)[..Min(size, |old(conn.incoming)|)])
      ensures CString(name) != ROOT && Parent(CString(name)) == ROOT && size <= |old(conn.incoming)| ==>
                Permanent(old(storage.View()), storage.log.disks, conn.log.sends, |old(conn.log.sends)|,
                          CString(name), old(conn.incoming)[..size])
      ensures CString(name) == ROOT ==> View() == RemoveRoot(old(View()), true).0
      ensures threw ==> conn.sent == old(conn.sent) && conn.broken == old(conn.broken)
      ensures !threw && !conn.broken ==> !old(conn.broken) && conn.sent == old(conn.sent) + Render(Ok)
    {
      ghost var said := conn.log.sends;
      var pipe := new Descriptor("", storage.log);
      PipePayload(conn, size, pipe);
      threw, blocks := StoreLocked(CString(name), pipe);
      if threw {
        NothingSaid(said, |storage.log.disks|);
        return;
      }
      assert "OK\n" == Render(Ok);
      ghost var disks := storage.log.disks;
      var ok := SendAll(conn, "OK\n");
      if CString(name) != ROOT && Parent(CString(name)) == ROOT {
        AcknowledgedIsDurable(old(storage.View()), CString(name), blocks,
                              old(storage.log.disks), disks, old(conn.log.sends), conn.log.sends);
      }
    }

    lemma NothingSaid(sends: seq<Sent>, changes: nat)
      ensures SaidPart(sends, sends, changes, Render(Ok))
    {
      assert SaidAfter(sends, sends, changes, Render(Ok)[..0]);
    }

    lemma StoreOpEnds(d: Disk, name: string, blocks: seq<string>)
      requires name !in d.dirs
      ensures var op := StoreOp(d, name, blocks);
              Last(d, Steps(op, d)) == Ended(Outcome(op, d))
    {
      BodyShape(StoreOp(d, name, blocks), Started(d, name));
    }

    /** Replacing the storage directory. */
    lemma RootReplaced(d: Disk, blocks: seq<string>)
      requires Flat(d)
      ensures Throws(Replace(ROOT, blocks), d) <==> d.files != map[]
      ensures Last(d, Steps(Replace(ROOT, blocks), d)).files == d.files
    {
      assert forall p :: p in d.files ==> Under(ROOT, p);
    }

    /** A directory can be opened too, but not read: only the header goes out. */
    method HandleRetrieve(conn: Descriptor, name: string)
      requires Valid()
      modifies conn`sent, conn`broken, conn.log`sends
      ensures !conn.broken ==>
                !old(conn.broken) && conn.sent == old(conn.sent) + Render(RetrieveLocal(View(), CString(name)))
    {
      var key := CString(name);
      if key !in storage.files && key !in storage.dirs {
        SendError(conn, "file not found");
        return;
      }
      var size := storage.GetFileSize(key);
      if key in storage.files {
        SendFile(conn, key, size, storage.files[key]);
      } else {
        assert Within(storage.files, ROOT) == storage.files;
        SendFolder(conn, key, size);
      }
    }

    method SendError(conn: Descriptor, why: string)
      modifies conn`sent, conn`broken, conn.log`sends
      ensures !conn.broken ==> !old(conn.broken) && conn.sent == old(conn.sent) + Render(Error(why))
    {
      var ok := SendAll(conn, "ERROR " + why + "\n");
    }

    method SendFile(conn: Descriptor, name: string, size: nat, bytes: string)
      requires size == |bytes|
      modifies conn`sent, conn`broken, conn.log`sends
      ensures !conn.broken ==> !old(conn.broken) && conn.sent == old(conn.sent) + Render(File(name, bytes))
    {
      var source := new Descriptor(bytes, conn.log);
      var ok := SendFileData(conn, name, size, source);
      assert bytes[..size] == bytes;
      LineAppend(old(conn.sent), FileHeader(name, size), bytes);
    }

    method SendFolder(conn: Descriptor, name: string, size: nat)
      requires name == ROOT
      modifies conn`sent, conn`broken, conn.log`sends
      ensures !conn.broken ==> !old(conn.broken) && conn.sent == old(conn.sent) + Render(Folder(size))
    {
      var source := new Descriptor("", conn.log);
      var ok := SendFileData(conn, name, size, source);
      LineAppend(old(conn.sent), FileHeader(name, size), "");
      assert FileHeader(name, size) + "" == Render(Folder(size));
    }

    /** The part of handle_delete under the storage lock. */
    method DeleteAndRecount(key: string) returns (result: int, threw: bool)
      requires Valid()
      modifies storage, storage.log`disks
      ensures threw <==> key == ROOT && old(storage.files) != map[]
      ensures key != ROOT ==> Valid() && View() == DeleteLocal(old(View()), key).0
      ensures key != ROOT ==> result == if key in old(storage.files) then 0 else 1
      ensures key == ROOT ==> View() == RemoveRoot(old(View()), false).0 && (!threw ==> result == 0)
    {
      ghost var d := storage.View();
      TotalWithout(storage.files, key);
      assert key !in storage.files ==> storage.files - {key} == storage.files;
      RootDeleted(d);
      result, threw := storage.DeleteFile(key);
      if threw {
        return;
      }
      if result != 0 {
        var total := storage.ComputeNodeSize();
      }
    }

    lemma RootDeleted(d: Disk)
      requires Flat(d)
      ensures Throws(Delete(ROOT), d) <==> d.files != map[]
      ensures Last(d, Steps(Delete(ROOT), d)).files == d.files
    {
      assert forall p :: p in d.files ==> Under(ROOT, p);
    }

    method HandleDelete(conn: Descriptor, name: string) returns (threw: bool)
      requires Valid()
      modifies storage, storage.log`disks, conn`sent, conn`broken, conn.log`sends
      ensures threw <==> CString(name) == ROOT && old(storage.files) != map[]
      ensures CString(name) != ROOT ==> Valid() && View() == DeleteLocal(old(View()), CString(name)).0
      ensures CString(name) != ROOT && !conn.broken ==>
                !old(conn.broken) && conn.sent == old(conn.sent) + Render(DeleteLocal(old(View()), CString(name)).1)
      ensures CString(name) == ROOT ==> View() == RemoveRoot(old(View()), false).0
      ensures threw ==> conn.sent == old(conn.sent) && conn.broken == old(conn.broken)
      ensures CString(name) == ROOT && !threw && !conn.broken ==>
                !old(conn.broken) && conn.sent == old(conn.sent) + Render(Ok)
    {
      var result: int;
      result, threw := DeleteAndRecount(CString(name));
      if threw {
        return;
      }
      if result != 0 {
        SendError(conn, "failed to delete file");
        return;
      }
      assert "OK\n" == Render(Ok);
      var ok := SendAll(conn, "OK\n");
    }

    /** The lines of a listing. */
    method ListLines(names: seq<string>) returns (lines: string)
      ensures lines == RenderEntries(Entries(storage.files, names))
    {
      lines := "";
      var count := 0;
      while count < |names|
        invariant 0 <= count <= |names|
        invariant lines + RenderEntries(Entries(storage.files, names[count..]))
                  == RenderEntries(Entries(storage.files, names))
      {
        var size := if names[count] in storage.files then |storage.files[names[count]]| else 0;
        var line := names[count] + " " + Decimal(size) + "\n";
        NextEntry(storage.files, names[count..]);
        assert names[count..][1..] == names[count + 1..];
        LineAppend(lines, line, RenderEntries(Entries(storage.files, names[count + 1..])));
        lines := lines + line;
        count := count + 1;
      }
      assert lines + "" == lines;
    }

    lemma LineAppend(lines: string, line: string, rest: string)
      ensures (lines + line) + rest == lines + (line + rest)
    {
    }

    lemma NextEntry(files: map<string, string>, names: seq<string>)
      requires names != []
      ensures RenderEntries(Entries(files, names))
              == (names[0] + " " + Decimal(if names[0] in files then |files[names[0]]| else 0) + "\n")
                 + RenderEntries(Entries(files, names[1..]))
    {
      assert Entries(files, names)[1..] == Entries(files, names[1..]);
    }

    method HandleList(conn: Descriptor)
      requires Valid()
      modifies conn`sent, conn`broken, conn.log`sends
      ensures !conn.broken ==> !old(conn.broken) && conn.sent == old(conn.sent) + Render(ListLocal(View(), order))
    {
      var names := order(storage.files.Keys);
      var lines := ListLines(names);
      EntriesLength(storage.files, names);
      var response := "LIST " + Decimal(|names|) + "\n" + lines;
      var ok := SendAll(conn, response);
    }

    lemma EntriesLength(files: map<string, string>, names: seq<string>)
      ensures |Entries(files, names)| == |names|
    {
    }

    method HandleStatus(conn: Descriptor)
      requires Valid()
      modifies conn`sent, conn`broken, conn.log`sends
      ensures !conn.broken ==> !old(conn.broken) && conn.sent == old(conn.sent) + Render(StatusLocal(View(), order))
    {
      var count := |order(storage.files.Keys)|;
      var total := if storage.bytesStored < 0 then 0 else storage.bytesStored;
      var ok := SendAll(conn, "STATUS " + Decimal(count) + " " + Decimal(total) + "\n");
    }

    /** One command: the handler it names, on the storage and on the stream. */
    method Dispatch(conn: Descriptor, line: string) returns (fate: Fate)
      requires Valid() && conn.log == storage.log
      modifies storage, storage.log`disks, conn, conn.log`sends
      ensures fate == Lost || Valid()
      ensures var h := Handle(old(View()), order, line, old(conn.incoming));
              && View() == h.local && conn.incoming == h.rest && fate == h.fate
              && (!conn.broken ==> !old(conn.broken) && conn.sent == old(conn.sent) + RenderAll(h.replies))
    {
      fate := Serving;
      var threw: bool;
      OneReply(conn.sent);
      match ParseRequest(line) {
        case StoreRequest(name, size) =>
          ghost var blocks;
          threw, blocks := HandleStore(conn, name, size);
          fate := if CString(name) == ROOT then Lost else Serving;
        case RetrieveRequest(name) => HandleRetrieve(conn, name);
        case DeleteRequest(name) =>
          threw := HandleDelete(conn, name);
          fate := if CString(name) == ROOT then Lost else Serving;
        case ListRequest => HandleList(conn);
        case StatusRequest => HandleStatus(conn);
        case KillRequest =>
          assert "OK\n" == Render(Ok);
          var sent := SendAll(conn, "OK\n");
          fate := Killed;
        case BadSyntax(command) =>
          SendError(conn, "invalid " + command + " syntax");
        case UnknownRequest =>
          SendError(conn, "unknown command");
      }
    }

    lemma OneReply(sent: string)
      ensures forall r :: RenderAll([r]) == Render(r)
      ensures sent + RenderAll([]) == sent
    {
      forall r ensures RenderAll([r]) == Render(r) {
        assert [r][1..] == [];
        assert RenderAll([r]) == Render(r) + RenderAll([]);
      }
    }

    /** Whatever the connection delivers, however it is split: the storage and the replies are
        those of Serve, and what becomes of the server. */
    method HandleConnection(conn: Descriptor) returns (fate: Fate)
      requires Valid() && conn.log == storage.log
      modifies storage, storage.log`disks, conn, conn.log`sends
      ensures fate == Lost || Valid()
      ensures var served := Serve(old(View()), order, old(conn.incoming));
              && View() == served.local && fate == served.fate
              && (!conn.broken ==> conn.sent == old(conn.sent) + RenderAll(served.replies))
    {
      fate := Serving;
      ghost var done: seq<Reply> := [];
      ghost var whole := Serve(View(), order, conn.incoming);
      while fate.Serving?
        invariant fate == Lost || Valid()
        invariant if fate.Serving? then Continues(whole, done, View(), order, conn.incoming)
                  else whole == Served(View(), done, fate)
        invariant !conn.broken ==> conn.sent == old(conn.sent) + RenderAll(done)
        decreases fate.Serving?, |conn.incoming|
      {
        ghost var l, stream := View(), conn.incoming;
        var ok, line := RecvLine(conn);
        if !ok {
          assert done + [] == done;
          return;
        }
        ServeNext(whole, done, l, order, stream);
        ghost var replies;
        fate, replies := Answer(conn, line, old(conn.sent), done);
        done := done + replies;
      }
    }

    /** One command and its reply, behind the replies that have been sent. */
    method Answer(conn: Descriptor, line: string, ghost sent: string, ghost done: seq<Reply>)
      returns (fate: Fate, ghost replies: seq<Reply>)
      requires Valid() && conn.log == storage.log && (!conn.broken ==> conn.sent == sent + RenderAll(done))
      modifies storage, storage.log`disks, conn, conn.log`sends
      ensures fate == Lost || Valid()
      ensures var h := Handle(old(View()), order, line, old(conn.incoming));
              View() == h.local && conn.incoming == h.rest && fate == h.fate && replies == h.replies
      ensures !conn.broken ==> conn.sent == sent + RenderAll(done + replies)
    {
      replies := Handle(View(), order, line, conn.incoming).replies;
      RenderAllAppend(done, replies);
      fate := Dispatch(conn, line);
    }

    /** What is left of the stream yields the rest of the replies. */
    ghost predicate Continues(whole: Served, done: seq<Reply>, l: Local, order: Order, stream: string) {
      var rest := Serve(l, order, stream);
      whole == rest.(replies := done + rest.replies)
    }

    lemma ServeNext(whole: Served, done: seq<Reply>, l: Local, order: Order, stream: string)
      requires Continues(whole, done, l, order, stream) && SplitLine(stream).Some?
      ensures var h := Handle(l, order, SplitLine(stream).value.0, SplitLine(stream).value.1);
              if h.fate.Serving? then Continues(whole, done + h.replies, h.local, order, h.rest)
              else whole == Served(h.local, done + h.replies, h.fate)
    {
      var h := Handle(l, order, SplitLine(stream).value.0, SplitLine(stream).value.1);
      ServeLine(l, order, stream, h);
      if h.fate.Serving? {
        var later := Serve(h.local, order, h.rest).replies;
        assert done + (h.replies + later) == (done + h.replies) + later;
      }
    }

    lemma ServeLine(l: Local, order: Order, stream: string, h: Handled)
      requires SplitLine(stream).Some? && h == Handle(l, order, SplitLine(stream).value.0, SplitLine(stream).value.1)
      ensures Serve(l, order, stream)
              == if h.fate.Serving? then Then(h.replies, Serve(h.local, order, h.rest))
                 else Served(h.local, h.replies, h.fate)
    {
    }

    lemma {:induction false} RenderAllAppend(replies: seq<Reply>, more: seq<Reply>)
      ensures RenderAll(replies + more) == RenderAll(replies) + RenderAll(more)
      decreases |replies|
    {
      if replies == [] {
        assert replies + more == more;
      } else {
        assert (replies + more)[1..] == replies[1..] + more;
        RenderAllAppend(replies[1..], more);
      }
    }
  }
}
