/** File descriptors and the loops over them. A descriptor delivers `incoming` and then
    end-of-file or an error; every read and write may be short in any way, so a contract
    stated in terms of `incoming` and `sent` holds for every way the stream is split. */
module Descriptors {
  import opened Wrappers
  import opened Text
  import opened Logs

  const BLOCK: nat := 65536

  class Descriptor {
    var incoming: string  // bytes that will still be delivered before end-of-file or an error
    var sent: string      // bytes accepted for the peer
    var broken: bool      // a write has failed
    ghost const log: Log

    constructor (incoming: string, ghost log: Log)
      ensures this.incoming == incoming && sent == "" && !broken && this.log == log
    {
      this.incoming, sent, broken := incoming, "", false;
      this.log := log;
    }

    /** read(2): between 1 and n bytes, or none at the end. */
    method Read(n: nat) returns (got: string)
      modifies this`incoming
      ensures got + incoming == old(incoming) && |got| <= n
      ensures n > 0 && old(incoming) != "" ==> got != ""
    {
      var most := Min(n, |incoming|);
      var k :| 0 <= k <= most && (most > 0 ==> k > 0);
      got := incoming[..k];
      incoming := incoming[k..];
    }

    /** write(2): some non-empty prefix is accepted, or the write fails. */
    method Write(buf: string) returns (n: int)
      modifies this`sent, this`broken, log`sends
      ensures n <= |buf|
      ensures n > 0 ==> sent == old(sent) + buf[..n] && broken == old(broken)
      ensures log.sends == if n > 0 then old(log.sends) + [Sent(|log.disks|, buf[..n])] else old(log.sends)
      ensures n <= 0 ==> sent == old(sent) && (broken == (old(broken) || buf != ""))
    {
      var k: int :| k <= |buf|;
      if k > 0 {
        sent := sent + buf[..k];
        log.Send(buf[..k]);
      } else if buf != "" {
        broken := true;
      }
      n := k;
    }
  }

  /** The first line and what follows it, or None when no newline ever arrives. */
  function SplitLine(s: string): (r: Option<(string, string)>)
    ensures r.Some? ==> s == r.value.0 + "\n" + r.value.1 && '\n' !in r.value.0
    ensures r.None? <==> '\n' !in s
    ensures r.Some? ==> |r.value.1| < |s|
  {
    if s == "" then None
    else if s[0] == '\n' then Some(("", s[1..]))
    else match SplitLine(s[1..])
      case None => None
      case Some(lr) => Some(([s[0]] + lr.0, lr.1))
  }

  lemma {:induction false} SplitLineOf(line: string, rest: string)
    requires '\n' !in line
    ensures SplitLine(line + "\n" + rest) == Some((line, rest))
    decreases |line|
  {
    var s := line + "\n" + rest;
    if line == "" {
      assert s[1..] == rest;
    } else {
      assert s[0] == line[0] && s[1..] == line[1..] + "\n" + rest;
      SplitLineOf(line[1..], rest);
      assert line == [line[0]] + line[1..];
    }
  }

  method SendAll(fd: Descriptor, buf: string) returns (ok: bool)
    modifies fd`sent, fd`broken, fd.log`sends
    ensures ok ==> fd.sent == old(fd.sent) + buf && fd.broken == old(fd.broken)
    ensures !ok ==> fd.broken && exists k :: 0 <= k < |buf| && fd.sent == old(fd.sent) + buf[..k]
    ensures ok ==> SaidAfter(old(fd.log.sends), fd.log.sends, |fd.log.disks|, buf)
    ensures SaidPart(old(fd.log.sends), fd.log.sends, |fd.log.disks|, buf)
  {
    var total := 0;
    assert old(fd.sent) + buf[..0] == old(fd.sent);
    while total < |buf|
      invariant 0 <= total <= |buf|
      invariant fd.sent == old(fd.sent) + buf[..total] && fd.broken == old(fd.broken)
      invariant SaidAfter(old(fd.log.sends), fd.log.sends, |fd.log.disks|, buf[..total])
    {
      ghost var said := fd.log.sends;
      var n := fd.Write(buf[total..]);
      if n <= 0 {
        return false;
      }
      SaidMore(old(fd.log.sends), said, |fd.log.disks|, buf[..total], buf[total..][..n]);
      assert buf[..total] + buf[total..][..n] == buf[..total + n];
      total := total + n;
    }
    assert buf[..total] == buf;
    ok := true;
  }

  /** The line without its newline; on failure everything that was left has been consumed. */
  method RecvLine(fd: Descriptor) returns (ok: bool, line: string)
    modifies fd`incoming
    ensures ok == SplitLine(old(fd.incoming)).Some?
    ensures ok ==> SplitLine(old(fd.incoming)) == Some((line, fd.incoming))
    ensures !ok ==> fd.incoming == "" && line == old(fd.incoming)
  {
    line := "";
    while true
      invariant line + fd.incoming == old(fd.incoming) && '\n' !in line
      decreases |fd.incoming|
    {
      var before := fd.incoming;
      var got := fd.Read(1);
      if got == "" {
        assert line + "" == line;
        return false, line;
      }
      if got[0] == '\n' {
        assert old(fd.incoming) == line + "\n" + fd.incoming;
        SplitLineOf(line, fd.incoming);
        return true, line;
      }
      assert line + before == (line + got) + fd.incoming;
      line := line + got;
    }
  }

  /** Fills the first n places of `buf`, in place. */
  method RecvFileData(fd: Descriptor, n: nat, buf: array<char>) returns (ok: bool)
    requires n <= buf.Length
    modifies fd`incoming, buf
    ensures ok == (|old(fd.incoming)| >= n)
    ensures ok ==> buf[..n] == old(fd.incoming)[..n] && fd.incoming == old(fd.incoming)[n..]
    ensures !ok ==> fd.incoming == ""
    ensures buf[n..] == old(buf[n..])
  {
    var total := 0;
    while total < n
      invariant 0 <= total <= n
      invariant buf[..total] + fd.incoming == old(fd.incoming)
      invariant buf[n..] == old(buf[n..])
    {
      var got := fd.Read(n - total);
      if got == "" {
        return false;
      }
      ghost var done := buf[..total];
      forall k | 0 <= k < |got| {
        buf[total + k] := got[k];
      }
      assert buf[..total] == done;
      assert buf[..total + |got|] == done + got;
      total := total + |got|;
    }
    ok := true;
  }

  function FileHeader(name: string, size: nat): string {
    "FILE " + name + " " + Decimal(size) + "\n"
  }

  /** Header, then `size` bytes of `source` in blocks. */
  method SendFileData(fd: Descriptor, name: string, size: nat, source: Descriptor) returns (ok: bool)
    requires fd != source
    modifies fd`sent, fd`broken, fd.log`sends, source`incoming
    ensures ok ==> size <= |old(source.incoming)|
    ensures ok ==> fd.sent == old(fd.sent) + FileHeader(name, size) + old(source.incoming)[..size]
    ensures ok ==> fd.broken == old(fd.broken)
    ensures !ok && !fd.broken ==>
              |old(source.incoming)| < size && !old(fd.broken)
              && fd.sent == old(fd.sent) + FileHeader(name, size) + old(source.incoming)
  {
    var header := FileHeader(name, size);
    var sentHeader := SendAll(fd, header);
    if !sentHeader {
      return false;
    }
    ghost var data := source.incoming;
    var remaining := size;
    while remaining > 0
      invariant 0 <= remaining <= size
      invariant size - remaining <= |data| && source.incoming == data[size - remaining..]
      invariant fd.sent == old(fd.sent) + header + data[..size - remaining]
      invariant fd.broken == old(fd.broken)
    {
      ghost var at := size - remaining;
      var got := source.Read(Min(remaining, BLOCK));
      if got == "" {
        assert data[..at] == data;
        return false;
      }
      assert data[at..] == got + source.incoming;
      assert got == data[at..at + |got|] && source.incoming == data[at + |got|..];
      var sentBlock := SendAll(fd, got);
      if !sentBlock {
        return false;
      }
      assert data[..at] + got == data[..at + |got|];
      remaining := remaining - |got|;
    }
    ok := true;
  }

  /** Takes up to n bytes off the stream, stopping early only when the stream ends. */
  method Drain(fd: Descriptor, n: nat)
    modifies fd`incoming
    ensures fd.incoming == old(fd.incoming)[Min(n, |old(fd.incoming)|)..]
  {
    var toDrain := n;
    ghost var drained := "";
    while toDrain > 0
      invariant 0 <= toDrain <= n && |drained| == n - toDrain
      invariant drained + fd.incoming == old(fd.incoming)
    {
      var got := fd.Read(Min(BLOCK, toDrain));
      if got == "" {
        break;
      }
      drained := drained + got;
      toDrain := toDrain - |got|;
    }
    assert fd.incoming == (drained + fd.incoming)[|drained|..];
  }

  /** The pipe writer of NodeServer::handle_store: everything announced, or as much of it
      as arrives, goes into the pipe in order. */
  method PipePayload(fd: Descriptor, size: nat, pipe: Descriptor)
    requires fd != pipe && pipe.incoming == ""
    modifies fd`incoming, pipe`incoming
    ensures var n := Min(size, |old(fd.incoming)|);
            pipe.incoming == old(fd.incoming)[..n] && fd.incoming == old(fd.incoming)[n..]
  {
    var remaining := size;
    ghost var moved := "";
    while remaining > 0
      invariant 0 <= remaining <= size && |moved| == size - remaining
      invariant moved + fd.incoming == old(fd.incoming)
      invariant pipe.incoming == moved
    {
      var got := fd.Read(Min(remaining, BLOCK));
      if got == "" {
        break;
      }
      var written := 0;
      while written < |got|
        invariant 0 <= written <= |got|
        invariant pipe.incoming == moved + got[..written]
        invariant moved + got + fd.incoming == old(fd.incoming)
      {
        var k :| 0 < k <= |got| - written;
        assert got[..written] + got[written..written + k] == got[..written + k];
        pipe.incoming := pipe.incoming + got[written..written + k];
        written := written + k;
      }
      assert got[..written] == got;
      moved := moved + got;
      remaining := remaining - |got|;
    }
    assert moved == (moved + fd.incoming)[..|moved|];
    assert fd.incoming == (moved + fd.incoming)[|moved|..];
  }
}
