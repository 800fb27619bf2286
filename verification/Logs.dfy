/** What a node has put on disk and on the wire, in one order: every byte sequence accepted for
    the peer carries the number of persistent changes before it. A crash is a point in it. */
module Logs {
  import opened Journal

  datatype Sent = Sent(after: nat, bytes: string)

  class Log {
    ghost var disks: seq<Disk>
    ghost var sends: seq<Sent>

    constructor ()
      ensures disks == [] && sends == []
    {
      disks, sends := [], [];
    }

    ghost method Persist(d: Disk)
      modifies this`disks
      ensures disks == old(disks) + [d]
    {
      disks := disks + [d];
    }

    ghost method Send(bytes: string)
      modifies this`sends
      ensures sends == old(sends) + [Sent(|disks|, bytes)]
    {
      sends := sends + [Sent(|disks|, bytes)];
    }
  }

  function Spoken(sends: seq<Sent>): string {
    if sends == [] then "" else Spoken(sends[..|sends| - 1]) + sends[|sends| - 1].bytes
  }

  /** `text` has been sent since `before`, all of it behind `changes` persistent changes. */
  ghost predicate SaidAfter(before: seq<Sent>, sends: seq<Sent>, changes: nat, text: string) {
    && before <= sends && Spoken(sends[|before|..]) == text
    && (forall k :: |before| <= k < |sends| ==> sends[k].after == changes && sends[k].bytes != "")
  }

  /** Some prefix of `text` has, namely what a broken connection let through. */
  ghost predicate SaidPart(before: seq<Sent>, sends: seq<Sent>, changes: nat, text: string) {
    exists k :: 0 <= k <= |text| && SaidAfter(before, sends, changes, text[..k])
  }

  lemma SaidMore(before: seq<Sent>, sends: seq<Sent>, changes: nat, text: string, more: string)
    requires SaidAfter(before, sends, changes, text) && more != ""
    ensures SaidAfter(before, sends + [Sent(changes, more)], changes, text + more)
  {
    var all := sends + [Sent(changes, more)];
    assert all[|before|..] == sends[|before|..] + [Sent(changes, more)];
    assert all[|before|..][..|all| - |before| - 1] == sends[|before|..];
  }

  /** The process can die after the first i persistent changes and the first j sends. */
  ghost predicate CrashPoint(disks: seq<Disk>, sends: seq<Sent>, i: nat, j: nat) {
    && i <= |disks| && j <= |sends|
    && (forall k :: 0 <= k < j ==> sends[k].after <= i)
    && (forall k :: j <= k < |sends| ==> i <= sends[k].after)
  }
}
