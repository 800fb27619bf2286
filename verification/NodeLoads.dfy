/** node_bytes and node_min_heap as the server keeps them: a fixed array and an ordered set that
    are updated together, proved against their values in module Load. */
module NodeLoads {
  import opened Load
  import opened Cluster
  import opened Invariants

  /** The order of std::set<pair<off_t, int>>. */
  predicate Before(e: (int, nat), f: (int, nat)) {
    e.0 < f.0 || (e.0 == f.0 && e.1 < f.1)
  }

  predicate IsFirst(todo: set<(int, nat)>, e: (int, nat)) {
    e in todo && forall f :: f in todo ==> f == e || Before(e, f)
  }

  lemma {:induction false} FirstExists(todo: set<(int, nat)>) returns (e: (int, nat))
    requires todo != {}
    ensures IsFirst(todo, e)
    decreases todo
  {
    var x :| x in todo;
    e := x;
    if todo != {x} {
      var rest := todo - {x};
      assert x !in rest && todo == rest + {x};
      var r := FirstExists(rest);
      e := if Before(x, r) then x else r;
    }
  }

  lemma {:induction false} AdjustAppend(l: Load, a: seq<Copy>, b: seq<Copy>, sign: int)
    requires InRange(a, |l.bytes|) && InRange(b, |l.bytes|)
    ensures InRange(a + b, |l.bytes|)
    ensures Adjust(l, a + b, sign) == Adjust(Adjust(l, a, sign), b, sign)
    decreases |a|
  {
    if a == [] {
      assert a + b == b;
    } else {
      assert (a + b)[1..] == a[1..] + b;
      AdjustAppend(Bump(l, a[0].node, sign * a[0].size), a[1..], b, sign);
    }
  }

  class LoadIndex {
    const nodeBytes: array<int>
    var minHeap: set<(int, nat)>

    constructor (nodes: nat)
      ensures fresh(nodeBytes) && nodeBytes.Length == nodes
      ensures View() == Load(seq(nodes, _ => 0), {})
    {
      nodeBytes := new int[nodes](_ => 0);
      minHeap := {};
    }

    ghost function View(): Load
      reads this, nodeBytes
    {
      Load(nodeBytes[..], minHeap)
    }

    method UpdateNodeSize(node: nat, delta: int)
      requires node < nodeBytes.Length
      modifies this, nodeBytes
      ensures View() == Bump(old(View()), node, delta)
    {
      minHeap := minHeap - {(nodeBytes[node], node)};
      nodeBytes[node] := nodeBytes[node] + delta;
      minHeap := minHeap + {(nodeBytes[node], node)};
    }

    /** The same change for every replica of one chunk. */
    method AdjustChunk(c: ChunkMeta, sign: int)
      requires InRange(CopiesOf(c), nodeBytes.Length)
      modifies this, nodeBytes
      ensures View() == Adjust(old(View()), CopiesOf(c), sign)
    {
      var n := 0;
      ghost var copies := CopiesOf(c);
      while n < |c.ids|
        invariant 0 <= n <= |c.ids|
        invariant View() == Adjust(old(View()), copies[..n], sign)
      {
        ghost var before := View();
        assert copies[n] in copies;
        UpdateNodeSize(c.ids[n], sign * c.size);
        assert View() == Adjust(before, [copies[n]], sign);
        AdjustAppend(old(View()), copies[..n], [copies[n]], sign);
        assert copies[..n + 1] == copies[..n] + [copies[n]];
        n := n + 1;
      }
      assert copies[..n] == copies;
    }

    /** And for every chunk of a file. */
    method AdjustFile(chunks: seq<ChunkMeta>, sign: int)
      requires InRange(Flatten(chunks), nodeBytes.Length)
      modifies this, nodeBytes
      ensures View() == Adjust(old(View()), Flatten(chunks), sign)
    {
      var n := 0;
      while n < |chunks|
        invariant 0 <= n <= |chunks|
        invariant InRange(Flatten(chunks[..n]), nodeBytes.Length)
        invariant View() == Adjust(old(View()), Flatten(chunks[..n]), sign)
      {
        assert chunks[..n + 1] == chunks[..n] + [chunks[n]];
        FlattenAppend(chunks[..n], chunks[n]);
        FlattenPrefix(chunks, n + 1);
        AdjustAppend(old(View()), Flatten(chunks[..n]), CopiesOf(chunks[n]), sign);
        AdjustChunk(chunks[n], sign);
        n := n + 1;
      }
      assert chunks[..n] == chunks;
    }

    /** The selection loop of handle_upload: walk the index in order, skip dead and unconnected
        nodes, stop when there are enough. It picks the least loaded eligible nodes. */
    method SelectNodes(fds: set<nat>, dead: set<nat>, wanted: nat) returns (chosen: seq<nat>)
      requires wanted > 0 && IndexAgrees(View(), dead) && forall i :: i in fds ==> i < nodeBytes.Length
      ensures LeastLoaded(nodeBytes[..], fds - dead, wanted, chosen)
    {
      chosen := [];
      var todo := minHeap;
      ghost var bytes := nodeBytes[..];
      while todo != {} && |chosen| < wanted
        invariant todo <= minHeap && |chosen| <= wanted
        invariant Picked(bytes, minHeap, todo, fds - dead, chosen)
        decreases |todo|
      {
        ghost var first := FirstExists(todo);
        assert IsFirst(todo, first);
        var e: (int, nat) :| e in todo && forall f :: f in todo ==> f == e || Before(e, f);
        PickNext(bytes, minHeap, todo, fds - dead, chosen, e);
        todo := todo - {e};
        if e.1 in dead {
          continue;
        }
        if e.1 in fds {
          chosen := chosen + [e.1];
        }
      }
      PickedIsLeast(bytes, minHeap, todo, fds - dead, dead, wanted, chosen);
    }

    /** Whether this node's entry has been passed. */
    static ghost predicate Passed(bytes: seq<int>, todo: set<(int, nat)>, i: nat) {
      i < |bytes| && (bytes[i], i) !in todo
    }

    /** The eligible nodes passed so far, in the order of the index. */
    static ghost predicate Picked(bytes: seq<int>, heap: set<(int, nat)>, todo: set<(int, nat)>,
                                  eligible: set<nat>, chosen: seq<nat>) {
      && (forall i :: i in chosen ==> i in eligible && Passed(bytes, todo, i) && (bytes[i], i) in heap)
      && (forall i :: i in eligible && Passed(bytes, todo, i) && (bytes[i], i) in heap ==> i in chosen)
      && (forall a, b :: 0 <= a < b < |chosen| ==> Lighter(bytes, chosen[a], chosen[b]))
      && (forall e, f :: e in heap && e !in todo && f in todo ==> Before(e, f))
    }

    static lemma PickNext(bytes: seq<int>, heap: set<(int, nat)>, todo: set<(int, nat)>,
                          eligible: set<nat>, chosen: seq<nat>, e: (int, nat))
      requires Picked(bytes, heap, todo, eligible, chosen) && todo <= heap && IsFirst(todo, e)
      requires forall x :: x in heap ==> x.1 < |bytes| && x.0 == bytes[x.1]
      ensures Picked(bytes, heap, todo - {e}, eligible, if e.1 in eligible then chosen + [e.1] else chosen)
    {
      var next := if e.1 in eligible then chosen + [e.1] else chosen;
      forall a, b | 0 <= a < b < |next| ensures Lighter(bytes, next[a], next[b]) {
        if b == |chosen| {
          assert chosen[a] in chosen;
          assert Before((bytes[chosen[a]], chosen[a]), e);
        }
      }
      forall i | i in eligible && Passed(bytes, todo - {e}, i) && (bytes[i], i) in heap ensures i in next {
        if (bytes[i], i) in todo {
          assert (bytes[i], i) == e;
        } else {
          assert i in chosen;
        }
      }
    }

    static lemma PickedIsLeast(bytes: seq<int>, heap: set<(int, nat)>, todo: set<(int, nat)>,
                               eligible: set<nat>, dead: set<nat>, wanted: nat, chosen: seq<nat>)
      requires Picked(bytes, heap, todo, eligible, chosen) && IndexAgrees(Load(bytes, heap), dead)
      requires eligible !! dead && (forall i :: i in eligible ==> i < |bytes|)
      requires |chosen| <= wanted && (todo == {} || |chosen| == wanted) && todo <= heap
      ensures LeastLoaded(bytes, eligible, wanted, chosen)
    {
      forall i, j | i in chosen && j in eligible && j !in chosen ensures Lighter(bytes, i, j) {
        assert (bytes[j], j) in heap;
        assert Before((bytes[i], i), (bytes[j], j));
      }
      assert Distinct(chosen) by {
        forall a, b | 0 <= a < b < |chosen| ensures chosen[a] != chosen[b] {
          assert Lighter(bytes, chosen[a], chosen[b]);
        }
      }
      DistinctSize(chosen);
      SubsetSize(ToSet(chosen), eligible);
      if todo == {} {
        assert eligible <= ToSet(chosen) by {
          forall i | i in eligible ensures i in ToSet(chosen) {
            assert (bytes[i], i) in heap;
            assert Passed(bytes, todo, i);
          }
        }
        SubsetSize(eligible, ToSet(chosen));
      }
    }

    /** health_check_loop: a node is back with a total of its own. */
    method Reset(node: nat, total: int)
      requires node < nodeBytes.Length
      modifies this, nodeBytes
      ensures View() == Bump(old(View()), node, total - old(nodeBytes[node]))
    {
      minHeap := minHeap - {(nodeBytes[node], node)};
      nodeBytes[node] := total;
      minHeap := minHeap + {(nodeBytes[node], node)};
    }

    /** KILL_NODE: the entry goes, the total stays. */
    method Remove(node: nat)
      requires node < nodeBytes.Length
      modifies this
      ensures View() == Load(old(View()).bytes, old(View()).heap - {(old(View()).bytes[node], node)})
    {
      minHeap := minHeap - {(nodeBytes[node], node)};
    }

    /** The last loop of rebuild_metadata_from_nodes. */
    method Refill()
      modifies this
      ensures View() == FreshLoad(old(nodeBytes[..]))
    {
      minHeap := {};
      var i := 0;
      while i < nodeBytes.Length
        invariant 0 <= i <= nodeBytes.Length
        invariant minHeap == set j: nat | j < i :: (nodeBytes[j], j)
      {
        minHeap := minHeap + {(nodeBytes[i], i)};
        i := i + 1;
      }
    }
  }

  lemma {:induction false} FlattenPrefix(chunks: seq<ChunkMeta>, n: nat)
    requires n <= |chunks|
    ensures forall x :: x in Flatten(chunks[..n]) ==> x in Flatten(chunks)
    decreases |chunks| - n
  {
    if n < |chunks| {
      FlattenPrefix(chunks, n + 1);
      assert chunks[..n + 1] == chunks[..n] + [chunks[n]];
      FlattenAppend(chunks[..n], chunks[n]);
    } else {
      assert chunks[..n] == chunks;
    }
  }
}
