/** node_bytes and node_min_heap: per-node byte totals and the ordered set that speeds up
    picking the least loaded nodes. */
module Load {
  import opened Wrappers

  /** One chunk copy: which chunk, how many bytes, on which node. */
  datatype Copy = Copy(index: nat, size: nat, node: nat)

  datatype Load = Load(bytes: seq<int>, heap: set<(int, nat)>)

  /** update_node_size: the entry is looked up by the old total and moved. */
  function Bump(l: Load, node: nat, delta: int): Load
    requires node < |l.bytes|
  {
    var moved := l.heap - {(l.bytes[node], node)};
    var total := l.bytes[node] + delta;
    Load(l.bytes[node := total], moved + {(total, node)})
  }

  predicate InRange(copies: seq<Copy>, nodes: nat) {
    forall c :: c in copies ==> c.node < nodes
  }

  /** One update_node_size per copy, adding (sign 1) or taking back (sign -1) its bytes. */
  function Adjust(l: Load, copies: seq<Copy>, sign: int): (r: Load)
    requires InRange(copies, |l.bytes|)
    ensures |r.bytes| == |l.bytes|
    decreases |copies|
  {
    if copies == [] then l else
      Adjust(Bump(l, copies[0].node, sign * copies[0].size), copies[1..], sign)
  }

  /** The bytes of these copies that are on node i. */
  function BytesOn(copies: seq<Copy>, i: nat): nat {
    if copies == [] then 0 else
      (if copies[0].node == i then copies[0].size else 0) + BytesOn(copies[1..], i)
  }

  lemma {:induction false} BytesOnConcat(a: seq<Copy>, b: seq<Copy>, i: nat)
    ensures BytesOn(a + b, i) == BytesOn(a, i) + BytesOn(b, i)
    decreases |a|
  {
    if a == [] {
      assert a + b == b;
    } else {
      assert (a + b)[1..] == a[1..] + b;
      BytesOnConcat(a[1..], b, i);
    }
  }

  lemma TakeOut(b: seq<Copy>, k: nat, i: nat)
    requires k < |b|
    ensures multiset(b) == multiset{b[k]} + multiset(b[..k] + b[k + 1..])
    ensures BytesOn(b, i) == BytesOn([b[k]], i) + BytesOn(b[..k] + b[k + 1..], i)
  {
    var init, last := b[..k], b[k + 1..];
    assert b == (init + [b[k]]) + last;
    BytesOnConcat(init + [b[k]], last, i);
    BytesOnConcat(init, [b[k]], i);
    BytesOnConcat(init, last, i);
  }

  lemma Cancel<T>(x: T, a: multiset<T>, b: multiset<T>)
    requires multiset{x} + a == multiset{x} + b
    ensures a == b
  {
    assert (multiset{x} + a) - multiset{x} == a && (multiset{x} + b) - multiset{x} == b;
  }

  lemma {:induction false} BytesOnPermuted(a: seq<Copy>, b: seq<Copy>, i: nat)
    requires multiset(a) == multiset(b)
    ensures BytesOn(a, i) == BytesOn(b, i)
    decreases |a|
  {
    if a == [] {
      assert |multiset(b)| == 0;
    } else {
      var k := Match(a, b, i);
      BytesOnPermuted(a[1..], b[..k] + b[k + 1..], i);
    }
  }

  lemma Match(a: seq<Copy>, b: seq<Copy>, i: nat) returns (k: nat)
    requires a != [] && multiset(a) == multiset(b)
    ensures k < |b| && multiset(a[1..]) == multiset(b[..k] + b[k + 1..])
    ensures BytesOn(a, i) - BytesOn(a[1..], i) == BytesOn(b, i) - BytesOn(b[..k] + b[k + 1..], i)
  {
    hide BytesOn;
    assert a[0] in multiset(b);
    k :| 0 <= k < |b| && b[k] == a[0];
    TakeOut(a, 0, i);
    TakeOut(b, k, i);
    assert a[..0] + a[1..] == a[1..];
    Cancel(a[0], multiset(a[1..]), multiset(b[..k] + b[k + 1..]));
  }

  lemma {:induction false} AdjustBytes(l: Load, copies: seq<Copy>, sign: int, i: nat)
    requires InRange(copies, |l.bytes|) && i < |l.bytes| && (sign == 1 || sign == -1)
    ensures Adjust(l, copies, sign).bytes[i] == l.bytes[i] + sign * BytesOn(copies, i)
    decreases |copies|
  {
    if copies != [] {
      AdjustBytes(Bump(l, copies[0].node, sign * copies[0].size), copies[1..], sign, i);
    }
  }

  /** The index agrees with the array: every entry is a node's current total, so no node has
      two entries, and every node that is not dead has one. */
  ghost predicate IndexAgrees(l: Load, dead: set<nat>) {
    && (forall e :: e in l.heap ==> e.1 < |l.bytes| && e.0 == l.bytes[e.1])
    && (forall i: nat {:trigger l.bytes[i]} :: i < |l.bytes| && i !in dead ==> (l.bytes[i], i) in l.heap)
  }

  lemma BumpAgrees(l: Load, dead: set<nat>, node: nat, delta: int)
    requires IndexAgrees(l, dead) && node < |l.bytes|
    ensures IndexAgrees(Bump(l, node, delta), dead) && IndexAgrees(Bump(l, node, delta), dead - {node})
  {
    var r := Bump(l, node, delta);
    forall e | e in r.heap ensures e.1 < |r.bytes| && e.0 == r.bytes[e.1] {
      if e != (r.bytes[node], node) {
        assert e in l.heap;
      }
    }
  }

  lemma {:induction false} AdjustAgrees(l: Load, dead: set<nat>, copies: seq<Copy>, sign: int)
    requires IndexAgrees(l, dead) && InRange(copies, |l.bytes|)
    ensures IndexAgrees(Adjust(l, copies, sign), dead)
    decreases |copies|
  {
    if copies != [] {
      BumpAgrees(l, dead, copies[0].node, sign * copies[0].size);
      AdjustAgrees(Bump(l, copies[0].node, sign * copies[0].size), dead, copies[1..], sign);
    }
  }

  /** An index built afresh from the totals. */
  function FreshLoad(bytes: seq<int>): Load {
    Load(bytes, set i: nat | i < |bytes| :: (bytes[i], i))
  }

  lemma FreshLoadAgrees(bytes: seq<int>)
    ensures IndexAgrees(FreshLoad(bytes), {})
  {
  }

  // ------------------------------------------------------------------------- selection

  predicate Lighter(bytes: seq<int>, i: nat, j: nat) {
    && i < |bytes| && j < |bytes|
    && (bytes[i] < bytes[j] || (bytes[i] == bytes[j] && i < j))
  }

  ghost predicate Distinct(ids: seq<nat>) {
    forall a, b :: 0 <= a < b < |ids| ==> ids[a] != ids[b]
  }

  /** What choosing the least loaded nodes means, without the index: as many distinct eligible
      nodes as wanted and available, in order, and each lexicographically lighter by
      (bytes, id) than every eligible node left out. */
  ghost predicate LeastLoaded(bytes: seq<int>, eligible: set<nat>, wanted: nat, chosen: seq<nat>) {
    && (forall i :: i in eligible ==> i < |bytes|)
    && (forall i :: i in chosen ==> i in eligible)
    && |chosen| == Min(wanted, |eligible|)
    && (forall a, b :: 0 <= a < b < |chosen| ==> Lighter(bytes, chosen[a], chosen[b]))
    && (forall i, j :: i in chosen && j in eligible && j !in chosen ==> Lighter(bytes, i, j))
  }

  lemma LeastLoadedDistinct(bytes: seq<int>, eligible: set<nat>, wanted: nat, chosen: seq<nat>)
    requires LeastLoaded(bytes, eligible, wanted, chosen)
    ensures Distinct(chosen)
  {
    forall a, b | 0 <= a < b < |chosen| ensures chosen[a] != chosen[b] {
      assert Lighter(bytes, chosen[a], chosen[b]);
    }
  }

  /** There is only one such choice. */
  lemma {:induction false} LeastLoadedAgreeAt(bytes: seq<int>, eligible: set<nat>, wanted: nat,
                                              c: seq<nat>, d: seq<nat>, k: nat)
    requires LeastLoaded(bytes, eligible, wanted, c) && LeastLoaded(bytes, eligible, wanted, d)
    requires k < |c|
    ensures c[..k + 1] == d[..k + 1]
  {
    if k > 0 {
      LeastLoadedAgreeAt(bytes, eligible, wanted, c, d, k - 1);
    }
    assert c[..k] == d[..k];
    FirstIsLeast(bytes, eligible, wanted, c, d, k);
    FirstIsLeast(bytes, eligible, wanted, d, c, k);
  }

  lemma FirstIsLeast(bytes: seq<int>, eligible: set<nat>, wanted: nat, c: seq<nat>, d: seq<nat>, k: nat)
    requires LeastLoaded(bytes, eligible, wanted, c) && LeastLoaded(bytes, eligible, wanted, d)
    requires k < |c| && c[..k] == d[..k]
    ensures c[k] == d[k] || Lighter(bytes, d[k], c[k])
  {
    assert c[k] in c && d[k] in d;
    if c[k] in d {
      var p :| 0 <= p < |d| && d[p] == c[k];
      LeastLoadedDistinct(bytes, eligible, wanted, c);
      assert forall q :: 0 <= q < k ==> c[..k][q] == d[..k][q];
      assert forall q :: 0 <= q < k ==> d[q] == c[q] != c[k];
    }
  }

  lemma LeastLoadedUnique(bytes: seq<int>, eligible: set<nat>, wanted: nat, c: seq<nat>, d: seq<nat>)
    requires LeastLoaded(bytes, eligible, wanted, c) && LeastLoaded(bytes, eligible, wanted, d)
    ensures c == d
  {
    if c != [] {
      LeastLoadedAgreeAt(bytes, eligible, wanted, c, d, |c| - 1);
      assert c == c[..|c|] && d == d[..|d|];
    }
  }

  lemma {:induction false} NumbersBelow(all: set<nat>, n: nat)
    requires forall i: nat :: i in all <==> i < n
    ensures |all| == n
    decreases n
  {
    if n > 0 {
      NumbersBelow(all - {n - 1}, n - 1);
    } else {
      assert all == {};
    }
  }

  /** Among nodes with equal totals the first ones are chosen, in order. */
  lemma EqualTotals(bytes: seq<int>, all: set<nat>, wanted: nat, chosen: seq<nat>)
    requires forall i, j :: 0 <= i < j < |bytes| ==> bytes[i] == bytes[j]
    requires (forall i: nat :: i in all <==> i < |bytes|) && LeastLoaded(bytes, all, wanted, chosen)
    ensures |chosen| == Min(wanted, |bytes|) && forall k :: 0 <= k < |chosen| ==> chosen[k] == k
  {
    NumbersBelow(all, |bytes|);
    var first: seq<nat> := seq(Min(wanted, |bytes|), k => k);
    forall i: nat ensures i in first <==> i < |first| {
      assert i < |first| ==> first[i] == i;
    }
    LeastLoadedUnique(bytes, all, wanted, chosen, first);
  }
}
