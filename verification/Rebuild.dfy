/** rebuild_metadata_from_nodes: what the listings of the nodes are turned into at start-up. */
module Rebuild {
  import opened Wrappers
  import opened Text
  import opened Sums
  import opened ChunkNames
  import opened Cluster

  /** One line of one node's listing. */
  datatype Entry = Entry(node: nat, name: string, size: nat)

  datatype Found = Found(size: nat, ids: seq<nat>)

  /** temp_map: file name to chunk index to what has been found so far. */
  type Temp = map<string, map<nat, Found>>

  function IdsAt(t: Temp, f: string, k: nat): seq<nat> {
    if f in t && k in t[f] then t[f][k].ids else []
  }

  /** One listing line; None stands for the exception of std::stoi. The size of the last line
      about a chunk wins. */
  function Absorb(t: Temp, e: Entry): Option<Temp> {
    match ParseChunkName(e.name)
    case NotAChunk => Some(t)
    case Malformed => None
    case Chunk(f, index) =>
      if index < 0 then Some(t) else
        var inner := if f in t then t[f] else map[];
        Some(t[f := inner[index := Found(e.size, IdsAt(t, f, index) + [e.node])]])
  }

  /** All lines, in the order in which the nodes are asked. */
  function Collect(log: seq<Entry>): Option<Temp> {
    if log == [] then Some(map[]) else
      match Collect(log[..|log| - 1])
      case None => None
      case Some(t) => Absorb(t, log[|log| - 1])
  }

  /** The bytes listed by node i, chunk or not. */
  function BytesListed(log: seq<Entry>, i: nat): nat {
    if log == [] then 0 else
      BytesListed(log[..|log| - 1], i) + if log[|log| - 1].node == i then log[|log| - 1].size else 0
  }

  lemma AbsorbChunk(t: Temp, e: Entry, f: string, k: nat, inner: map<nat, Found>, ids: seq<nat>)
    requires k <= INT_MAX && e.name == ChunkName(f, k) && ids == IdsAt(t, f, k) + [e.node]
    requires inner == if f in t then t[f] else map[]
    ensures Absorb(t, e) == Some(t[f := inner[k := Found(e.size, ids)]])
  {
    hide ParseChunkName;
    ChunkNameRoundTrip(f, k);
  }

  /** Of two lines about one chunk the second decides the size, and the nodes are kept in order. */
  lemma LastSizeWins(f: string, k: nat, a: Entry, b: Entry)
    requires k <= INT_MAX && a.name == b.name == ChunkName(f, k)
    ensures Collect([a, b]) == Some(map[f := map[k := Found(b.size, [a.node, b.node])]])
  {
    hide Absorb, ChunkName;
    var x, y := Found(a.size, [a.node]), Found(b.size, [a.node, b.node]);
    var one: map<nat, Found>, two: map<nat, Found> := map[k := x], map[k := y];
    var none: map<nat, Found>, nothing: Temp := map[], map[];
    assert none[k := x] == one && one[k := y] == two;
    assert nothing[f := one] == map[f := one] && map[f := one][f := two] == map[f := two];
    assert [] + [a.node] == [a.node] && [a.node] + [b.node] == [a.node, b.node];
    AbsorbChunk(nothing, a, f, k, none, [a.node]);
    AbsorbChunk(map[f := one], b, f, k, one, [a.node, b.node]);
    assert [a, b][..1] == [a] && [a][..0] == [];
    assert Collect([a]) == Some(map[f := one]);
  }

  /** A name without a mark is skipped, and one without a number behind its last mark throws. */
  lemma OddNames(t: Temp, e: Entry, f: string, rest: string)
    ensures !Contains(e.name, MARK) ==> Absorb(t, e) == Some(t)
    ensures e.name == f + MARK + rest && MARK[0] !in rest && Stoi(rest).None? ==> Absorb(t, e) == None
  {
    hide Stoi;
    NotAChunkIff(e.name);
    if e.name == f + MARK + rest && MARK[0] !in rest {
      forall p | |f| < p < |e.name| ensures !MarkAt(e.name, p) {
        if p < |f| + |MARK| {
          assert e.name[p] == MARK[p - |f|];
        } else {
          assert e.name[p] == rest[p - |f| - |MARK|];
        }
      }
      ParsedAtLastMark(f, rest);
    }
  }

  ghost predicate IsMin(m: map<nat, Found>, k: nat) {
    k in m && forall j :: j in m ==> k <= j
  }

  lemma {:induction false} MinExists(keys: set<nat>) returns (k: nat)
    requires keys != {}
    ensures k in keys && forall j :: j in keys ==> k <= j
    decreases keys
  {
    k :| k in keys;
    if keys != {k} {
      var rest := keys - {k};
      assert k !in rest && keys == rest + {k};
      var r := MinExists(rest);
      k := if k <= r then k else r;
    }
  }

  /** The chunks of one file in the order of std::map, by ascending index. */
  ghost function Ordered(m: map<nat, Found>): seq<ChunkMeta>
    decreases |m|
  {
    if m == map[] then [] else
      assert exists k :: IsMin(m, k) by {
        assert m.Keys != {};
        var k := MinExists(m.Keys);
        assert IsMin(m, k);
      }
      var k :| IsMin(m, k);
      assert |m - {k}| < |m| by { SmallerMap(m, k); }
      [ChunkMeta(k, m[k].size, m[k].ids)] + Ordered(m - {k})
  }

  function SumSizes(chunks: seq<ChunkMeta>): nat {
    if chunks == [] then 0 else SumSizes(chunks[..|chunks| - 1]) + chunks[|chunks| - 1].size
  }

  ghost function Finish(t: Temp): map<string, FileMeta> {
    map f | f in t :: FileMeta(SumSizes(Ordered(t[f])), Ordered(t[f]))
  }

  // -------------------------------------------------------------------- what is ordered

  /** Ascending, and exactly the entries of the map. */
  ghost predicate ListsMap(chunks: seq<ChunkMeta>, m: map<nat, Found>) {
    && (forall a, b :: 0 <= a < b < |chunks| ==> chunks[a].index < chunks[b].index)
    && (forall c :: c in chunks ==> c.index in m && c == ChunkMeta(c.index, m[c.index].size, m[c.index].ids))
    && (forall k :: k in m ==> exists c :: c in chunks && c.index == k)
    && |chunks| == |m|
  }

  lemma ListsPrepend(rest: seq<ChunkMeta>, m: map<nat, Found>, k: nat)
    requires IsMin(m, k) && ListsMap(rest, m - {k})
    ensures ListsMap([ChunkMeta(k, m[k].size, m[k].ids)] + rest, m)
  {
    var chunks := [ChunkMeta(k, m[k].size, m[k].ids)] + rest;
    SmallerMap(m, k);
    AscendsPrepend(rest, m, k);
    forall j | j in m ensures exists x :: x in chunks && x.index == j {
      if j == k {
        assert chunks[0] in chunks;
      } else {
        assert j in m - {k};
        var x :| x in rest && x.index == j;
        assert x in chunks;
      }
    }
  }

  lemma AscendsPrepend(rest: seq<ChunkMeta>, m: map<nat, Found>, k: nat)
    requires IsMin(m, k) && ListsMap(rest, m - {k})
    ensures var chunks := [ChunkMeta(k, m[k].size, m[k].ids)] + rest;
            forall a, b :: 0 <= a < b < |chunks| ==> chunks[a].index < chunks[b].index
  {
    forall b | 0 <= b < |rest| ensures k < rest[b].index {
      assert rest[b] in rest;
    }
  }

  lemma {:induction false} OrderedLists(m: map<nat, Found>)
    ensures ListsMap(Ordered(m), m)
    decreases |m|
  {
    if m != map[] {
      var k := Ordered(m)[0].index;
      assert IsMin(m, k) && Ordered(m) == [ChunkMeta(k, m[k].size, m[k].ids)] + Ordered(m - {k});
      SmallerMap(m, k);
      OrderedLists(m - {k});
      ListsPrepend(Ordered(m - {k}), m, k);
    }
  }

  /** Ascending indices without a gap from 0 are the positions themselves. */
  lemma {:induction false} AscendingFromZero(chunks: seq<ChunkMeta>, m: map<nat, Found>, k: nat)
    requires ListsMap(chunks, m) && k < |chunks|
    requires forall j: nat :: j in m <==> j < |m|
    ensures chunks[k].index == k
    decreases k
  {
    assert chunks[k] in chunks;
    if k > 0 {
      AscendingFromZero(chunks, m, k - 1);
    }
    assert k in m;
    var c :| c in chunks && c.index == k;
    var p :| 0 <= p < |chunks| && chunks[p] == c;
    if p < k {
      AscendingFromZero(chunks, m, p);
    }
  }

  lemma ContiguousCovers(chunks: seq<ChunkMeta>, m: map<nat, Found>)
    requires ListsMap(chunks, m) && Contiguous(chunks)
    ensures forall j: nat :: j in m <==> j < |m|
  {
    forall j: nat | j < |m| ensures j in m {
      assert chunks[j] in chunks;
    }
    forall j | j in m ensures j < |m| {
      var c :| c in chunks && c.index == j;
      var p :| 0 <= p < |chunks| && chunks[p] == c;
    }
  }

  lemma PrefixIsContiguous(chunks: seq<ChunkMeta>, m: map<nat, Found>)
    requires ListsMap(chunks, m) && forall j: nat :: j in m <==> j < |m|
    requires forall k :: k in m ==> m[k].ids != []
    ensures Contiguous(chunks)
  {
    forall k | 0 <= k < |chunks| ensures chunks[k].index == k && chunks[k].ids != [] {
      AscendingFromZero(chunks, m, k);
      assert chunks[k] in chunks;
    }
  }

  /** The check of handle_download passes on rebuilt metadata exactly when the surviving chunk
      indices are the first so many. It cannot tell whether later ones are missing. */
  lemma ContiguousMeansPrefix(m: map<nat, Found>)
    requires forall k :: k in m ==> m[k].ids != []
    ensures Contiguous(Ordered(m)) <==> forall j: nat :: j in m <==> j < |m|
  {
    OrderedLists(m);
    if Contiguous(Ordered(m)) {
      ContiguousCovers(Ordered(m), m);
    } else if forall j: nat :: j in m <==> j < |m| {
      PrefixIsContiguous(Ordered(m), m);
    }
  }
}
