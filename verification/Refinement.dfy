/** The store as a map from names to bytes. Of all the events of a run only two mean anything
    for that map: the commit of an upload and the end of a deletion. */
module Refinement {
  import opened Cluster
  import opened Invariants
  import opened Contents
  import opened Runs
  import opened Resilience

  datatype MapOp = Put(name: string, bytes: string) | Remove(name: string)

  function Perform(files: map<string, string>, ops: seq<MapOp>): map<string, string>
    decreases |ops|
  {
    if ops == [] then files else
      match ops[0]
      case Put(name, bytes) => Perform(files[name := bytes], ops[1..])
      case Remove(name) => Perform(files - {name}, ops[1..])
  }

  /** What one event means. */
  ghost function Meaning(s: State, e: Event): seq<MapOp>
    requires Shaped(s) && Enabled(s, e)
  {
    match e
    case Commit(op) => [Put(s.uploads[op].name, s.uploads[op].content)]
    case EndDelete(op) => [Remove(s.deletions[op].name)]
    case _ => []
  }

  ghost function Meanings(s: State, es: seq<Event>): seq<MapOp>
    requires IsRun(s, es)
    decreases |es|
  {
    if es == [] then [] else Meaning(s, es[0]) + Meanings(Apply(s, es[0]), es[1..])
  }

  lemma MeaninglessUpload(s: State, e: Event)
    requires Shaped(s) && Enabled(s, e) && OfUpload(e) && !e.Commit?
    ensures ApplyUpload(s, e).contents == s.contents
  {
    if InPlace(e) {
      InPlaceReplaces(s, e);
    }
  }

  lemma MeaninglessOther(s: State, e: Event)
    requires Shaped(s) && Enabled(s, e) && !OfUpload(e) && !e.EndDelete?
    ensures Apply(s, e).contents == s.contents
  {
  }

  lemma EventMeans(s: State, e: Event)
    requires Shaped(s) && Enabled(s, e)
    ensures Apply(s, e).contents == Perform(s.contents, Meaning(s, e))
  {
    if e.Commit? || e.EndDelete? {
      PerformOne(s.contents, Meaning(s, e)[0]);
    } else if OfUpload(e) {
      MeaninglessUpload(s, e);
    } else {
      MeaninglessOther(s, e);
    }
  }

  lemma PerformOne(files: map<string, string>, o: MapOp)
    ensures Perform(files, [o]) == if o.Put? then files[o.name := o.bytes] else files - {o.name}
  {
    assert [o][1..] == [];
  }

  lemma {:induction false} PerformConcat(files: map<string, string>, a: seq<MapOp>, b: seq<MapOp>)
    ensures Perform(files, a + b) == Perform(Perform(files, a), b)
    decreases |a|
  {
    if a == [] {
      assert a + b == b;
    } else {
      assert (a + b)[1..] == a[1..] + b;
      PerformConcat(if a[0].Put? then files[a[0].name := a[0].bytes] else files - {a[0].name}, a[1..], b);
    }
  }

  lemma {:induction false} RunMeans(s: State, es: seq<Event>)
    requires IsRun(s, es)
    ensures End(s, es).contents == Perform(s.contents, Meanings(s, es))
    decreases |es|
  {
    if es != [] {
      EventMeans(s, es[0]);
      RunMeans(Apply(s, es[0]), es[1..]);
      PerformConcat(s.contents, Meaning(s, es[0]), Meanings(Apply(s, es[0]), es[1..]));
    }
  }

  /** Entries come and go with contents. */
  lemma EventLists(s: State, e: Event)
    requires Shaped(s) && Enabled(s, e) && s.contents.Keys == s.meta.Keys
    ensures Apply(s, e).contents.Keys == Apply(s, e).meta.Keys
  {
    if e.Commit? || e.EndDelete? {
      EndLists(s, e);
    } else if OfUpload(e) {
      MeaninglessUpload(s, e);
      SameEntries(s, e);
    } else {
      MeaninglessOther(s, e);
      SameEntries(s, e);
    }
  }

  lemma EndLists(s: State, e: Event)
    requires Shaped(s) && Enabled(s, e) && s.contents.Keys == s.meta.Keys && (e.Commit? || e.EndDelete?)
    ensures Apply(s, e).contents.Keys == Apply(s, e).meta.Keys
  {
  }

  lemma SameEntries(s: State, e: Event)
    requires Shaped(s) && Enabled(s, e) && !e.Commit? && !e.EndDelete?
    ensures Apply(s, e).meta == s.meta
  {
    if InPlace(e) {
      InPlaceReplaces(s, e);
    }
  }

  lemma {:induction false} RunLists(s: State, es: seq<Event>)
    requires IsRun(s, es) && s.contents.Keys == s.meta.Keys
    ensures End(s, es).contents.Keys == End(s, es).meta.Keys
    decreases |es|
  {
    if es != [] {
      EventLists(s, es[0]);
      RunLists(Apply(s, es[0]), es[1..]);
    }
  }

  /** Refinement: after any run of interleaved operations, failures and revivals, take the map
      that results from performing its commits and deletions in order. The server lists exactly
      the names in it, if it knew the contents of what it listed at start-up; and reading an
      undisturbed file, with any set of nodes out of reach, yields exactly what the map says
      whenever each chunk still has a listed replica in reach. */
  lemma StoreIsMap(s: State, es: seq<Event>, f: string, down: set<nat>)
    requires StartUp(s) && IsRun(s, es)
    ensures s.contents.Keys == s.meta.Keys ==>
              (f in End(s, es).meta <==> f in Perform(s.contents, Meanings(s, es)))
    ensures f in Perform(s.contents, Meanings(s, es)) && f !in End(s, es).tainted ==>
              ReadsAs(End(s, es), f, down, Perform(s.contents, Meanings(s, es))[f])
  {
    StartUpInv(s);
    RunKeepsInv(s, es);
    RunMeans(s, es);
    if s.contents.Keys == s.meta.Keys {
      RunLists(s, es);
      SameKeys(End(s, es).contents, End(s, es).meta, f);
    }
    var t := End(s, es);
    if f in t.contents && f !in t.tainted {
      FailoverRead(t, f, down);
      assert FileFaithful(t.meta[f], t.contents[f], false, f, t.disks, t.cfg);
    }
  }

  lemma SameKeys<A, B, C>(a: map<A, B>, b: map<A, C>, k: A)
    requires a.Keys == b.Keys
    ensures k in a <==> k in b
  {
    assert k in a.Keys <==> k in b.Keys;
  }

  /** f is listed under the size of these bytes, and reads as them exactly when it can be reached. */
  ghost predicate ReadsAs(t: State, f: string, down: set<nat>, bytes: string) {
    && f in t.meta && t.meta[f].total == |bytes|
    && (Covered(t.meta[f].chunks, down) <==> ReadAll(t.disks, f, t.meta[f].chunks, down) == bytes)
  }
}
