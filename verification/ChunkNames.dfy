/** The name a chunk has on its nodes, and the split that recovers file and index at restart. */
module ChunkNames {
  import opened Wrappers
  import opened Text

  const MARK: string := "_chunk"

  function ChunkName(file: string, index: nat): string {
    file + MARK + Decimal(index)
  }

  /** Whether MARK occurs in s at position p. */
  predicate MarkAt(s: string, p: nat) {
    p + |MARK| <= |s| && s[p..p + |MARK|] == MARK
  }

  /** rfind: the last position before `limit` where MARK occurs. */
  function LastMark(s: string, limit: nat): (r: Option<nat>)
    ensures r.Some? ==> r.value < limit && MarkAt(s, r.value)
    ensures forall p :: (if r.Some? then r.value < p else 0 <= p) && p < limit ==> !MarkAt(s, p)
  {
    if limit == 0 then None
    else if MarkAt(s, limit - 1) then Some(limit - 1)
    else LastMark(s, limit - 1)
  }

  datatype Parsed = NotAChunk | Malformed | Chunk(file: string, index: int)

  /** How rebuild_metadata_from_nodes reads a stored name; Malformed is stoi's exception. */
  function ParseChunkName(name: string): Parsed {
    match LastMark(name, |name|)
    case None => NotAChunk
    case Some(p) =>
      match Stoi(name[p + |MARK|..])
      case None => Malformed
      case Some(index) => Chunk(name[..p], index)
  }

  /** A name is split at its last mark, and what follows has to be a number to std::stoi. */
  lemma ParsedAtLastMark(file: string, rest: string)
    requires forall p :: |file| < p < |file + MARK + rest| ==> !MarkAt(file + MARK + rest, p)
    ensures ParseChunkName(file + MARK + rest)
            == if Stoi(rest).Some? then Chunk(file, Stoi(rest).value) else Malformed
  {
    hide Stoi;
    var s := file + MARK + rest;
    assert s[|file|..|file| + |MARK|] == MARK && MarkAt(s, |file|);
    assert LastMark(s, |s|) == Some(|file|);
    assert s[..|file|] == file && s[|file| + |MARK|..] == rest;
  }

  lemma NotAChunkIff(name: string)
    ensures ParseChunkName(name) == NotAChunk <==> !Contains(name, MARK)
  {
    hide Stoi;
    forall p: nat | MarkAt(name, p) ensures Contains(name, MARK) {
      ContainsAt(name, MARK, p);
    }
    forall a, b | name == a + MARK + b ensures MarkAt(name, |a|) {
      assert name[|a|..|a| + |MARK|] == MARK;
    }
  }

  lemma ChunkNameTexts()
    ensures ChunkName("f", 12) == "f_chunk12" && ParseChunkName("f_chunk12") == Chunk("f", 12)
  {
    hide ParseChunkName;
    DecimalTexts();
    ChunkNameRoundTrip("f", 12);
  }

  /** No later "_chunk" can start inside the suffix, whatever the file name contains. */
  lemma LastMarkOfChunkName(file: string, index: nat)
    ensures var s := ChunkName(file, index);
            LastMark(s, |s|) == Some(|file|) && s[..|file|] == file && s[|file| + |MARK|..] == Decimal(index)
  {
    var s := ChunkName(file, index);
    assert s[|file|..|file| + |MARK|] == MARK;
    assert MarkAt(s, |file|);
    forall p | |file| < p < |s| ensures !MarkAt(s, p) {
      assert MarkAt(s, p) ==> s[p] == s[p..p + |MARK|][0];
      if p < |file| + |MARK| {
        assert s[p] == MARK[p - |file|] != '_';
      } else {
        assert IsDigit(Decimal(index)[p - |file| - |MARK|]);
        assert IsDigit(s[p]);
      }
    }
  }

  lemma ChunkNameRoundTrip(file: string, index: nat)
    ensures ParseChunkName(ChunkName(file, index))
            == if index <= INT_MAX then Chunk(file, index) else Malformed
  {
    LastMarkOfChunkName(file, index);
    StoiOfDecimal(index);
  }

  /** Chunks of different files, or different chunks of one file, never share a name. */
  lemma ChunkNameInjective(f: string, i: nat, g: string, j: nat)
    requires ChunkName(f, i) == ChunkName(g, j)
    ensures f == g && i == j
  {
    LastMarkOfChunkName(f, i);
    LastMarkOfChunkName(g, j);
    DecimalInjective(i, j);
  }

  /** The name a node sees. */
  lemma CutChunkName(f: string, k: nat)
    ensures CString(ChunkName(f, k)) == if '\0' in f then CString(f) else ChunkName(f, k)
  {
    var s, d := ChunkName(f, k), Decimal(k);
    forall i | |f| <= i < |s| ensures s[i] != '\0' {
      assert i >= |f| + |MARK| ==> s[i] == d[i - |f| - |MARK|] && IsDigit(d[i - |f| - |MARK|]);
    }
    var r := CString(s);
    if '\0' in f {
      assert |r| < |f| by {
        var i :| 0 <= i < |f| && f[i] == '\0';
        assert s[i] == '\0';
      }
      var q := CString(f);
      assert r == f[..|r|] && f[|r|] == '\0';
      assert |q| == |r|;
    }
  }

  /** The two chunks that collide because at least one file name is cut. */
  predicate CutTogether(f: string, j: nat, g: string, k: nat) {
    if '\0' in f then
      CString(f) == if '\0' in g then CString(g) else ChunkName(g, k)
    else
      '\0' in g && CString(g) == ChunkName(f, j)
  }

  /** Two different chunks, of one file or of two, share a file on a node if and only if both file
      names are cut to the same one, or one is cut to exactly the other chunk's name. */
  lemma ChunksKeptApart(f: string, j: nat, g: string, k: nat)
    requires f != g || j != k
    ensures CString(ChunkName(f, j)) == CString(ChunkName(g, k)) <==> CutTogether(f, j, g, k)
  {
    CutChunkName(f, j);
    CutChunkName(g, k);
    if '\0' !in f && '\0' !in g && ChunkName(f, j) == ChunkName(g, k) {
      ChunkNameInjective(f, j, g, k);
    }
  }
}
