/** How an upload is cut into chunks: chunk k is the bytes from Offset(k) to Offset(k + 1). */
module Chunking {
  import opened Wrappers

  /** bytes_read after k rounds of the upload loop on n bytes with chunks of at most c. */
  function Offset(n: nat, c: nat, k: nat): (r: nat)
    ensures r <= n
  {
    if k == 0 then 0 else Min(Offset(n, c, k - 1) + c, n)
  }

  function Slice(content: string, c: nat, k: nat): string {
    content[Offset(|content|, c, k)..Offset(|content|, c, k + 1)]
  }

  lemma OffsetGrows(n: nat, c: nat, j: nat, k: nat)
    requires j <= k
    ensures Offset(n, c, j) <= Offset(n, c, k)
  {
    if j < k {
      OffsetGrows(n, c, j, k - 1);
    }
  }

  /** The recursion in closed form. */
  lemma {:induction false} OffsetClosedForm(n: nat, c: nat, k: nat)
    ensures Offset(n, c, k) == Min(k * c, n)
  {
    if k > 0 {
      OffsetClosedForm(n, c, k - 1);
      assert k * c == (k - 1) * c + c;
    }
  }

  /** The first k chunks, end to end. */
  function Joined(content: string, c: nat, k: nat): string {
    if k == 0 then "" else Joined(content, c, k - 1) + Slice(content, c, k - 1)
  }

  lemma {:induction false} JoinedIsPrefix(content: string, c: nat, k: nat)
    ensures Joined(content, c, k) == content[..Offset(|content|, c, k)]
  {
    if k > 0 {
      JoinedIsPrefix(content, c, k - 1);
      OffsetGrows(|content|, c, k - 1, k);
    }
  }

  function SumTo(content: string, c: nat, k: nat): nat {
    if k == 0 then 0 else SumTo(content, c, k - 1) + |Slice(content, c, k - 1)|
  }

  /** An upload that has read everything after m rounds and not before: m is the number of
      chunks rounded up, all of them full except possibly the last, their sizes add up to the
      file size and their concatenation is the file. */
  lemma ChunkingLossless(content: string, c: nat, m: nat)
    requires c > 0 && m > 0
    requires Offset(|content|, c, m) == |content| && Offset(|content|, c, m - 1) < |content|
    ensures m == (|content| + c - 1) / c
    ensures forall k :: 0 <= k < m - 1 ==> |Slice(content, c, k)| == c
    ensures 0 < |Slice(content, c, m - 1)| == |content| - (m - 1) * c <= c
    ensures SumTo(content, c, m) == |content|
    ensures Joined(content, c, m) == content
  {
    var n := |content|;
    OffsetClosedForm(n, c, m);
    OffsetClosedForm(n, c, m - 1);
    CeilingIs(n, c, m);
    forall k | 0 <= k < m - 1 ensures |Slice(content, c, k)| == c {
      OffsetGrows(n, c, k + 1, m - 1);
    }
    SumIsOffset(content, c, m);
    JoinedIsPrefix(content, c, m);
  }

  lemma {:induction false} SumIsOffset(content: string, c: nat, k: nat)
    ensures SumTo(content, c, k) == Offset(|content|, c, k)
  {
    if k > 0 {
      SumIsOffset(content, c, k - 1);
      OffsetGrows(|content|, c, k - 1, k);
    }
  }

  lemma CeilingIs(n: nat, c: nat, m: nat)
    requires c > 0 && m > 0 && (m - 1) * c < n <= m * c
    ensures (n + c - 1) / c == m
  {
    var q := (n + c - 1) / c;
    var r := (n + c - 1) % c;
    assert n + c - 1 == q * c + r && 0 <= r < c;
    if q < m {
      Monotone(q, m - 1, c);
    } else if q > m {
      Monotone(m + 1, q, c);
    }
  }

  lemma Monotone(a: int, b: int, c: nat)
    requires a <= b
    ensures a * c <= b * c
  {
    assert b * c - a * c == (b - a) * c;
  }
}
