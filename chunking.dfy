/**
 * The chunked remote encoding: a serialised document is cut into slices of at most
 * 900 * 1024 string units, stored as `data-part1.json`, `data-part2.json`, ... and listed,
 * in order, by the index resource.
 */
module Chunking {
  import opened Text

  /** `900 * 1024`, the largest chunk in string units. */
  const ChunkSize: nat := 900 * 1024

  /** The slices `jsonStr.slice(i, i + chunkSize)` for i = 0, chunkSize, 2 * chunkSize, ... */
  function Chunks(s: string): seq<string>
    decreases |s|
  {
    if |s| == 0 then []
    else if |s| <= ChunkSize then [s]
    else [s[..ChunkSize]] + Chunks(s[ChunkSize..])
  }

  /** Left-to-right concatenation, as `data += part` builds it. */
  function Concat(parts: seq<string>): string
    decreases |parts|
  {
    if |parts| == 0 then "" else Concat(parts[..|parts| - 1]) + parts[|parts| - 1]
  }

  /** The saving loop: pushes one slice per step of `chunkSize`. */
  method SplitChunks(s: string) returns (chunks: seq<string>)
    ensures chunks == Chunks(s)
  {
    chunks := [];
    var i := 0;
    while i < |s|
      invariant 0 <= i
      invariant i <= |s| ==> chunks + Chunks(s[i..]) == Chunks(s)
      invariant i > |s| ==> chunks == Chunks(s)
      decreases |s| - i
    {
      var end := if i + ChunkSize <= |s| then i + ChunkSize else |s|;
      ghost var rest := s[i..];
      if |rest| <= ChunkSize {
        assert end == |s| && rest == s[i..end];
        assert Chunks(rest) == [rest];
        assert i + ChunkSize == |s| ==> Chunks(s[i + ChunkSize..]) == [];
      } else {
        assert rest[..ChunkSize] == s[i..end];
        assert rest[ChunkSize..] == s[i + ChunkSize..];
        assert Chunks(rest) == [s[i..end]] + Chunks(s[i + ChunkSize..]);
      }
      chunks := chunks + [s[i..end]];
      i := i + ChunkSize;
    }
    if i == |s| {
      assert Chunks(s[i..]) == [];
    }
  }

  lemma {:induction false} ConcatCons(a: string, parts: seq<string>)
    ensures Concat([a] + parts) == a + Concat(parts)
    decreases |parts|
  {
    if |parts| > 0 {
      var init := parts[..|parts| - 1];
      assert ([a] + parts)[..|parts|] == [a] + init;
      ConcatCons(a, init);
    } else {
      assert [a] + parts == [a];
      assert [a][..0] == [];
    }
  }

  lemma ConcatSnoc(parts: seq<string>, a: string)
    ensures Concat(parts + [a]) == Concat(parts) + a
  {
    assert (parts + [a])[..|parts|] == parts;
  }

  /** The chunks concatenate, in order, back to the serialised string. */
  lemma {:induction false} ChunksConcat(s: string)
    ensures Concat(Chunks(s)) == s
    decreases |s|
  {
    if |s| > ChunkSize {
      ChunksConcat(s[ChunkSize..]);
      ConcatCons(s[..ChunkSize], Chunks(s[ChunkSize..]));
      assert s[..ChunkSize] + s[ChunkSize..] == s;
    } else if |s| > 0 {
      assert [s][..0] == [];
    }
  }

  /** Chunk k is the slice starting at k * chunkSize, clamped at the end of the string. */
  lemma {:induction false} ChunkAt(s: string, k: nat)
    requires k < |Chunks(s)|
    ensures k * ChunkSize < |s|
    ensures Chunks(s)[k] == s[k * ChunkSize .. if (k + 1) * ChunkSize <= |s| then (k + 1) * ChunkSize else |s|]
    decreases |s|
  {
    if k > 0 {
      var t := s[ChunkSize..];
      assert |s| > ChunkSize && Chunks(s)[k] == Chunks(t)[k - 1];
      ChunkAt(t, k - 1);
      var lo := (k - 1) * ChunkSize;
      assert lo + ChunkSize == k * ChunkSize && k * ChunkSize + ChunkSize == (k + 1) * ChunkSize;
      var hi := if k * ChunkSize <= |t| then k * ChunkSize else |t|;
      assert t[lo..hi] == s[lo + ChunkSize .. hi + ChunkSize];
    }
  }

  /** Every chunk is non-empty and at most chunkSize long; all but the last are exactly chunkSize. */
  lemma ChunkSizes(s: string)
    ensures forall k :: 0 <= k < |Chunks(s)| ==> 0 < |Chunks(s)[k]| <= ChunkSize
    ensures forall k :: 0 <= k < |Chunks(s)| - 1 ==> |Chunks(s)[k]| == ChunkSize
  {
    forall k | 0 <= k < |Chunks(s)| ensures 0 < |Chunks(s)[k]| <= ChunkSize {
      ChunkAt(s, k);
    }
    forall k | 0 <= k < |Chunks(s)| - 1 ensures |Chunks(s)[k]| == ChunkSize {
      ChunkAt(s, k);
      ChunkAt(s, k + 1);
    }
  }

  /** There are ceil(|s| / chunkSize) chunks. */
  lemma {:induction false} ChunkCount(s: string)
    ensures |Chunks(s)| == (|s| + ChunkSize - 1) / ChunkSize
    decreases |s|
  {
    if |s| > ChunkSize {
      ChunkCount(s[ChunkSize..]);
      var n := |s| - ChunkSize;
      assert (n + ChunkSize + ChunkSize - 1) / ChunkSize == (n + ChunkSize - 1) / ChunkSize + 1;
    }
  }

  /** The index's `files` list: `chunks.map((_, i) => `data-part${i + 1}.json`)`. */
  function PartNames(n: nat): seq<string> {
    seq(n, k requires 0 <= k < n => PartName(k + 1))
  }

  /** The chunk entries of the `files` object that `chunks.forEach` fills. */
  function PartTable(chunks: seq<string>): map<string, string>
    decreases |chunks|
  {
    if |chunks| == 0 then map[]
    else PartTable(chunks[..|chunks| - 1])[PartName(|chunks|) := chunks[|chunks| - 1]]
  }

  /** The `forEach` over the chunks, filling the `files` object. */
  method ChunkFiles(chunks: seq<string>) returns (files: map<string, string>)
    ensures files == PartTable(chunks)
  {
    files := map[];
    var k := 0;
    while k < |chunks|
      invariant 0 <= k <= |chunks|
      invariant files == PartTable(chunks[..k])
    {
      assert chunks[..k + 1][..k] == chunks[..k];
      files := files[PartName(k + 1) := chunks[k]];
      k := k + 1;
    }
    assert chunks[..k] == chunks;
  }

  /** Chunk k is stored under `data-part{k+1}.json`. */
  lemma {:induction false} PartTableAt(chunks: seq<string>, k: nat)
    requires k < |chunks|
    ensures PartName(k + 1) in PartTable(chunks) && PartTable(chunks)[PartName(k + 1)] == chunks[k]
    decreases |chunks|
  {
    var n := |chunks|;
    if k < n - 1 {
      PartTableAt(chunks[..n - 1], k);
      PartNameInjective(k + 1, n);
    }
  }

  /** The table's keys are exactly the names the index lists. */
  lemma {:induction false} PartTableKeys(chunks: seq<string>)
    ensures forall name :: name in PartTable(chunks) <==> name in PartNames(|chunks|)
    decreases |chunks|
  {
    if |chunks| > 0 {
      var n := |chunks|;
      PartTableKeys(chunks[..n - 1]);
      forall name ensures name in PartTable(chunks) <==> name in PartNames(n) {
        if name in PartNames(n) {
          var k :| 0 <= k < n && PartNames(n)[k] == name;
          if k < n - 1 { assert PartNames(n - 1)[k] == name; }
        }
        if name in PartNames(n - 1) {
          var k :| 0 <= k < n - 1 && PartNames(n - 1)[k] == name;
          assert PartNames(n)[k] == name;
        }
        assert PartNames(n)[n - 1] == PartName(n);
      }
    }
  }
}
