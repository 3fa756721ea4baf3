/** Flat buffers of membership rows: cutting them into rows and back, and the compaction of rows. */
module RowBuffers {
  import opened Flattening
  import opened Products
  import opened Sampling
  import opened Samplers
  import opened MarkWords

  /** The rows of a flat buffer, each of the given number of words. */
  function Chunks(s: seq<Word>, words: nat): (rows: seq<seq<Word>>)
    requires 0 < words
    ensures forall i :: 0 <= i < |rows| ==> |rows[i]| == words
    decreases |s|
  {
    if |s| < words then [] else [s[..words]] + Chunks(s[words..], words)
  }

  lemma {:induction false} ChunksOfFlat(rows: seq<seq<Word>>, words: nat)
    requires 0 < words && forall i :: 0 <= i < |rows| ==> |rows[i]| == words
    ensures Chunks(Flatten(rows), words) == rows
  {
    if rows != [] {
      var rest := Flatten(rows[1..]);
      assert Flatten(rows)[..words] == rows[0] && Flatten(rows)[words..] == rest;
      ChunksOfFlat(rows[1..], words);
    }
  }

  lemma {:induction false} ChunkCount(s: seq<Word>, words: nat, n: nat)
    requires 0 < words && |s| == n * words
    ensures |Chunks(s, words)| == n && Flatten(Chunks(s, words)) == s
    decreases n
  {
    if n > 0 {
      assert n * words == words + (n - 1) * words;
      ChunkCount(s[words..], words, n - 1);
    }
  }

  /** A prefix of the buffer holds a prefix of the rows. */
  lemma ChunksPrefix(s: seq<Word>, words: nat, n: nat, items: nat)
    requires 0 < words && |s| == n * words && items <= n
    ensures items * words <= n * words && |Chunks(s, words)| == n
            && Chunks(s[..items * words], words) == Chunks(s, words)[..items]
  {
    hide Chunks;
    Monotone(items, n, words);
    ChunkCount(s, words, n);
    var rows := Chunks(s, words);
    FlattenCut(rows, words, items);
    ChunksOfFlat(rows[..items], words);
  }

  /** The membership bits of k samples, row by row. */
  function BitRows(s: seq<Word>, words: nat, k: nat): (rows: seq<seq<bool>>)
    requires 0 < words
    ensures |rows| == |Chunks(s, words)| && forall i :: 0 <= i < |rows| ==> rows[i] == RowBits(Chunks(s, words)[i], k)
  {
    seq(|Chunks(s, words)|, i requires 0 <= i < |Chunks(s, words)| => RowBits(Chunks(s, words)[i], k))
  }

  /** Stands for the compaction network over rows of several words. */
  method TightCompactRows(a: array<Word>, n: nat, width: nat, flags: array<bool>, order: seq<bool> -> seq<nat>)
    requires Compactor(order) && 0 < width && n * width <= a.Length && flags.Length == n
    modifies a
    ensures |Chunks(old(a[..n * width]), width)| == n
    ensures a[..n * width] == Flatten(Compacted(order, flags[..], Chunks(old(a[..n * width]), width), n))
  {
    hide Flatten, Chunks, Compacted;
    var s := a[..n * width];
    ChunkCount(s, width, n);
    var rows := Compacted(order, flags[..], Chunks(s, width), n);
    CompactedWidths(order, flags[..], Chunks(s, width), n, width);
    FlattenSize(rows, width);
    assert width * n == n * width;
    Overwrite(a, Flatten(rows));
  }

  method Overwrite<T>(a: array<T>, out: seq<T>)
    requires |out| <= a.Length
    modifies a
    ensures a[..|out|] == out
  {
    forall i | 0 <= i < |out| {
      a[i] := out[i];
    }
  }

  lemma CompactedWidths(order: seq<bool> -> seq<nat>, flags: seq<bool>, rows: seq<seq<Word>>, n: nat, width: nat)
    requires Compactor(order) && |flags| == |rows| == n && forall i :: 0 <= i < n ==> |rows[i]| == width
    ensures forall i :: 0 <= i < n ==> |Compacted(order, flags, rows, n)[i]| == width
  {
    PermutationShape(order(flags), n);
  }
}
