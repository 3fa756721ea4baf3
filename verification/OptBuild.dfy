/** Building the controls of FFOS_C_Opt: the plan, the tape, and the proof that the tape is FFOS_C's. */
module OptBuild {
  import opened PackedBits
  import opened Sampling
  import opened Samplers
  import opened MarkWords
  import opened RowBuffers
  import opened OptPlan
  import opened OptWrite
  import OptRead
  import Delivery

  /** The bits of groups that share one input, one after the other. */
  ghost function RootsTape(order: seq<bool> -> seq<nat>, rows: seq<seq<bool>>, m: nat,
                           frontier: seq<FrontierNode>): (t: seq<bool>)
    requires Compactor(order) && 0 < m <= |rows| && forall i :: 0 <= i < |frontier| ==> 0 < frontier[i].count
    ensures |t| == FrontierBits(frontier, |rows|, m)
    decreases |frontier|
  {
    if frontier == [] then []
    else EdgeTape(order, rows, m, frontier[0].start, frontier[0].count) + RootsTape(order, rows, m, frontier[1..])
  }

  /** They are the tape FFOS_C writes. */
  lemma {:induction false} RootsTapeIsWritten(order: seq<bool> -> seq<nat>, rows: seq<seq<bool>>, m: nat,
                                              frontier: seq<FrontierNode>)
    requires Compactor(order) && 0 < m <= |rows| && forall i :: 0 <= i < |frontier| ==> 0 < frontier[i].count
    ensures WriteNodes(FILTERS, order, frontier, rows, m) == Some(Tapes(RootsTape(order, rows, m, frontier), []))
    decreases |frontier|
  {
    hide WriteEdge, CountEdge;
    if frontier != [] {
      var g := frontier[0];
      EdgeAlwaysWrites(order, rows, m, g.start, g.count);
      Delivery.NoForkControlsEdge(|rows|, m, g.count);
      RootsTapeIsWritten(order, rows, m, frontier[1..]);
      var w := WriteEdge(FILTERS, order, rows, m, g.start, g.count).value;
      assert w.ofr == [] && w.ofr + [] == [];
    }
  }

  /** Words the shared backup needs: the largest input any pair of groups is served from. */
  method BackupWords(nodes: seq<Node>, m: nat, exactWords: nat) returns (size: nat)
    ensures exactWords <= size
    ensures forall i :: 0 <= i < |nodes| && nodes[i].count > 1 ==>
            m * nodes[i].count * MarkWordsOf(nodes[i].count) <= size
  {
    hide MarkWordsOf;
    size := exactWords;
    for i := 0 to |nodes|
      invariant exactWords <= size
      invariant forall j :: 0 <= j < i && nodes[j].count > 1 ==>
                m * nodes[j].count * MarkWordsOf(nodes[j].count) <= size
    {
      if nodes[i].count > 1 {
        var need := m * nodes[i].count * MarkWordsOf(nodes[i].count);
        if size < need {
          size := need;
        }
      }
    }
  }

  lemma HoldsFewer(s: seq<Word>, n: nat, width: nat, k: nat, rows: seq<seq<bool>>, items: nat)
    requires Holds(s, n, width, k, rows) && items <= n
    ensures Holds(s, items, width, k, rows[..items])
  {
    hide BitRows;
    Area(items, n, width, width);
    HoldsPrefix(s, n, width, k, rows, items, s[..items * width]);
    assert s[..items * width][..items * width] == s[..items * width];
  }

  /**
   * One root over the constant membership: nothing when it is the whole input, else a projected copy served further.
   */
  method WriteRoot(membership: array<Word>, words: nat, id: nat, nodes: seq<Node>, bits: array<bv8>, n: nat, m: nat,
                   backup: array<Word>,
                   order: seq<bool> -> seq<nat>, ghost k: nat, ghost g: FrontierNode, ghost offset: nat,
                     ghost rows: seq<seq<bool>>)
    requires Compactor(order) && 0 < m <= n && words == MarkWordsOf(k) && Holds(membership[..], n, words, k, rows)
    requires 0 < g.count && m * g.count <= n && g.start + g.count <= k
    requires Records(nodes, id, Plan(n, m, g.start, g.count, offset, id))
             && offset + NodeBits(n, m, g.count) <= 8 * bits.Length
    requires g.count > 1 ==> m * g.count * MarkWordsOf(g.count) <= backup.Length
    requires membership != backup && {membership as object, backup} !! {bits}
    modifies backup, bits
    ensures TapeAt(bits[..], offset, EdgeTape(order, rows, m, g.start, g.count))
    ensures OnlyBits(bits[..], old(bits[..]), offset, offset + NodeBits(n, m, g.count))
  {
    hide Plan, Records, EdgeBits, NodeBits, TapeAt, OnlyBits, Holds, EdgeTape, BelowTape, OwnFlags, KeptRows, MovedRows;
    HoldsSize(membership[..], n, words, k, rows);
    OptRead.GroupRecorded(nodes, id, n, m, g.start, g.count, offset);
    PlanStart(nodes, id, n, m, g.start, g.count, offset);
    ghost var kept := KeptRows(order, rows, m, g.start, g.count);
    WholeGroup(order, rows, m, g.start, g.count);
    var node := nodes[id];
    if node.count == 1 && m * node.count == n {
      EdgeBitsOf(n, m, g.count);
      NodeBitsSplit(n, m, g.count);
      assert EdgeTape(order, rows, m, g.start, g.count) == [];
      NothingWritten(bits[..], offset);
      return;
    }
    WordsOfPart(g.count, k);
    ghost var b0, e := bits[..], EdgeBits(n, m, g.count);
    var child := new Word[n * MarkWordsOf(node.count)];
    ProjectCompact(membership, words, child, node, bits, m, order, k, rows);
    ghost var b1 := bits[..];
    MovedKeeps(order, rows, m, g.start, g.count);
    HoldsFewer(child[..], n, MarkWordsOf(g.count), g.count, MovedRows(order, rows, m, g.start, g.count), m * g.count);
    WriteBelow(child, node, nodes, bits, m, backup, order, id, n, g.start, g.count, offset, kept);
    TapeStays(bits[..], b1, offset + e, offset + NodeBits(n, m, g.count), offset, OwnFlags(rows, m, g.start, g.count));
    TapeJoins(bits[..], offset, OwnFlags(rows, m, g.start, g.count), BelowTape(order, kept, m, g.count));
    OnlyBitsJoin(bits[..], b1, b0, offset, offset + e, offset + e, offset + NodeBits(n, m, g.count), offset, offset
                 + NodeBits(n, m, g.count));
  }

  /** The root loop. */
  method WriteRoots(membership: array<Word>, words: nat, roots: seq<nat>, nodes: seq<Node>, bits: array<bv8>, n: nat,
                    m: nat,
                    backup: array<Word>, order: seq<bool> -> seq<nat>, ghost k: nat, ghost frontier: seq<FrontierNode>,
                      ghost rows: seq<seq<bool>>)
    requires Compactor(order) && 0 < m <= n && words == MarkWordsOf(k) && Holds(membership[..], n, words, k, rows)
             && |rows| == n
    requires forall i :: 0 <= i < |frontier| ==> 0 < frontier[i].count && frontier[i].start + frontier[i].count <= k
    requires |roots| == |frontier| && RootsRecorded(nodes, roots, frontier, n, m, 0)
             && FrontierBits(frontier, n, m) <= 8 * bits.Length
    requires forall i :: 0 <= i < |nodes| && nodes[i].count > 1 ==>
             m * nodes[i].count * MarkWordsOf(nodes[i].count) <= backup.Length
    requires membership != backup && {membership as object, backup} !! {bits}
    modifies backup, bits
    ensures TapeAt(bits[..], 0, RootsTape(order, rows, m, frontier))
  {
    hide Records, Plan, NodeBits, EdgeTape, TapeAt, OnlyBits, Holds, MarkWordsOf;
    ghost var total, s0 := RootsTape(order, rows, m, frontier), membership[..];
    ghost var done: seq<bool>, offset: nat := [], 0;
    assert [] + total == total && roots[0..] == roots && frontier[0..] == frontier;
    EmptyTape(bits[..]);
    for i := 0 to |roots|
      invariant membership[..] == s0 && |done| == offset && TapeAt(bits[..], 0, done)
      invariant RootsRecorded(nodes, roots[i..], frontier[i..], n, m, offset)
      invariant offset + FrontierBits(frontier[i..], n, m) <= 8 * bits.Length
      invariant done + RootsTape(order, rows, m, frontier[i..]) == total
    {
      assert frontier[i..][0] == frontier[i] && roots[i..][0] == roots[i];
      assert frontier[i..][1..] == frontier[i + 1..] && roots[i..][1..] == roots[i + 1..];
      ghost var g, b := frontier[i], bits[..];
      ghost var own := EdgeTape(order, rows, m, g.start, g.count);
      assert done + (own + RootsTape(order, rows, m, frontier[i + 1..])) == done + own
        + RootsTape(order, rows, m, frontier[i + 1..]);
      PlanStart(nodes, roots[i], n, m, g.start, g.count, offset);
      WriteRoot(membership, words, roots[i], nodes, bits, n, m, backup, order, k, g, offset, rows);
      TapeStays(bits[..], b, offset, offset + NodeBits(n, m, g.count), 0, done);
      TapeJoins(bits[..], 0, done, own);
      done, offset := done + own, offset + NodeBits(n, m, g.count);
    }
    assert frontier[|roots|..] == [] && done + [] == done;
  }

  lemma EmptyTape(b: seq<bv8>)
    ensures TapeAt(b, 0, [])
  {
  }

  /**
   * FFOS_C_Opt writes FFOS_C's tape, bit for bit, for every membership, every accepted frontier and every
   * selected-first compaction; its plan passes validation, and assigns every bit of the tape and no more than were
   * counted. A membership the caller gives up serves as the working buffer of an exactly filled root.
   */
  method FFOS_C_OptControl(membership: array<Word>, frontier: seq<FrontierNode>, n: nat, m: nat, k: nat,
                           order: seq<bool> -> seq<nat>, owned: bool)
    returns (nodes: seq<Node>, roots: seq<nat>, bitCount: nat, bits: array<bv8>)
    requires Compactor(order) && 0 < m <= n && 0 < k && membership.Length == n * MarkWordsOf(k)
    requires frontier == [] || Covers(frontier, 0, k)
    requires forall i :: 0 <= i < |RootNodes(frontier, k)| ==> m * RootNodes(frontier, k)[i].count <= n
    modifies if owned then {membership} else {}
    ensures Validate(nodes, roots, bitCount, bits.Length, n, m, k)
            && FrontierOf(nodes, roots, 0) == RootNodes(frontier, k)
    ensures var rows := BitRows(old(membership[..]), MarkWordsOf(k), k);
            && |rows| == n && (forall i :: 0 <= i < |RootNodes(frontier, k)| ==> 0 < RootNodes(frontier, k)[i].count)
            && WriteNodes(FILTERS, order, RootNodes(frontier, k), rows, m)
              == Some(Tapes(BitsOf(bits[..], 0, bitCount), []))
            && bitCount == CountNodes(FILTERS, RootNodes(frontier, k), n, m).swo
  {
    hide Plan, Records, Covers, ValidateRoots, RootsRecorded, BitRows, RootsTape, EdgeTape, NodeBits, FrontierBits,
         Holds, OnlyBits, BitsOf, CountNodes, CountEdge, Chunks,
         WriteNodes, FrontierOf;
    ghost var g := RootNodes(frontier, k);
    Delivery.RootsCover(frontier, k);
    CoversBound(g, 0, k);
    var words, groups := MarkWordsOf(k), RootNodes(frontier, k);
    ghost var rows := BitRows(membership[..], words, k);
    WholeRows(membership[..], n, words, k);
    var controls := new OptControls(m);
    assert g != [];
    roots, bitCount := BuildPlan(controls, groups, n, k);
    nodes := controls.nodes;
    AcceptedRoots(nodes, roots, n, m, k, Walk(0, 0, 0));
    bits := new bv8[bitCount / 8 + if bitCount % 8 != 0 then 1 else 0](_ => 0);
    var exact := frontier == [] && m * k == n && k > 1;
    var size := BackupWords(nodes, m, if exact then n * words else 0);
    var backup := new Word[size];
    if exact {
      var root := membership;
      if !owned {
        root := new Word[n * words];
        CopyAll(membership, n, words, root, k, rows);
      }
      ExactPlan(nodes, roots, g, n, m, k);
      WritePair(root, words, roots[0], roots[1], nodes, bits, m, backup, order, n, k / 2, k - k / 2, 0, rows);
      ExactTape(order, rows, m, k, g);
    } else {
      WriteRoots(membership, words, roots, nodes, bits, n, m, backup, order, k, g, rows);
    }
    RootsTapeIsWritten(order, rows, m, g);
  }

  lemma WholeRows(s: seq<Word>, n: nat, words: nat, k: nat)
    requires 0 < words && |s| == n * words
    ensures Holds(s, n, words, k, BitRows(s, words, k)) && |BitRows(s, words, k)| == n
  {
    hide Chunks;
    ChunkCount(s, words, n);
    assert s[..n * words] == s;
  }

  /** The two groups of an exactly filled root. */
  lemma ExactPlan(nodes: seq<Node>, roots: seq<nat>, g: seq<FrontierNode>, n: nat, m: nat, k: nat)
    requires 0 < m <= n && 1 < k && m * k == n && g == RootNodes([], k) && |roots| == |g|
             && RootsRecorded(nodes, roots, g, n, m, 0)
    ensures |roots| == 2 && m * (k / 2) + m * (k - k / 2) == n
    ensures Records(nodes, roots[0], Plan(n, m, 0, k / 2, 0, roots[0]))
    ensures Records(nodes, roots[1], Plan(n, m, k / 2, k - k / 2, NodeBits(n, m, k / 2), roots[1]))
    ensures (forall i :: 0 <= i < |g| ==> 0 < g[i].count)
            && FrontierBits(g, n, m) == NodeBits(n, m, k / 2) + NodeBits(n, m, k - k / 2)
  {
    hide Records, Plan, NodeBits, RootsRecorded;
    GroupFits(m, k);
    OptRead.TwoRecorded(nodes, roots, g, n, m);
    var last := g[1..];
    assert last == [g[1]] && last[1..] == [];
    assert FrontierBits(last, n, m) == NodeBits(n, m, k - k / 2) + FrontierBits(last[1..], n, m);
  }

  lemma ExactTape(order: seq<bool> -> seq<nat>, rows: seq<seq<bool>>, m: nat, k: nat, g: seq<FrontierNode>)
    requires Compactor(order) && 0 < m <= |rows| && 1 < k && g == RootNodes([], k)
    ensures forall i :: 0 <= i < |g| ==> 0 < g[i].count
    ensures RootsTape(order, rows, m, g) == EdgeTape(order, rows, m, 0, k / 2)
            + EdgeTape(order, rows, m, k / 2, k - k / 2)
  {
    hide EdgeTape;
    var last := g[1..];
    assert last == [g[1]] && last[1..] == [];
    assert RootsTape(order, rows, m, last) == EdgeTape(order, rows, m, k / 2, k - k / 2)
      + RootsTape(order, rows, m, last[1..]);
  }
}
