/** Exact-count marking from random coins, and the grouping of samples into frontier nodes. */
module Marking {
  import opened Products
  import opened Lanes
  import opened Sampling
  import opened Samplers

  const COINS: nat := 0x1_0000_0000
  const WORD: nat := 0x1_0000_0000_0000_0000

  /**
   * The marking threshold of a 64-bit word: the count that is left, shifted up by 32 bits, over the rows that remain.
   */
  function Threshold(left: nat, remaining: nat): nat
    requires 0 < remaining
  {
    ((left * COINS) % WORD) / remaining
  }

  /** A row is marked when its coin falls below the threshold. */
  predicate Marks(left: nat, remaining: nat, coin: nat)
    requires 0 < remaining
  {
    coin < Threshold(left, remaining)
  }

  /** A sample without open marks marks no row. */
  lemma NoneLeft(remaining: nat, coin: nat)
    requires 0 < remaining
    ensures !Marks(0, remaining, coin)
  {
    assert 0 / remaining == 0;
  }

  lemma WholeQuotient(q: nat, d: nat)
    requires 0 < d
    ensures (q * d) / d == q
  {
    Quotient(q, 0, d);
  }

  /** As many open marks as rows: every coin marks, while the shifted count fits its word. */
  lemma AllLeft(left: nat, coin: nat)
    requires 0 < left < COINS && coin < COINS
    ensures Marks(left, left, coin)
  {
    assert left * COINS < WORD;
    WholeQuotient(COINS, left);
    assert (COINS * left) / left == COINS;
  }

  /** The marks of one sample, row by row. */
  function MarkColumn(left: nat, coins: seq<nat>): (marks: seq<bool>)
    ensures |marks| == |coins|
  {
    if coins == [] then []
    else
      var mark := Marks(left, |coins|, coins[0]);
      NoneLeft(|coins|, coins[0]);
      [mark] + MarkColumn(left - Bit(mark), coins[1..])
  }

  predicate AreCoins(coins: seq<nat>) {
    forall i :: 0 <= i < |coins| ==> coins[i] < COINS
  }

  /** A quotient is above x exactly when x + 1 whole divisors fit. */
  lemma QuotientAbove(y: nat, d: nat, x: nat)
    requires 0 < d
    ensures x < y / d <==> (x + 1) * d <= y
  {
    var q := y / d;
    assert y == q * d + y % d;
    if x < q {
      Monotone(x + 1, q, d);
    } else {
      Monotone(q + 1, x + 1, d);
      Distribute(q, 1, d);
    }
  }

  /**
   * What a coin decides: it marks when the coin and one more, times the rows that remain, fit the marks that are left,
   * as 32 bits hold them, times 2^32.
   */
  lemma CoinDecides(left: nat, remaining: nat, coin: nat)
    requires 0 < remaining
    ensures Marks(left, remaining, coin) <==> (coin + 1) * remaining <= (left % COINS) * COINS
  {
    Wraps(left);
    QuotientAbove((left % COINS) * COINS, remaining, coin);
  }

  /**
   * Row i is marked exactly when its own coin falls below the share of the rows from i on that is still to be marked.
   */
  lemma {:induction false} RowDecided(left: nat, coins: seq<nat>, i: nat)
    requires i < |coins|
    ensures var marks := MarkColumn(left, coins);
            && Count(marks[..i]) <= left
            && (marks[i] <==> (coins[i] + 1) * (|coins| - i) <= ((left - Count(marks[..i])) % COINS) * COINS)
    decreases i
  {
    hide Marks, Count;
    var mark := Marks(left, |coins|, coins[0]);
    NoneLeft(|coins|, coins[0]);
    var marks, rest := MarkColumn(left, coins), MarkColumn(left - Bit(mark), coins[1..]);
    if i == 0 {
      CoinDecides(left, |coins|, coins[0]);
      EmptyPrefix(marks);
    } else {
      RowDecided(left - Bit(mark), coins[1..], i - 1);
      assert marks == [mark] + rest;
      PrefixAfter(mark, rest, i);
    }
  }

  /** Below 2^32 marks: m rows, each marked when its own coin falls below the share that is still to be marked. */
  ghost predicate CoinsMark(marks: seq<bool>, coins: seq<nat>, m: nat) {
    && |marks| == |coins| && Count(marks) == m
    && forall i :: 0 <= i < |marks| ==>
         (marks[i] <==> (coins[i] + 1) * (|coins| - i) <= (m - Count(marks[..i])) * COINS)
  }

  lemma ColumnOfCoins(m: nat, coins: seq<nat>)
    requires m <= |coins| && m < COINS && AreCoins(coins)
    ensures CoinsMark(MarkColumn(m, coins), coins, m)
  {
    hide MarkColumn, Count;
    ExactColumn(m, coins);
    var marks := MarkColumn(m, coins);
    forall i | 0 <= i < |marks|
      ensures marks[i] <==> (coins[i] + 1) * (|coins| - i) <= (m - Count(marks[..i])) * COINS
    {
      RowDecided(m, coins, i);
      SmallCount(m - Count(marks[..i]));
    }
  }

  lemma SmallCount(left: nat)
    requires left < COINS
    ensures left % COINS == left
  {
  }

  lemma EmptyPrefix(marks: seq<bool>)
    ensures Count(marks[..0]) == 0
  {
  }

  lemma PrefixAfter(mark: bool, rest: seq<bool>, i: nat)
    requires 0 < i <= |rest| + 1
    ensures Count(([mark] + rest)[..i]) == Bit(mark) + Count(rest[..i - 1])
  {
    assert ([mark] + rest)[..i] == [mark] + rest[..i - 1];
    assert ([mark] + rest[..i - 1])[1..] == rest[..i - 1];
  }

  /** Whatever the coins, a sample marks exactly as many rows as it may. */
  lemma {:induction false} ExactColumn(left: nat, coins: seq<nat>)
    requires left <= |coins| && left < COINS && AreCoins(coins)
    ensures Count(MarkColumn(left, coins)) == left
    decreases |coins|
  {
    if coins != [] {
      var mark := Marks(left, |coins|, coins[0]);
      NoneLeft(|coins|, coins[0]);
      if left == |coins| {
        AllLeft(left, coins[0]);
      }
      ExactColumn(left - Bit(mark), coins[1..]);
    }
  }

  /** The highest coin never marks once the shifted count has wrapped. */
  lemma WrappedNeverMarks(left: nat, remaining: nat)
    requires COINS <= left <= remaining
    ensures !Marks(left, remaining, COINS - 1)
  {
    var low := left % COINS;
    Wraps(left);
    assert low * COINS < remaining * COINS by {
      Monotone(low + 1, remaining, COINS);
    }
    BelowQuotient(low * COINS, COINS, remaining);
  }

  lemma Wraps(left: nat)
    ensures (left * COINS) % WORD == (left % COINS) * COINS
  {
    var q, r := left / COINS, left % COINS;
    assert left * COINS == q * WORD + r * COINS;
    Quotient(q, r * COINS, WORD);
  }

  lemma BelowQuotient(x: nat, q: nat, d: nat)
    requires 0 < d && x < d * q
    ensures x / d < q
  {
    assert x == (x / d) * d + x % d;
    if q <= x / d {
      Monotone(q, x / d, d);
    }
  }

  function Highest(n: nat): seq<nat> {
    seq(n, _ => COINS - 1)
  }

  lemma {:induction false} WrappedColumn(left: nat, n: nat)
    requires COINS <= left <= n
    ensures Count(MarkColumn(left, Highest(n))) < left
    decreases n
  {
    hide Marks;
    var coins := Highest(n);
    WrappedNeverMarks(left, n);
    assert coins[1..] == Highest(n - 1);
    assert MarkColumn(left, coins) == [false] + MarkColumn(left, coins[1..]);
    if left < n {
      WrappedColumn(left, n - 1);
    } else {
      CountBounds(MarkColumn(left, coins[1..]));
    }
    assert MarkColumn(left, coins)[1..] == MarkColumn(left, coins[1..]);
  }

  /**
   * Marking is exact for every coin sequence if and only if the count to mark is below 2^32; from 2^32 on the shifted
   * count wraps around its word and some coins leave rows unmarked.
   */
  lemma ExactForEveryCoin(n: nat, m: nat)
    requires m <= n
    ensures m < COINS <==> forall coins: seq<nat> :: |coins| == n && AreCoins(coins) ==>
            Count(MarkColumn(m, coins)) == m
  {
    if m < COINS {
      forall coins: seq<nat> | |coins| == n && AreCoins(coins) ensures Count(MarkColumn(m, coins)) == m {
        ExactColumn(m, coins);
      }
    } else {
      WrappedColumn(m, n);
      assert |Highest(n)| == n && AreCoins(Highest(n));
    }
  }

  /** The coins of one sample's column. */
  function ColumnCoins(coin: (nat, nat) -> nat, n: nat, from: nat, j: nat): (coins: seq<nat>)
    requires from <= n
    ensures |coins| == n - from && forall i :: 0 <= i < n - from ==> coins[i] == coin(from + i, j)
  {
    seq(n - from, i requires 0 <= i < n - from => coin(from + i, j))
  }

  /** Sample j's marks so far are a prefix of its column, and left is what the rest of the column may still mark. */
  ghost predicate ColumnSoFar(rows: seq<seq<bool>>, coin: (nat, nat) -> nat, n: nat, m: nat, i: nat, j: nat,
                              left: nat) {
    && i <= n && i <= |rows|
    && (forall r :: 0 <= r < i ==> j < |rows[r]|)
    && MarkColumn(m, ColumnCoins(coin, n, 0, j)) == Column(rows[..i], j) + MarkColumn(left, ColumnCoins(coin, n, i, j))
  }

  /** Row i of sample j is decided by its own coin, the rows that remain and the marks that are left. */
  ghost predicate RowMarks(rows: seq<seq<bool>>, coin: (nat, nat) -> nat, n: nat, m: nat, i: nat, j: nat) {
    && i < n == |rows| && j < |rows[i]|
    && Marked(rows[..i], j) <= m
    && (rows[i][j] <==> (coin(i, j) + 1) * (n - i) <= ((m - Marked(rows[..i], j)) % COINS) * COINS)
  }

  lemma RowOfColumn(rows: seq<seq<bool>>, coin: (nat, nat) -> nat, n: nat, m: nat, i: nat, j: nat)
    requires i < n == |rows| && j < |rows[i]| && Column(rows, j) == MarkColumn(m, ColumnCoins(coin, n, 0, j))
    ensures RowMarks(rows, coin, n, m, i, j)
  {
    hide MarkColumn, Count;
    RowDecided(m, ColumnCoins(coin, n, 0, j), i);
    assert Column(rows, j)[..i] == Column(rows[..i], j);
  }

  lemma ColumnStart(coin: (nat, nat) -> nat, n: nat, m: nat, j: nat)
    ensures ColumnSoFar([], coin, n, m, 0, j, m)
  {
    var none: seq<seq<bool>> := [];
    assert Column(none[..0], j) == [];
    assert [] + MarkColumn(m, ColumnCoins(coin, n, 0, j)) == MarkColumn(m, ColumnCoins(coin, n, 0, j));
  }

  lemma ColumnStep(rows: seq<seq<bool>>, row: seq<bool>, coin: (nat, nat) -> nat, n: nat, m: nat, i: nat, j: nat,
                   left: nat, mark: bool)
    requires |rows| == i < n && ColumnSoFar(rows, coin, n, m, i, j, left) && j < |row| && row[j] == mark
    requires mark == Marks(left, n - i, coin(i, j))
    ensures Bit(mark) <= left && ColumnSoFar(rows + [row], coin, n, m, i + 1, j, left - Bit(mark))
  {
    NoneLeft(n - i, coin(i, j));
    var coins, rows' := ColumnCoins(coin, n, i, j), rows + [row];
    assert coins[1..] == ColumnCoins(coin, n, i + 1, j);
    assert rows[..i] == rows && rows'[..i + 1] == rows';
    assert Column(rows', j) == Column(rows, j) + [mark];
    var rest := MarkColumn(left - Bit(mark), coins[1..]);
    assert Column(rows, j) + ([mark] + rest) == Column(rows, j) + [mark] + rest;
  }

  /**
   * FFOS_CMark: n rows of k membership bits, each decided by its own coin, the rows that remain and the marks its
   * sample has left. While fewer than 2^32 rows are to be marked every sample marks exactly m rows, for every coin.
   */
  method FFOS_CMark(n: nat, request: nat, k: nat, coin: (nat, nat) -> nat) returns (rows: seq<seq<bool>>, m: nat)
    requires forall i, j :: coin(i, j) < COINS
    ensures m == (if request > n then n else request) && |rows| == n && forall i :: 0 <= i < n ==> |rows[i]| == k
    ensures forall j :: 0 <= j < k ==> Column(rows, j) == MarkColumn(m, ColumnCoins(coin, n, 0, j))
    ensures m < COINS ==> forall j :: 0 <= j < k ==> Marked(rows, j) == m
    ensures forall i, j :: 0 <= i < n && 0 <= j < k ==> RowMarks(rows, coin, n, m, i, j)
  {
    m := if request > n then n else request;
    rows := [];
    var left := new nat[k](_ => m);
    forall j | 0 <= j < k ensures ColumnSoFar(rows, coin, n, m, 0, j, left[j]) {
      ColumnStart(coin, n, m, j);
    }
    for i := 0 to n
      invariant |rows| == i && forall r :: 0 <= r < i ==> |rows[r]| == k
      invariant forall j :: 0 <= j < k ==> ColumnSoFar(rows, coin, n, m, i, j, left[j])
    {
      var row := MarkRow(rows, n, m, i, left, coin);
      rows := rows + [row];
    }
    forall j | 0 <= j < k ensures Column(rows, j) == MarkColumn(m, ColumnCoins(coin, n, 0, j)) {
      assert ColumnSoFar(rows, coin, n, m, n, j, left[j]);
      assert rows[..n] == rows && Column(rows, j) + [] == Column(rows, j);
    }
    if m < COINS {
      forall j | 0 <= j < k ensures Marked(rows, j) == m {
        ExactColumn(m, ColumnCoins(coin, n, 0, j));
      }
    }
    forall i, j | 0 <= i < n && 0 <= j < k ensures RowMarks(rows, coin, n, m, i, j) {
      RowOfColumn(rows, coin, n, m, i, j);
    }
  }

  /** One row: a coin for every sample. */
  method MarkRow(ghost rows: seq<seq<bool>>, n: nat, ghost m: nat, i: nat, left: array<nat>, coin: (nat, nat) -> nat)
      returns (row: seq<bool>)
    requires |rows| == i < n && forall j :: 0 <= j < left.Length ==> ColumnSoFar(rows, coin, n, m, i, j, left[j])
    modifies left
    ensures |row| == left.Length
    ensures forall j :: 0 <= j < left.Length ==> ColumnSoFar(rows + [row], coin, n, m, i + 1, j, left[j])
  {
    hide ColumnSoFar, Marks;
    row := [];
    ghost var left0 := left[..];
    for j := 0 to left.Length
      invariant |row| == j && forall c :: j <= c < left.Length ==> left[c] == left0[c]
      invariant forall c :: 0 <= c < j ==> row[c] == Marks(left0[c], n - i, coin(i, c))
      invariant forall c :: 0 <= c < j ==> Bit(row[c]) <= left0[c] && left[c] == left0[c] - Bit(row[c])
    {
      var mark := Marks(left[j], n - i, coin(i, j));
      NoneLeft(n - i, coin(i, j));
      row := row + [mark];
      left[j] := left[j] - (if mark then 1 else 0);
    }
    var next := i + 1;
    forall j | 0 <= j < left.Length ensures ColumnSoFar(rows + [row], coin, n, m, next, j, left[j]) {
      ColumnStep(rows, row, coin, n, m, i, j, left0[j], row[j]);
    }
  }

  // ----- the one-sample marking of the older samplers -----

  /**
   * A 32-bit coin scaled to the rows that remain is compared with the rows that may stay unmarked; the product and the
   * difference are 64-bit words, and both sides of the comparison are cut to 32 bits.
   */
  predicate ScaledMark(left: nat, total: nat, coin: nat) {
    ((total * coin) % WORD) / COINS % COINS >= ((total - left) % WORD) % COINS
  }

  /** A 64-bit word after one mark more or none. */
  function SpentWord(left: nat, mark: bool): nat {
    (left - Bit(mark)) % WORD
  }

  lemma SpentWordOf(left: nat, mark: bool)
    requires Bit(mark) <= left < WORD
    ensures SpentWord(left, mark) == left - Bit(mark)
  {
  }

  /** The marks of one sample: a word counts the marks that are left, the remaining rows shrink by one. */
  function ScaledColumn(left: nat, coins: seq<nat>): (marks: seq<bool>)
    ensures |marks| == |coins|
    decreases |coins|
  {
    if coins == [] then []
    else
      var mark := ScaledMark(left, |coins|, coins[0]);
      [mark] + ScaledColumn(SpentWord(left, mark), coins[1..])
  }

  lemma CutTwice(x: int)
    ensures (x % WORD) % COINS == x % COINS
  {
    assert x == (x / WORD) * WORD + x % WORD;
    assert (x / WORD) * WORD == ((x / WORD) * COINS) * COINS;
  }

  /** The coin times the rows that remain reaches the rows that may stay unmarked, as 32 bits hold them, times 2^32. */
  predicate Reaches(total: nat, coin: nat, open: int) {
    (total * coin) % WORD >= (open % COINS) * COINS
  }

  /** What a scaled coin decides. */
  lemma ScaledDecides(left: nat, total: nat, coin: nat)
    ensures ScaledMark(left, total, coin) <==> Reaches(total, coin, total - left)
  {
    var p, open := (total * coin) % WORD, (total - left) % COINS;
    CutTwice(total - left);
    CutWord(p, open);
  }

  lemma CutWord(p: nat, open: nat)
    requires p < WORD && open < COINS
    ensures p / COINS % COINS >= open <==> p >= open * COINS
  {
  }

  /** Below 2^32 rows nothing is cut. */
  lemma SmallScale(left: nat, total: nat, coin: nat)
    requires left <= total < COINS && coin < COINS
    ensures ScaledMark(left, total, coin) <==> total * coin >= (total - left) * COINS
  {
    hide ScaledMark;
    ScaledDecides(left, total, coin);
    if 0 < total {
      ProductBelow(total, coin);
    }
    Uncut(total * coin, total - left);
  }

  lemma Uncut(p: nat, open: nat)
    requires p < WORD && open < COINS
    ensures p % WORD == p && open % COINS == open
  {
  }

  /** Row i is marked exactly when its own coin, scaled by the rows from i on, reaches those that may stay unmarked. */
  lemma {:induction false} ScaledRow(left: nat, coins: seq<nat>, i: nat)
    requires i < |coins|
    ensures var marks, total := ScaledColumn(left, coins), |coins| - i;
            marks[i] <==> Reaches(total, coins[i], total - (left - Count(marks[..i])))
    decreases i
  {
    hide ScaledMark, SpentWord, Count, Reaches;
    var mark := ScaledMark(left, |coins|, coins[0]);
    var marks, rest := ScaledColumn(left, coins), ScaledColumn(SpentWord(left, mark), coins[1..]);
    if i == 0 {
      ScaledDecides(left, |coins|, coins[0]);
      EmptyPrefix(marks);
    } else {
      ScaledRow(SpentWord(left, mark), coins[1..], i - 1);
      assert marks == [mark] + rest;
      PrefixAfter(mark, rest, i);
      SpentRest(left, mark, |coins| - i, coins[i], Count(rest[..i - 1]));
    }
  }

  lemma SpentRest(left: nat, mark: bool, total: nat, coin: nat, count: nat)
    ensures Reaches(total, coin, total - (SpentWord(left, mark) - count))
            == Reaches(total, coin, total - (left - (Bit(mark) + count)))
  {
    hide Bit;
    var x := left - Bit(mark);
    var q := x / WORD;
    assert x == q * WORD + x % WORD;
    SameCut(total - (x - count), q, total - (x % WORD - count));
  }

  lemma SameCut(x: int, q: int, y: int)
    requires y == x + q * WORD
    ensures x % COINS == y % COINS
  {
    assert q * WORD == (q * COINS) * COINS;
    assert y == x + (q * COINS) * COINS;
  }

  /** Below 2^32 rows a scaled coin stays below the number of rows. */
  lemma ScaledCoin(total: nat, coin: nat)
    requires 0 < total < COINS && coin < COINS
    ensures ((total * coin) % WORD) / COINS % COINS < total
  {
    var p := total * coin;
    ProductBelow(total, coin);
    BelowQuotient(p, total, COINS);
    CutProduct(p);
  }

  lemma CutProduct(p: nat)
    requires p < WORD
    ensures (p % WORD) / COINS % COINS == p / COINS
  {
  }

  lemma ProductBelow(total: nat, coin: nat)
    requires 0 < total < COINS && coin < COINS
    ensures total * coin < COINS * total < WORD
  {
    Monotone(coin, COINS - 1, total);
    assert coin * total == total * coin && (COINS - 1) * total < COINS * total;
  }

  /**
   * While fewer than 2^32 rows may stay unmarked, the coin marks nothing once nothing is left to mark, and everything
   * once no row may stay unmarked.
   */
  lemma ScaledChoice(left: nat, total: nat, coin: nat)
    requires left <= total && 0 < total && total - left < COINS && coin < COINS
    ensures left == 0 ==> !ScaledMark(left, total, coin)
    ensures left == total ==> ScaledMark(left, total, coin)
  {
    UncutWord(total - left);
    if left == 0 {
      ScaledCoin(total, coin);
    }
  }

  lemma UncutWord(x: nat)
    requires x < COINS
    ensures (x % WORD) % COINS == x
  {
  }

  lemma {:induction false} ExactScaledColumn(left: nat, coins: seq<nat>)
    requires left <= |coins| < WORD && |coins| - left < COINS && AreCoins(coins)
    ensures Count(ScaledColumn(left, coins)) == left
    decreases |coins|
  {
    hide ScaledMark, SpentWord;
    if coins != [] {
      ScaledChoice(left, |coins|, coins[0]);
      var mark := ScaledMark(left, |coins|, coins[0]);
      SpentWordOf(left, mark);
      ExactScaledColumn(left - Bit(mark), coins[1..]);
    }
  }

  function ZeroCoins(n: nat): (coins: seq<nat>) {
    seq(n, _ => 0)
  }

  /** The coin zero marks a row exactly when the rows that may stay unmarked are a multiple of 2^32. */
  lemma ZeroCoin(left: nat, total: nat, open: nat)
    requires (total - open - left) % WORD == 0
    ensures ScaledMark(left, total, 0) == (open % COINS == 0)
  {
    SameRest(total - left, open);
    CutTwice(open);
  }

  lemma SameRest(x: int, y: int)
    requires (x - y) % WORD == 0
    ensures x % WORD == y % WORD
  {
  }

  lemma ZeroStep(left: nat, n: nat, open: nat)
    requires (n - open - left) % WORD == 0
    ensures open % COINS == 0 ==> (n - 1 - open - SpentWord(left, true)) % WORD == 0
    ensures open % COINS != 0 ==> 0 < open && (open - 1) % COINS == open % COINS - 1
    ensures open % COINS != 0 ==> (n - 1 - (open - 1) - SpentWord(left, false)) % WORD == 0
  {
  }

  /**
   * Zero coins leave rows unmarked only until the rows that may stay unmarked reach a multiple of 2^32; every later row
   * is marked.
   */
  lemma {:induction false} ZeroColumn(left: nat, n: nat, open: nat)
    requires (n - open - left) % WORD == 0 && open % COINS <= n
    ensures Count(ScaledColumn(left, ZeroCoins(n))) == n - open % COINS
    decreases n
  {
    hide ScaledMark, SpentWord;
    if n > 0 {
      ZeroCoin(left, n, open);
      ZeroStep(left, n, open);
      assert ZeroCoins(n)[1..] == ZeroCoins(n - 1);
      if open % COINS == 0 {
        ZeroColumn(SpentWord(left, true), n - 1, open);
      } else {
        ZeroColumn(SpentWord(left, false), n - 1, open - 1);
      }
    }
  }

  /**
   * The scaled marking is exact for every coin sequence if and only if fewer than 2^32 rows stay unmarked; otherwise
   * the 32-bit count of those rows wraps, and zero coins mark too many rows.
   */
  lemma ScaledMarkingExact(n: nat, m: nat)
    requires m <= n < WORD
    ensures n - m < COINS <==> forall coins: seq<nat> :: |coins| == n && AreCoins(coins) ==>
            Count(ScaledColumn(m, coins)) == m
  {
    if n - m < COINS {
      forall coins: seq<nat> | |coins| == n && AreCoins(coins) ensures Count(ScaledColumn(m, coins)) == m {
        ExactScaledColumn(m, coins);
      }
    } else {
      ZeroColumn(m, n, n - m);
      assert |ZeroCoins(n)| == n && AreCoins(ZeroCoins(n));
    }
  }

  /** The next row is the head of the marks that are still to come. */
  lemma ScaledNext(marks: seq<bool>, left: nat, coins: seq<nat>)
    requires coins != []
    ensures var mark := ScaledMark(left, |coins|, coins[0]);
            marks + ScaledColumn(left, coins) == (marks + [mark]) + ScaledColumn(SpentWord(left, mark), coins[1..])
  {
    hide ScaledMark, SpentWord;
  }

  /** Row i of a scaled column is decided by its own coin, the rows that remain and those that may stay unmarked. */
  ghost predicate ScaledRows(marks: seq<bool>, coins: seq<nat>, m: nat) {
    && |marks| == |coins|
    && forall i :: 0 <= i < |marks| ==>
         (marks[i] <==> Reaches(|marks| - i, coins[i], |marks| - i - (m - Count(marks[..i]))))
  }

  lemma RowsScaled(m: nat, coins: seq<nat>)
    ensures ScaledRows(ScaledColumn(m, coins), coins, m)
  {
    hide Reaches, Count, ScaledColumn;
    var marks := ScaledColumn(m, coins);
    forall i | 0 <= i < |marks|
      ensures marks[i] <==> Reaches(|marks| - i, coins[i], |marks| - i - (m - Count(marks[..i])))
    {
      ScaledRow(m, coins, i);
    }
  }

  /** markGen: each row by its own coin; exactly m marks while fewer than 2^32 rows stay unmarked. */
  method MarkGen(n: nat, request: nat, coins: seq<nat>) returns (marks: seq<bool>, m: nat)
    requires n < WORD && |coins| == n && AreCoins(coins)
    ensures m == (if request > n then n else request) && marks == ScaledColumn(m, coins)
    ensures n - m < COINS ==> Count(marks) == m
    ensures ScaledRows(marks, coins, m)
  {
    hide ScaledMark, SpentWord, ScaledColumn, Count, ScaledRows;
    m := if request > n then n else request;
    var left: nat, total := m, n;
    marks := [];
    assert coins[0..] == coins;
    assert [] + ScaledColumn(m, coins) == ScaledColumn(m, coins);
    for i := 0 to n
      invariant total == n - i && |marks| == i
      invariant ScaledColumn(m, coins) == marks + ScaledColumn(left, coins[i..])
    {
      var mark := ScaledMark(left, total, coins[i]);
      ScaledNext(marks, left, coins[i..]);
      assert coins[i..][0] == coins[i] && coins[i..][1..] == coins[i + 1..];
      marks := marks + [mark];
      left := SpentWord(left, mark);
      total := total - 1;
    }
    assert |ScaledColumn(left, coins[n..])| == 0;
    assert marks == ScaledColumn(m, coins);
    RowsScaled(m, coins);
    if n - m < COINS {
      ExactScaledColumn(m, coins);
    }
  }

  // ----- frontier nodes -----

  /** How many groups cover k samples when a group serves at most limit of them. */
  function GroupCount(k: nat, limit: nat): nat
    requires 0 < limit
  {
    k / limit + if k % limit != 0 then 1 else 0
  }

  /** Group sizes: the first k % groups are one larger. */
  function GroupSize(k: nat, groups: nat, v: nat): nat
    requires 0 < groups
  {
    k / groups + if v < k % groups then 1 else 0
  }

  /** Samples before group v. */
  function GroupStart(k: nat, groups: nat, v: nat): nat
    requires 0 < groups
  {
    v * (k / groups) + if v < k % groups then v else k % groups
  }

  lemma GroupStep(k: nat, groups: nat, v: nat)
    requires 0 < groups && v < groups
    ensures GroupStart(k, groups, v + 1) == GroupStart(k, groups, v) + GroupSize(k, groups, v)
    ensures GroupStart(k, groups, groups) == k && GroupStart(k, groups, 0) == 0
  {
    assert (v + 1) * (k / groups) == v * (k / groups) + k / groups;
    assert k == (k / groups) * groups + k % groups;
  }

  /** Groups of the counted number serve between one and limit samples each. */
  lemma GroupWithinLimit(k: nat, limit: nat, v: nat)
    requires 0 < limit && 0 < k && v < GroupCount(k, limit)
    ensures 0 < GroupCount(k, limit) <= k && 0 < GroupSize(k, GroupCount(k, limit), v) <= limit
  {
    hide GroupCount;
    CountCovers(k, limit);
    FewGroups(k, limit);
    RoundedQuotient(k, GroupCount(k, limit), limit);
  }

  lemma RoundedQuotient(k: nat, groups: nat, limit: nat)
    requires 0 < groups <= k <= groups * limit
    ensures 0 < k / groups && k / groups + (if k % groups != 0 then 1 else 0) <= limit
  {
    var q, r := k / groups, k % groups;
    assert k == q * groups + r;
    if limit < q + if r != 0 then 1 else 0 {
      Monotone(limit, q, groups);
    }
  }

  lemma CountCovers(k: nat, limit: nat)
    requires 0 < limit && 0 < k
    ensures 0 < GroupCount(k, limit) && k <= GroupCount(k, limit) * limit
    ensures (GroupCount(k, limit) - 1) * limit < k
  {
    var q, r := k / limit, k % limit;
    assert k == q * limit + r;
    assert (q + 1) * limit == q * limit + limit;
    assert q > 0 ==> (q - 1) * limit == q * limit - limit;
  }

  lemma FewGroups(k: nat, limit: nat)
    requires 0 < limit && 0 < k
    ensures GroupCount(k, limit) <= k
  {
    CountCovers(k, limit);
    var groups := GroupCount(k, limit);
    assert groups - 1 <= (groups - 1) * limit by {
      Monotone(1, limit, groups - 1);
    }
  }

  /** Fewest: no cover by groups that fit has fewer nodes. */
  lemma {:induction false} CoverSize(nodes: seq<FrontierNode>, start: nat, k: nat, limit: nat)
    requires start <= k && Covers(nodes, start, k) && forall i :: 0 <= i < |nodes| ==> nodes[i].count <= limit
    ensures k - start <= |nodes| * limit
    decreases |nodes|
  {
    if nodes != [] {
      CoversBound(nodes[1..], start + nodes[0].count, k);
      CoverSize(nodes[1..], start + nodes[0].count, k, limit);
      assert |nodes| * limit == (|nodes| - 1) * limit + limit;
    }
  }

  lemma FewestGroups(nodes: seq<FrontierNode>, n: nat, m: nat, k: nat)
    requires 0 < m <= n && Covers(nodes, 0, k) && forall i :: 0 <= i < |nodes| ==> m * nodes[i].count <= n
    ensures 0 < n / m && GroupCount(k, n / m) <= |nodes|
  {
    var limit := n / m;
    LimitFits(n, m);
    forall i | 0 <= i < |nodes| ensures nodes[i].count <= limit {
      FitsLimit(n, m, nodes[i].count);
    }
    CoverSize(nodes, 0, k, limit);
    if 0 < k {
      CountCovers(k, limit);
      Fewer(GroupCount(k, limit), |nodes|, limit, k);
    } else {
      assert k / limit == 0;
    }
  }

  lemma Fewer(a: nat, b: nat, limit: nat, k: nat)
    requires 0 < a && (a - 1) * limit < k <= b * limit
    ensures a <= b
  {
    if b < a {
      Monotone(b, a - 1, limit);
    }
  }

  lemma LimitFits(n: nat, m: nat)
    requires 0 < m <= n
    ensures 0 < n / m && m * (n / m) <= n
  {
    assert n == (n / m) * m + n % m;
  }

  lemma FitsLimit(n: nat, m: nat, count: nat)
    requires 0 < m
    ensures m * count <= n <==> count <= n / m
  {
    assert n == (n / m) * m + n % m;
    if count <= n / m {
      Monotone(count, n / m, m);
    } else {
      Monotone(n / m + 1, count, m);
    }
  }

  /** The nodes appended so far are consecutive groups. */
  ghost predicate Grouped(nodes: seq<FrontierNode>, k: nat, groups: nat)
    requires 0 < groups
  {
    |nodes| <= groups
    && forall v :: 0 <= v < |nodes| ==> nodes[v] == FrontierNode(GroupStart(k, groups, v), GroupSize(k, groups, v))
  }

  lemma {:induction false} GroupedCovers(nodes: seq<FrontierNode>, k: nat, groups: nat, v: nat)
    requires 0 < groups == |nodes| && v <= groups && Grouped(nodes, k, groups)
    requires forall u :: 0 <= u < groups ==> 0 < GroupSize(k, groups, u)
    ensures Covers(nodes[v..], GroupStart(k, groups, v), k)
    decreases groups - v
  {
    hide GroupStart, GroupSize;
    if v < groups {
      GroupStep(k, groups, v);
      GroupedCovers(nodes, k, groups, v + 1);
      assert nodes[v..][1..] == nodes[v + 1..];
    } else {
      GroupStep(k, groups, 0);
    }
  }

  /**
   * FFOS_CFrontier: the fewest consecutive groups that cover the samples and fit the rows, their sizes equal up to one.
   * Refuses no rows, no request and a request above the rows.
   */
  method FFOS_CFrontier(n: nat, m: nat, k: nat) returns (ok: bool, nodes: seq<FrontierNode>)
    ensures ok == (k == 0 || 0 < m <= n)
    ensures ok ==> Covers(nodes, 0, k) && forall i :: 0 <= i < |nodes| ==> m * nodes[i].count <= n
    ensures ok ==> forall i, j :: 0 <= i <= j < |nodes| ==> nodes[j].count <= nodes[i].count <= nodes[j].count + 1
    ensures ok ==> forall other: seq<FrontierNode> ::
              Covers(other, 0, k) && (forall i :: 0 <= i < |other| ==> m * other[i].count <= n) ==> |nodes| <= |other|
  {
    hide GroupStart, GroupCount, GroupSize, Covers;
    nodes := [];
    if k == 0 {
      NothingToCover();
      return true, nodes;
    }
    if m == 0 || m > n {
      return false, nodes;
    }
    var limit := n / m;
    LimitFits(n, m);
    var groups := GroupCount(k, limit);
    CountCovers(k, limit);
    var start := 0;
    GroupStep(k, groups, 0);
    for v := 0 to groups
      invariant |nodes| == v && Grouped(nodes, k, groups) && start == GroupStart(k, groups, v)
    {
      var count := GroupSize(k, groups, v);
      nodes := nodes + [FrontierNode(start, count)];
      GroupStep(k, groups, v);
      start := start + count;
    }
    forall v | 0 <= v < groups ensures 0 < GroupSize(k, groups, v) <= limit && m * nodes[v].count <= n {
      GroupWithinLimit(k, limit, v);
      FitsLimit(n, m, nodes[v].count);
    }
    GroupStep(k, groups, 0);
    GroupedCovers(nodes, k, groups, 0);
    assert nodes[0..] == nodes;
    NearlyEqual(nodes, k, groups);
    forall other: seq<FrontierNode> | Covers(other, 0, k) && (forall i :: 0 <= i < |other| ==> m * other[i].count <= n)
      ensures |nodes| <= |other|
    {
      FewestGroups(other, n, m, k);
    }
    return true, nodes;
  }

  lemma NothingToCover()
    ensures Covers([], 0, 0)
  {
  }

  lemma NearlyEqual(nodes: seq<FrontierNode>, k: nat, groups: nat)
    requires 0 < groups == |nodes| && Grouped(nodes, k, groups)
    ensures forall i, j :: 0 <= i <= j < |nodes| ==> nodes[j].count <= nodes[i].count <= nodes[j].count + 1
  {
  }
}
