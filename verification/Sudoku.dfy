/** The backtracking solver of examples/sudoku/sudoku_solver.cc: it finds the least completion
    of the givens, or leaves the board as it was. */
module Sudoku {
  // ----- Grids: 81 cells in reading order -----

  const SIZE := 9
  const BLANK := '.'

  function Row(p: nat): nat { p / 9 }
  function Col(p: nat): nat { p % 9 }
  function Box(p: nat): nat { p / 9 / 3 * 3 + p % 9 / 3 }

  function DigitChar(n: nat): char
    requires n < 9
  {
    ('1' as int + n) as char
  }

  predicate IsDigit(c: char) { '1' <= c <= '9' }

  predicate IsGrid(g: string) {
    |g| == 81 && forall p :: 0 <= p < 81 ==> g[p] == BLANK || IsDigit(g[p])
  }

  predicate Peers(p: nat, q: nat) {
    p != q && (Row(p) == Row(q) || Col(p) == Col(q) || Box(p) == Box(q))
  }

  /** No two of the first k cells clash. */
  predicate ConsistentTo(g: string, k: nat)
    requires k <= |g|
  {
    forall p: nat, q: nat :: p < k && q < k && Peers(p, q) && g[p] != BLANK ==> g[p] != g[q]
  }

  predicate Consistent(g: string) { ConsistentTo(g, |g|) }

  predicate Full(g: string) { |g| == 81 && forall p :: 0 <= p < 81 ==> IsDigit(g[p]) }

  /** c fills the blanks of g and breaks no rule. */
  predicate Completion(g: string, c: string)
    requires |g| == 81
  {
    Full(c) && Consistent(c) && forall p :: 0 <= p < 81 && g[p] != BLANK ==> c[p] == g[p]
  }

  ghost predicate Unsolvable(g: string)
    requires |g| == 81
  {
    forall c :: !Completion(g, c)
  }

  ghost predicate LexAtMost(a: string, b: string)
    requires |a| == |b|
  {
    a == b || exists k :: 0 <= k < |a| && a[k] < b[k] && forall j :: 0 <= j < k ==> a[j] == b[j]
  }

  ghost predicate LeastCompletion(g: string, c: string)
    requires |g| == 81
  {
    Completion(g, c) && forall d :: Completion(g, d) ==> LexAtMost(c, d)
  }

  // ----- What the flag tables mean -----

  datatype Unit = InRow | InCol | InBox

  function Index(u: Unit, p: nat): nat {
    match u
    case InRow => Row(p)
    case InCol => Col(p)
    case InBox => Box(p)
  }

  /** One of the first k cells in unit i holds the n-th digit. */
  ghost predicate Has(u: Unit, g: string, k: nat, i: nat, n: nat)
    requires k <= |g| && n < 9
  {
    exists p: nat :: p < k && Index(u, p) == i && g[p] == DigitChar(n)
  }

  ghost predicate Blocked(g: string, k: nat, p: nat, n: nat)
    requires k <= |g| && n < 9
  {
    Has(InRow, g, k, Row(p), n) || Has(InCol, g, k, Col(p), n) || Has(InBox, g, k, Box(p), n)
  }

  // ----- One cell of the search -----

  lemma FilledTo(g: string)
    requires IsGrid(g) && Consistent(g) && forall q :: 0 <= q < 81 ==> g[q] != BLANK
    ensures LeastCompletion(g, g)
  {
    forall d | Completion(g, d) ensures LexAtMost(g, d) {
      assert g == d;
    }
  }

  /** A digit that a peer already has cannot go into a blank cell. */
  lemma BlockedDigit(g: string, p: nat, n: nat, c: string)
    requires IsGrid(g) && p < 81 && g[p] == BLANK && n < 9
    requires Blocked(g, 81, p, n) && Completion(g, c)
    ensures c[p] != DigitChar(n)
  {
    var q: nat :| q < 81 && g[q] == DigitChar(n) && (Row(q) == Row(p) || Col(q) == Col(p) || Box(q) == Box(p));
    assert Peers(q, p);
  }

  lemma PlacedDigit(g: string, p: nat, n: nat)
    requires IsGrid(g) && Consistent(g) && p < 81 && g[p] == BLANK && n < 9
    requires !Blocked(g, 81, p, n)
    ensures IsGrid(g[p := DigitChar(n)]) && Consistent(g[p := DigitChar(n)])
  {
    var h := g[p := DigitChar(n)];
    forall q: nat, r: nat | q < 81 && r < 81 && Peers(q, r) && h[q] != BLANK ensures h[q] != h[r] {
      if q == p {
        assert g[r] != DigitChar(n);
      } else if r == p {
        assert g[q] != DigitChar(n);
      } else {
        assert g[q] != g[r];
      }
    }
  }

  lemma PlacedCompletion(g: string, p: nat, n: nat, c: string)
    requires IsGrid(g) && p < 81 && g[p] == BLANK && n < 9
    ensures Completion(g[p := DigitChar(n)], c) <==> Completion(g, c) && c[p] == DigitChar(n)
  {
    var h := g[p := DigitChar(n)];
    if Completion(h, c) {
      assert c[p] == h[p];
      forall q | 0 <= q < 81 && g[q] != BLANK ensures c[q] == g[q] { assert h[q] == g[q]; }
    }
    if Completion(g, c) && c[p] == DigitChar(n) {
      forall q | 0 <= q < 81 && h[q] != BLANK ensures c[q] == h[q] { }
    }
  }

  /** The least completion with digit n at p is least of all when no smaller digit fits there. */
  lemma LeastAtCell(g: string, p: nat, n: nat, c: string)
    requires IsGrid(g) && p < 81 && g[p] == BLANK && n < 9
    requires forall q :: 0 <= q < p ==> g[q] != BLANK
    requires NoneBelow(g, p, n)
    requires LeastCompletion(g[p := DigitChar(n)], c)
    ensures LeastCompletion(g, c)
  {
    PlacedCompletion(g, p, n, c);
    forall d | Completion(g, d) ensures LexAtMost(c, d) {
      if d[p] == DigitChar(n) {
        PlacedCompletion(g, p, n, d);
      } else {
        assert c[p] < d[p];
        assert forall j :: 0 <= j < p ==> c[j] == g[j] == d[j];
      }
    }
  }

  lemma PlacedFlags(u: Unit, g: string, p: nat, n: nat, i: nat, m: nat)
    requires IsGrid(g) && p < 81 && g[p] == BLANK && n < 9 && m < 9
    ensures Has(u, g[p := DigitChar(n)], 81, i, m) <==> Has(u, g, 81, i, m) || (i == Index(u, p) && m == n)
  {
    var h := g[p := DigitChar(n)];
    assert h[p] == DigitChar(n);
    if Has(u, g, 81, i, m) {
      var q: nat :| q < 81 && Index(u, q) == i && g[q] == DigitChar(m);
      assert h[q] == DigitChar(m);
    }
  }

  lemma PlacedFlagsAll(g: string, p: nat, n: nat)
    requires IsGrid(g) && p < 81 && g[p] == BLANK && n < 9
    ensures forall u: Unit, i: nat, m: nat :: m < 9 ==>
      (Has(u, g[p := DigitChar(n)], 81, i, m) <==> Has(u, g, 81, i, m) || (i == Index(u, p) && m == n))
  {
    forall u: Unit, i: nat, m: nat | m < 9
      ensures Has(u, g[p := DigitChar(n)], 81, i, m) <==> Has(u, g, 81, i, m) || (i == Index(u, p) && m == n)
    {
      PlacedFlags(u, g, p, n, i, m);
    }
  }

  lemma GrownFlags(u: Unit, g: string, k: nat, i: nat, m: nat)
    requires IsGrid(g) && k < 81 && m < 9
    ensures Has(u, g, k + 1, i, m) <==> Has(u, g, k, i, m) || (i == Index(u, k) && g[k] == DigitChar(m))
  {
  }

  lemma GrownFlagsAll(g: string, k: nat, n: nat)
    requires IsGrid(g) && k < 81 && n < 9 && g[k] == DigitChar(n)
    ensures forall u: Unit, i: nat, m: nat :: m < 9 ==>
      (Has(u, g, k + 1, i, m) <==> Has(u, g, k, i, m) || (i == Index(u, k) && m == n))
  {
    forall u: Unit, i: nat, m: nat | m < 9
      ensures Has(u, g, k + 1, i, m) <==> Has(u, g, k, i, m) || (i == Index(u, k) && m == n)
    {
      GrownFlags(u, g, k, i, m);
    }
  }

  lemma GrownConsistency(g: string, k: nat)
    requires IsGrid(g) && k < 81 && ConsistentTo(g, k)
    ensures g[k] == BLANK ==> ConsistentTo(g, k + 1)
    ensures g[k] != BLANK ==> (ConsistentTo(g, k + 1) <==> !Blocked(g, k, k, g[k] as int - '1' as int))
  {
    if g[k] != BLANK {
      var n := g[k] as int - '1' as int;
      if Blocked(g, k, k, n) {
        var q: nat :| q < k && g[q] == DigitChar(n) && (Row(q) == Row(k) || Col(q) == Col(k) || Box(q) == Box(k));
        assert Peers(q, k);
      }
    }
  }

  lemma ClashSpreads(g: string, k: nat)
    requires k <= |g| && !ConsistentTo(g, k)
    ensures !Consistent(g)
  {
  }

  /** No completion has a digit before the n-th at p. */
  ghost predicate NoneBelow(g: string, p: nat, n: nat)
    requires |g| == 81 && p < 81
  {
    forall c :: Completion(g, c) ==> c[p] as int >= '1' as int + n
  }

  lemma NoneBelowFirst(g: string, p: nat)
    requires |g| == 81 && p < 81
    ensures NoneBelow(g, p, 0)
  {
  }

  lemma NoneBelowBlocked(g: string, p: nat, n: nat)
    requires IsGrid(g) && p < 81 && g[p] == BLANK && n < 9
    requires NoneBelow(g, p, n) && Blocked(g, 81, p, n)
    ensures NoneBelow(g, p, n + 1)
  {
    forall c | Completion(g, c) ensures c[p] as int >= '1' as int + n + 1 {
      BlockedDigit(g, p, n, c);
    }
  }

  lemma NoneBelowFailed(g: string, p: nat, n: nat)
    requires IsGrid(g) && p < 81 && g[p] == BLANK && n < 9
    requires NoneBelow(g, p, n) && Unsolvable(g[p := DigitChar(n)])
    ensures NoneBelow(g, p, n + 1)
  {
    forall c | Completion(g, c) ensures c[p] as int >= '1' as int + n + 1 {
      PlacedCompletion(g, p, n, c);
    }
  }

  lemma NoneAtAll(g: string, p: nat)
    requires |g| == 81 && p < 81 && NoneBelow(g, p, 9)
    ensures Unsolvable(g)
  {
  }

  lemma ClashKept(g: string, c: string)
    requires |g| == 81 && !Consistent(g)
    requires |c| == 81 && forall p :: 0 <= p < 81 && g[p] != BLANK ==> c[p] == g[p]
    ensures !Consistent(c)
  {
    var p: nat, q: nat :| p < 81 && q < 81 && Peers(p, q) && g[p] != BLANK && g[p] == g[q];
    assert c[p] == c[q];
  }

  lemma NoCompletionOfClash(g: string)
    requires |g| == 81 && !Consistent(g)
    ensures Unsolvable(g)
  {
    if c :| Completion(g, c) { ClashKept(g, c); }
  }

  // ----- The solver -----

  /** The table of one kind of unit says exactly which digits the first k cells of g hold. */
  ghost predicate TableFor(t: array2<bool>, u: Unit, g: string, k: nat)
    requires t.Length0 == t.Length1 == 9 && k <= |g|
    reads t
  {
    forall i: nat, n: nat :: i < 9 && n < 9 ==> (t[i, n] <==> Has(u, g, k, i, n))
  }

  /** Sets one flag, by which the table goes from (g, k) to (g', k'). */
  method SetFlag(t: array2<bool>, i: nat, n: nat, b: bool, ghost u: Unit,
                 ghost g: string, ghost k: nat, ghost g': string, ghost k': nat)
    requires t.Length0 == t.Length1 == 9 && k <= |g| && k' <= |g'| && i < 9 && n < 9
    requires TableFor(t, u, g, k)
    requires forall j: nat, m: nat :: m < 9 ==>
      (Has(u, g', k', j, m) <==> if j == i && m == n then b else Has(u, g, k, j, m))
    modifies t
    ensures TableFor(t, u, g', k')
  {
    t[i, n] := b;
  }

  class SudokuSolver {
    const rows: array2<bool>
    const cols: array2<bool>
    const subboard: array2<bool>
    const board: array2<char>

    ghost predicate Shaped() {
      rows.Length0 == rows.Length1 == 9 && cols.Length0 == cols.Length1 == 9 &&
      subboard.Length0 == subboard.Length1 == 9 && board.Length0 == board.Length1 == 9 &&
      rows != cols && rows != subboard && cols != subboard
    }

    ghost function Cells(): (g: string)
      requires Shaped()
      reads board
      ensures |g| == 81
    {
      seq(81, p requires 0 <= p < 81 reads board => board[p / 9, p % 9])
    }

    /** The tables say exactly which digits the first k cells of g hold. */
    ghost predicate FlagsFor(g: string, k: nat)
      requires Shaped() && k <= |g|
      reads rows, cols, subboard
    {
      TableFor(rows, InRow, g, k) && TableFor(cols, InCol, g, k) && TableFor(subboard, InBox, g, k)
    }

    predicate Flagged(row: nat, col: nat, m: nat, n: nat)
      requires Shaped() && row < 9 && col < 9 && m < 9 && n < 9
      reads rows, cols, subboard
    {
      rows[row, n] || cols[col, n] || subboard[m, n]
    }

    lemma FlaggedMeansBlocked(g: string, k: nat, p: nat, n: nat)
      requires Shaped() && k <= |g| && p < 81 && n < 9 && FlagsFor(g, k)
      ensures Flagged(Row(p), Col(p), Box(p), n) <==> Blocked(g, k, p, n)
    {
    }

    constructor (s: string)
      requires |s| == 81 && forall c :: c in s ==> c == ' ' || c == BLANK || IsDigit(c)
      ensures Shaped() && fresh(rows) && fresh(cols) && fresh(subboard) && fresh(board)
      ensures forall p :: 0 <= p < 81 ==> Cells()[p] == if s[p] == ' ' then BLANK else s[p]
      ensures IsGrid(Cells()) && FlagsFor(Cells(), 0)
    {
      rows := new bool[9, 9]((_, _) => false);
      cols := new bool[9, 9]((_, _) => false);
      subboard := new bool[9, 9]((_, _) => false);
      board := new char[9, 9];
      new;
      for i := 0 to |s|
        invariant forall p :: 0 <= p < i ==> board[p / 9, p % 9] == if s[p] == ' ' then BLANK else s[p]
        invariant forall j, n :: 0 <= j < 9 && 0 <= n < 9 ==> !rows[j, n] && !cols[j, n] && !subboard[j, n]
      {
        board[i / 9, i % 9] := if s[i] != ' ' then s[i] else BLANK;
      }
    }

    method SetCell(row: nat, col: nat, c: char)
      requires Shaped() && row < 9 && col < 9
      modifies board
      ensures Cells() == old(Cells())[9 * row + col := c]
    {
      board[row, col] := c;
    }

    lemma FlagsStep(g: string, k: nat)
      requires Shaped() && IsGrid(g) && k < 81 && FlagsFor(g, k) && g[k] == BLANK
      ensures FlagsFor(g, k + 1)
    {
      forall u: Unit, r: nat, n: nat | r < 9 && n < 9 ensures Has(u, g, k + 1, r, n) <==> Has(u, g, k, r, n) {
        GrownFlags(u, g, k, r, n);
      }
    }

    twostate predicate FlagsRestored()
      requires Shaped()
      reads rows, cols, subboard
    {
      forall i, n :: 0 <= i < 9 && 0 <= n < 9 ==>
        rows[i, n] == old(rows[i, n]) && cols[i, n] == old(cols[i, n]) && subboard[i, n] == old(subboard[i, n])
    }

    twostate lemma SameFlags(g: string)
      requires Shaped() && |g| == 81 && old(FlagsFor(g, 81)) && FlagsFor(g, 81)
      ensures FlagsRestored()
    {
    }

    /** Marks the n-th digit as the one in cell k of g. */
    method Mark(row: nat, col: nat, m: nat, n: nat, ghost g: string, ghost k: nat)
      requires Shaped() && IsGrid(g) && row < 9 && col < 9 && n < 9 && k == 9 * row + col && m == Box(k)
      requires FlagsFor(g, k) && g[k] == DigitChar(n)
      modifies rows, cols, subboard
      ensures FlagsFor(g, k + 1)
    {
      hide TableFor;
      GrownFlagsAll(g, k, n);
      SetFlag(rows, row, n, true, InRow, g, k, g, k + 1);
      SetFlag(cols, col, n, true, InCol, g, k, g, k + 1);
      SetFlag(subboard, m, n, true, InBox, g, k, g, k + 1);
    }

    /** Enters the given at (i, j) into the tables unless one of them has it already. */
    method Enter(i: nat, j: nat) returns (ok: bool)
      requires Shaped() && IsGrid(Cells()) && i < 9 && j < 9
      requires FlagsFor(Cells(), 9 * i + j) && ConsistentTo(Cells(), 9 * i + j)
      modifies rows, cols, subboard
      ensures ok ==> FlagsFor(Cells(), 9 * i + j + 1) && ConsistentTo(Cells(), 9 * i + j + 1)
      ensures !ok ==> !Consistent(Cells())
    {
      hide FlagsFor, Blocked;
      ghost var g, k := Cells(), 9 * i + j;
      GrownConsistency(g, k);
      assert g[k] == board[i, j];
      if board[i, j] == BLANK {
        FlagsStep(g, k);
        return true;
      }
      var n := board[i, j] as int - '1' as int;
      var m := i / 3 * 3 + j / 3;
      assert Row(k) == i && Col(k) == j && Box(k) == m;
      FlaggedMeansBlocked(g, k, k, n);
      if Flagged(i, j, m, n) {
        ClashSpreads(g, k + 1);
        return false;
      }
      Mark(i, j, m, n, g, k);
      return true;
    }

    method InitSudoku() returns (ok: bool)
      requires Shaped() && IsGrid(Cells()) && FlagsFor(Cells(), 0)
      modifies rows, cols, subboard
      ensures ok <==> Consistent(Cells())
      ensures ok ==> FlagsFor(Cells(), 81)
    {
      hide FlagsFor;
      for i := 0 to SIZE
        invariant FlagsFor(Cells(), 9 * i) && ConsistentTo(Cells(), 9 * i)
      {
        for j := 0 to SIZE
          invariant FlagsFor(Cells(), 9 * i + j) && ConsistentTo(Cells(), 9 * i + j)
        {
          ok := Enter(i, j);
          if !ok { return; }
        }
      }
      ok := true;
    }

    method Place(row: nat, col: nat, m: nat, n: nat, ghost g: string, ghost p: nat)
      requires Shaped() && row < 9 && col < 9 && n < 9 && p == 9 * row + col && m == Box(p)
      requires Cells() == g && IsGrid(g) && FlagsFor(g, 81) && g[p] == BLANK
      modifies rows, cols, subboard, board
      ensures Cells() == g[p := DigitChar(n)] && FlagsFor(g[p := DigitChar(n)], 81)
    {
      hide TableFor;
      PlacedFlagsAll(g, p, n);
      ghost var h := g[p := DigitChar(n)];
      assert Row(p) == row && Col(p) == col;
      assert Index(InRow, p) == row && Index(InCol, p) == col && Index(InBox, p) == m;
      SetFlag(rows, row, n, true, InRow, g, 81, h, 81);
      SetFlag(cols, col, n, true, InCol, g, 81, h, 81);
      SetFlag(subboard, m, n, true, InBox, g, 81, h, 81);
      SetCell(row, col, DigitChar(n));
    }

    method Erase(row: nat, col: nat, m: nat, n: nat, ghost g: string, ghost p: nat)
      requires Shaped() && row < 9 && col < 9 && n < 9 && p == 9 * row + col && m == Box(p)
      requires IsGrid(g) && g[p] == BLANK && !Blocked(g, 81, p, n)
      requires Cells() == g[p := DigitChar(n)] && FlagsFor(g[p := DigitChar(n)], 81)
      modifies rows, cols, subboard, board
      ensures Cells() == g && FlagsFor(g, 81)
    {
      hide TableFor;
      PlacedFlagsAll(g, p, n);
      ghost var h := g[p := DigitChar(n)];
      assert Row(p) == row && Col(p) == col;
      assert !Has(InRow, g, 81, row, n) && !Has(InCol, g, 81, col, n) && !Has(InBox, g, 81, m, n);
      SetFlag(rows, row, n, false, InRow, h, 81, g, 81);
      SetFlag(cols, col, n, false, InCol, h, 81, g, 81);
      SetFlag(subboard, m, n, false, InBox, h, 81, g, 81);
      SetCell(row, col, BLANK);
      assert h[p := BLANK] == g;
    }

    method SolveFrom(row: nat, col: nat) returns (ok: bool)
      requires Shaped() && IsGrid(Cells()) && Consistent(Cells()) && FlagsFor(Cells(), 81)
      requires row <= 9 && col <= 9 && (row == 9 ==> col == 0)
      requires forall q :: 0 <= q < 9 * row + col ==> Cells()[q] != BLANK
      modifies rows, cols, subboard, board
      ensures IsGrid(Cells()) && FlagsFor(Cells(), 81)
      ensures ok ==> LeastCompletion(old(Cells()), Cells())
      ensures !ok ==> Cells() == old(Cells()) && FlagsRestored() && Unsolvable(old(Cells()))
      decreases 9 - row, 9 - col
    {
      hide FlagsFor, FlagsRestored, Blocked, Completion, LeastCompletion, LexAtMost, Consistent;
      ghost var g := Cells();
      if row >= SIZE {
        FilledTo(g);
        return true;
      }
      if col >= SIZE {
        ok := SolveFrom(row + 1, 0);
        return;
      }
      ghost var p := 9 * row + col;
      assert g[p] == board[row, col];
      if board[row, col] != BLANK {
        ok := SolveFrom(row, col + 1);
        return;
      }
      var m := row / 3 * 3 + col / 3;
      assert Row(p) == row && Col(p) == col && Box(p) == m;
      NoneBelowFirst(g, p);
      for i := 0 to SIZE
        invariant Cells() == g && FlagsFor(g, 81)
        invariant NoneBelow(g, p, i)
      {
        FlaggedMeansBlocked(g, 81, p, i);
        if Flagged(row, col, m, i) {
          NoneBelowBlocked(g, p, i);
          continue;
        }
        PlacedDigit(g, p, i);
        Place(row, col, m, i, g, p);
        ok := SolveFrom(row, col + 1);
        if ok {
          LeastAtCell(g, p, i, Cells());
          return;
        }
        Erase(row, col, m, i, g, p);
        NoneBelowFailed(g, p, i);
      }
      NoneAtAll(g, p);
      SameFlags(g);
      ok := false;
    }

    /** The answer: the least completion, or why there is none. */
    method Solve() returns (res: string)
      requires Shaped() && IsGrid(Cells()) && FlagsFor(Cells(), 0)
      modifies rows, cols, subboard, board
      ensures res == "" <==> !Consistent(old(Cells()))
      ensures res == "invalid sudoku!" <==> Consistent(old(Cells())) && Unsolvable(old(Cells()))
      ensures !Unsolvable(old(Cells())) ==> LeastCompletion(old(Cells()), res)
    {
      hide FlagsFor, Consistent, LexAtMost;
      ghost var g := Cells();
      res := "";
      var ok := InitSudoku();
      if ok {
        ok := SolveFrom(0, 0);
        if ok {
          res := seq(SIZE * SIZE, _ => BLANK);
          for i := 0 to SIZE
            invariant IsGrid(Cells()) && |res| == 81 && res[..9 * i] == Cells()[..9 * i]
          {
            for j := 0 to SIZE
              invariant |res| == 81 && res[..9 * i + j] == Cells()[..9 * i + j]
            {
              assert Cells()[9 * i + j] == board[i, j];
              res := res[i * SIZE + j := board[i, j]];
            }
          }
          assert res == Cells();
        } else {
          res := "invalid sudoku!";
        }
      } else {
        NoCompletionOfClash(g);
      }
    }
  }
}
