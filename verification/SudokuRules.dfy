/** The rules of the game that examples/sudoku/sudoku_solver.cc plays, in terms of the cells of
    each row, column and 3x3 block. */
module SudokuRules {
  import opened Sudoku

  /** The k-th cell of the r-th row, column or block; blocks too are in reading order. */
  function CellOf(u: Unit, r: nat, k: nat): (p: nat)
    requires r < 9 && k < 9
    ensures p < 81
  {
    match u
    case InRow => 9 * r + k
    case InCol => 9 * k + r
    case InBox => 9 * (3 * (r / 3) + k / 3) + (3 * (r % 3) + k % 3)
  }

  function Place(u: Unit, p: nat): (k: nat)
    requires p < 81
    ensures k < 9
  {
    match u
    case InRow => p % 9
    case InCol => p / 9
    case InBox => p / 9 % 3 * 3 + p % 9 % 3
  }

  lemma Nines(x: nat, y: nat)
    requires y < 9
    ensures (9 * x + y) / 9 == x && (9 * x + y) % 9 == y
  {
  }

  lemma Threes(x: nat, y: nat)
    requires y < 3
    ensures (3 * x + y) / 3 == x && (3 * x + y) % 3 == y && (x < 3 ==> 3 * x + y < 9)
  {
  }

  lemma CellFound(u: Unit, r: nat, k: nat)
    requires r < 9 && k < 9
    ensures Index(u, CellOf(u, r, k)) == r && Place(u, CellOf(u, r, k)) == k
  {
    match u {
      case InRow => Nines(r, k);
      case InCol => Nines(k, r);
      case InBox =>
        Threes(r / 3, k / 3);
        Threes(r % 3, k % 3);
        Nines(3 * (r / 3) + k / 3, 3 * (r % 3) + k % 3);
        assert 3 * (r / 3) + r % 3 == r && 3 * (k / 3) + k % 3 == k;
    }
  }

  lemma CellNamed(u: Unit, p: nat)
    requires p < 81
    ensures Index(u, p) < 9 && CellOf(u, Index(u, p), Place(u, p)) == p
  {
    var x, y := p / 9, p % 9;
    assert 9 * x + y == p && x < 9;
    if u == InBox {
      Threes(x / 3, y / 3);
      Threes(x % 3, y % 3);
      assert 3 * (x / 3) + x % 3 == x && 3 * (y / 3) + y % 3 == y;
    }
  }

  ghost predicate HasDigit(c: string, u: Unit, r: nat, n: nat)
    requires |c| == 81 && r < 9 && n < 9
  {
    exists k: nat :: k < 9 && c[CellOf(u, r, k)] == DigitChar(n)
  }

  /** Every digit once among the nine cells. */
  ghost predicate Complete(c: string, u: Unit, r: nat)
    requires |c| == 81 && r < 9
  {
    (forall n: nat :: n < 9 ==> HasDigit(c, u, r, n)) &&
    (forall k: nat, l: nat :: k < l < 9 ==> c[CellOf(u, r, k)] != c[CellOf(u, r, l)])
  }

  lemma SharedUnit(p: nat, q: nat)
    requires p < 81 && q < 81 && p != q
    ensures Peers(p, q) <==> exists u: Unit :: Index(u, p) == Index(u, q)
  {
    assert Index(InRow, p) == Row(p) && Index(InCol, p) == Col(p) && Index(InBox, p) == Box(p);
    assert Index(InRow, q) == Row(q) && Index(InCol, q) == Col(q) && Index(InBox, q) == Box(q);
  }

  /** A full grid breaks no rule if and only if every row, every column and every block has every
      digit exactly once. */
  lemma RulesAreTheUnits(c: string)
    requires Full(c)
    ensures Consistent(c) <==> forall u: Unit, r: nat :: r < 9 ==> Complete(c, u, r)
  {
    if Consistent(c) {
      forall u: Unit, r: nat | r < 9 ensures Complete(c, u, r) { UnitComplete(c, u, r); }
    }
    if forall u: Unit, r: nat :: r < 9 ==> Complete(c, u, r) {
      forall p: nat, q: nat | p < 81 && q < 81 && Peers(p, q) ensures c[p] != c[q] {
        SharedUnit(p, q);
        var u: Unit :| Index(u, p) == Index(u, q);
        CellNamed(u, p);
        CellNamed(u, q);
        assert Complete(c, u, Index(u, p));
        hide Complete, Index, Place, CellOf;
        Differ(c, u, Index(u, p), Place(u, p), Place(u, q));
      }
    }
  }

  lemma Differ(c: string, u: Unit, r: nat, k: nat, l: nat)
    requires |c| == 81 && r < 9 && k < 9 && l < 9 && Complete(c, u, r) && k != l
    ensures c[CellOf(u, r, k)] != c[CellOf(u, r, l)]
  {
  }

  lemma UnitComplete(c: string, u: Unit, r: nat)
    requires Full(c) && Consistent(c) && r < 9
    ensures Complete(c, u, r)
  {
    forall k: nat, l: nat | k < l < 9 ensures c[CellOf(u, r, k)] != c[CellOf(u, r, l)] {
      CellFound(u, r, k);
      CellFound(u, r, l);
      SharedUnit(CellOf(u, r, k), CellOf(u, r, l));
    }
    forall n: nat | n < 9 ensures HasDigit(c, u, r, n) {
      var k := DigitFound(c, u, r, n);
    }
  }

  lemma DigitFound(c: string, u: Unit, r: nat, n: nat) returns (k: nat)
    requires Full(c) && r < 9 && n < 9
    requires forall k: nat, l: nat :: k < l < 9 ==> c[CellOf(u, r, k)] != c[CellOf(u, r, l)]
    ensures k < 9 && c[CellOf(u, r, k)] == DigitChar(n)
  {
    assert forall k: nat :: k < 9 ==> IsDigit(c[CellOf(u, r, k)]);
    hide CellOf;
    var digits := seq(9, (k: nat) requires k < 9 => c[CellOf(u, r, k)] as int - '1' as int);
    k := Pigeonhole(digits, n);
  }

  lemma Pigeonhole(s: seq<int>, n: nat) returns (k: nat)
    requires n < |s| && (forall i :: 0 <= i < |s| ==> 0 <= s[i] < |s|)
    requires forall i, j :: 0 <= i < j < |s| ==> s[i] != s[j]
    ensures k < |s| && s[k] == n
  {
    var used := set x | x in s;
    var all := Below(|s|);
    DistinctSize(s);
    BelowSize(|s|);
    assert used <= all;
    SameSize(used, all);
    assert n in all && n in used;
    k :| k < |s| && s[k] == n;
  }

  lemma SameSize(a: set<int>, b: set<int>)
    requires a <= b && |a| == |b|
    ensures a == b
  {
    assert b == a + (b - a);
  }

  lemma {:induction false} DistinctSize(s: seq<int>)
    requires forall i, j :: 0 <= i < j < |s| ==> s[i] != s[j]
    ensures |(set x | x in s)| == |s|
    decreases |s|
  {
    if s != [] {
      var n := |s| - 1;
      DistinctSize(s[..n]);
      assert (set x | x in s) == (set x | x in s[..n]) + {s[n]};
    }
  }

  function Below(n: nat): set<int> { if n == 0 then {} else Below(n - 1) + {n - 1} }

  lemma {:induction false} BelowSize(n: nat)
    ensures |Below(n)| == n && forall x :: x in Below(n) <==> 0 <= x < n
    decreases n
  {
    if n > 0 { BelowSize(n - 1); }
  }
}
