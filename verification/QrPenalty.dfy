/** The mask penalty (section 7.8.3 of ISO/IEC 18004:2015), from apps/web/src/lib/qr.ts. */
module QrPenalty {
  import opened QrPlacement

  // ----- runs

  /** How long the first maximal run of equal modules is. */
  function FirstRun(line: seq<bool>): (n: nat)
    ensures line != [] ==> 0 < n <= |line|
    ensures n <= |line| && forall k :: 0 <= k < n ==> line[k] == line[0]
    ensures n < |line| ==> line[n] != line[0]
  {
    if |line| <= 1 then |line|
    else if line[1] == line[0] then 1 + FirstRun(line[1..])
    else 1
  }

  function RunCost(length: nat): nat {
    if length >= 5 then length - 2 else 0
  }

  /** L - 2 for every maximal run of length L >= 5. */
  function RunPenalty(line: seq<bool>): nat {
    if line == [] then 0
    else RunCost(FirstRun(line)) + RunPenalty(line[FirstRun(line)..])
  }

  /** The length of the run that the line ends with. */
  function LastRun(line: seq<bool>): nat {
    if |line| <= 1 then |line|
    else if line[|line| - 1] == line[|line| - 2] then LastRun(line[..|line| - 1]) + 1
    else 1
  }

  /** What the running counter adds when it reaches `length`. */
  function CounterCost(length: nat): nat {
    if length == 5 then 3 else if length > 5 then 1 else 0
  }

  lemma {:induction false} OneRun(line: seq<bool>)
    requires line != [] && forall k :: 0 <= k < |line| ==> line[k] == line[0]
    ensures FirstRun(line) == LastRun(line) == |line|
  {
    if |line| > 1 {
      OneRun(line[1..]);
      OneRun(line[..|line| - 1]);
    }
  }

  /** A run that starts inside the line does not see what comes before it. */
  lemma {:induction false} LastRunOfRest(line: seq<bool>, start: nat)
    requires 0 < start < |line| && line[start] != line[start - 1]
    ensures LastRun(line) == LastRun(line[start..])
    decreases |line|
  {
    var n := |line| - 1;
    if start < n {
      LastRunOfRest(line[..n], start);
      assert line[..n][start..] == line[start..][..n - start];
    }
  }

  lemma FirstRunIs(line: seq<bool>, n: nat)
    requires 0 < n <= |line| && forall k :: 0 <= k < n ==> line[k] == line[0]
    requires n < |line| ==> line[n] != line[0]
    ensures FirstRun(line) == n
  {
  }

  lemma PenaltyStep(line: seq<bool>, n: nat)
    requires line != [] && n == FirstRun(line)
    ensures RunPenalty(line) == RunCost(n) + RunPenalty(line[n..])
  {
  }

  /** A module that ends a line of one run makes the run longer or starts a new one. */
  lemma OneRunGrows(line: seq<bool>, next: bool)
    requires line != [] && FirstRun(line) == |line|
    ensures RunPenalty(line + [next]) == RunPenalty(line) + CounterCost(LastRun(line + [next]))
  {
    hide RunPenalty, FirstRun, LastRun;
    var longer, n := line + [next], |line|;
    OneRun(line);
    PenaltyStep(line, n);
    assert line[n..] == [];
    NoPenalty();
    if next == line[0] {
      OneRun(longer);
      PenaltyStep(longer, n + 1);
      assert longer[n + 1..] == [];
    } else {
      FirstRunIs(longer, n);
      PenaltyStep(longer, n);
      assert longer[n..] == [next];
      NewRun(line, next);
    }
  }

  lemma NoPenalty()
    ensures RunPenalty([]) == 0 && forall next: bool :: RunPenalty([next]) == 0
  {
    forall next: bool ensures RunPenalty([next]) == 0 {
      OneRun([next]);
      assert [next][1..] == [];
    }
  }

  lemma NewRun(line: seq<bool>, next: bool)
    requires line != [] && next != line[|line| - 1]
    ensures LastRun(line + [next]) == 1
  {
  }

  /** One more module adds what the running counter adds. */
  lemma {:induction false} RunPenaltyGrows(line: seq<bool>, next: bool)
    ensures RunPenalty(line + [next]) == RunPenalty(line) + CounterCost(LastRun(line + [next]))
    decreases |line|
  {
    if line == [] {
      NoPenalty();
      assert line + [next] == [next];
    } else {
      hide RunPenalty, LastRun;
      var longer, n := line + [next], FirstRun(line);
      if n < |line| {
        PenaltyStep(line, n);
        FirstRunIs(longer, n);
        PenaltyStep(longer, n);
        RunPenaltyGrows(line[n..], next);
        assert longer[n..] == line[n..] + [next];
        LastRunOfRest(longer, n);
      } else {
        OneRunGrows(line, next);
      }
    }
  }

  /** A line of one colour costs its length less two, once it has five modules. */
  lemma OneColourPenalty(line: seq<bool>)
    requires forall k :: 0 <= k < |line| ==> line[k] == line[0]
    ensures RunPenalty(line) == if |line| >= 5 then |line| - 2 else 0
  {
    if line != [] {
      OneRun(line);
      assert line[|line|..] == [];
    }
  }

  /** Lines that meet in different colours add up. */
  lemma {:induction false} PenaltiesAddUp(a: seq<bool>, b: seq<bool>)
    requires a != [] && b != [] && a[|a| - 1] != b[0]
    ensures RunPenalty(a + b) == RunPenalty(a) + RunPenalty(b)
    decreases |a|
  {
    hide RunPenalty, RunCost, FirstRun;
    var n := FirstRun(a);
    PenaltyStep(a, n);
    FirstRunIs(a + b, n);
    PenaltyStep(a + b, n);
    assert (a + b)[n..] == a[n..] + b;
    if n < |a| {
      PenaltiesAddUp(a[n..], b);
    } else {
      NoPenalty();
      assert a[n..] == [] && a[n..] + b == b;
    }
  }

  // ----- the whole penalty

  function Column(grid: Grid, i: nat): (line: seq<bool>)
    requires IsGrid(grid, |grid|) && i < |grid|
    ensures |line| == |grid| && forall r :: 0 <= r < |grid| ==> line[r] == grid[r][i]
  {
    seq(|grid|, r requires 0 <= r < |grid| => grid[r][i])
  }

  /** Run penalties of the first `n` rows and columns. */
  function RunTotal(grid: Grid, n: nat): nat
    requires IsGrid(grid, |grid|) && n <= |grid|
  {
    if n == 0 then 0
    else RunTotal(grid, n - 1) + RunPenalty(grid[n - 1]) + RunPenalty(Column(grid, n - 1))
  }

  /** The top left corners of the 2 x 2 blocks of one colour before (row, column) in reading order. */
  ghost function Blocks(grid: Grid, row: int, column: int): set<(int, int)>
    requires IsGrid(grid, |grid|)
  {
    set r, c | 0 <= r < |grid| - 1 && 0 <= c < |grid| - 1 && (r < row || (r == row && c < column))
      && IsBlock(grid, r, c) :: (r, c)
  }

  predicate IsBlock(grid: Grid, r: nat, c: nat)
    requires IsGrid(grid, |grid|) && r + 1 < |grid| && c + 1 < |grid|
  {
    grid[r][c] == grid[r][c + 1] && grid[r][c] == grid[r + 1][c] && grid[r][c] == grid[r + 1][c + 1]
  }

  const PATTERN := [true, false, true, true, true, false, true]
  const LIGHT := [false, false, false, false]

  predicate Matches(line: seq<bool>, start: nat, expected: seq<bool>) {
    start + |expected| <= |line| && line[start..start + |expected|] == expected
  }

  /** Dark-light proportions of a finder with four light modules before or after. */
  predicate LooksLikeFinder(line: seq<bool>, start: nat) {
    Matches(line, start, PATTERN)
    && ((start >= 4 && Matches(line, start - 4, LIGHT)) || Matches(line, start + 7, LIGHT))
  }

  /** Module by module: one dark, one light, three dark, one light and one dark, beside four light ones. */
  lemma LookalikeShape(line: seq<bool>, s: nat)
    ensures LooksLikeFinder(line, s) <==>
      && s + 7 <= |line|
      && line[s] && !line[s + 1] && line[s + 2] && line[s + 3] && line[s + 4] && !line[s + 5] && line[s + 6]
      && ((s >= 4 && !line[s - 4] && !line[s - 3] && !line[s - 2] && !line[s - 1])
          || (s + 11 <= |line| && !line[s + 7] && !line[s + 8] && !line[s + 9] && !line[s + 10]))
  {
    if s + 7 <= |line| {
      assert line[s..s + 7] == [line[s], line[s + 1], line[s + 2], line[s + 3], line[s + 4], line[s + 5], line[s + 6]];
      if s >= 4 {
        assert line[s - 4..s] == [line[s - 4], line[s - 3], line[s - 2], line[s - 1]];
      }
      if s + 11 <= |line| {
        assert line[s + 7..s + 11] == [line[s + 7], line[s + 8], line[s + 9], line[s + 10]];
      }
    }
  }

  ghost function Lookalikes(line: seq<bool>, n: nat): set<int> {
    set s | 0 <= s < n && LooksLikeFinder(line, s)
  }

  /** The finder lookalikes in the first `n` rows and columns. */
  ghost function LookalikeCount(grid: Grid, n: nat): nat
    requires IsGrid(grid, |grid|) && n <= |grid|
  {
    if n == 0 then 0
    else
      LookalikeCount(grid, n - 1) + |Lookalikes(grid[n - 1], |grid|)| + |Lookalikes(Column(grid, n - 1), |grid|)|
  }

  function DarkIn(line: seq<bool>): nat {
    if line == [] then 0 else DarkIn(line[..|line| - 1]) + if line[|line| - 1] then 1 else 0
  }

  function DarkTotal(grid: Grid): nat {
    if grid == [] then 0 else DarkTotal(grid[..|grid| - 1]) + DarkIn(grid[|grid| - 1])
  }

  /** 10 for every full 5 percent by which the dark share differs from one half. */
  function BalancePenalty(dark: nat, size: nat): int
    requires size > 0
  {
    var ratio := (dark * 100) as real / (size * size) as real;
    var off := if ratio < 50.0 then 50.0 - ratio else ratio - 50.0;
    (off / 5.0).Floor * 10
  }

  ghost function Penalty(grid: Grid): int
    requires |grid| > 0 && IsGrid(grid, |grid|)
  {
    RunTotal(grid, |grid|) + 3 * |Blocks(grid, |grid| - 1, 0)| + 40 * LookalikeCount(grid, |grid|)
    + BalancePenalty(DarkTotal(grid), |grid|)
  }

  // ----- the source's scan

  /** One row and one column at once, with two running counters. */
  method ScanLines(across: seq<bool>, down: seq<bool>) returns (added: nat)
    requires |across| == |down| > 0
    ensures added == RunPenalty(across) + RunPenalty(down)
  {
    added := 0;
    var horizontal, vertical := 1, 1;
    RunPenaltyGrows([], across[0]);
    RunPenaltyGrows([], down[0]);
    assert across[..1] == [] + [across[0]] && down[..1] == [] + [down[0]];
    for index := 1 to |across|
      invariant horizontal == LastRun(across[..index]) && vertical == LastRun(down[..index])
      invariant added == RunPenalty(across[..index]) + RunPenalty(down[..index])
    {
      ScanStep(across, index);
      ScanStep(down, index);
      horizontal := if across[index] == across[index - 1] then horizontal + 1 else 1;
      if horizontal == 5 {
        added := added + 3;
      } else if horizontal > 5 {
        added := added + 1;
      }
      vertical := if down[index] == down[index - 1] then vertical + 1 else 1;
      if vertical == 5 {
        added := added + 3;
      } else if vertical > 5 {
        added := added + 1;
      }
    }
    assert across[..|across|] == across && down[..|down|] == down;
  }

  lemma ScanStep(line: seq<bool>, index: nat)
    requires 0 < index < |line|
    ensures LastRun(line[..index + 1]) == if line[index] == line[index - 1] then LastRun(line[..index]) + 1 else 1
    ensures RunPenalty(line[..index + 1]) == RunPenalty(line[..index]) + CounterCost(LastRun(line[..index + 1]))
  {
    assert line[..index + 1] == line[..index] + [line[index]];
    assert line[..index + 1][..index] == line[..index];
    RunPenaltyGrows(line[..index], line[index]);
  }

  method CountBlocks(grid: Grid) returns (count: nat)
    requires |grid| > 0 && IsGrid(grid, |grid|)
    ensures count == |Blocks(grid, |grid| - 1, 0)|
  {
    var size := |grid|;
    count := 0;
    assert Blocks(grid, 0, 0) == {};
    for row := 0 to size - 1
      invariant count == |Blocks(grid, row, 0)|
    {
      for column := 0 to size - 1
        invariant count == |Blocks(grid, row, column)|
      {
        BlocksStep(grid, row, column);
        if IsBlock(grid, row, column) {
          count := count + 1;
        }
      }
      assert Blocks(grid, row, size - 1) == Blocks(grid, row + 1, 0);
    }
  }

  lemma BlocksStep(grid: Grid, row: nat, column: nat)
    requires IsGrid(grid, |grid|) && row + 1 < |grid| && column + 1 < |grid|
    ensures |Blocks(grid, row, column + 1)| == |Blocks(grid, row, column)| + if IsBlock(grid, row, column) then 1 else 0
  {
    var before, after := Blocks(grid, row, column), Blocks(grid, row, column + 1);
    if IsBlock(grid, row, column) {
      assert after == before + {(row, column)};
      assert (row, column) !in before;
    } else {
      assert after == before;
    }
  }

  method CountLookalikes(line: seq<bool>) returns (count: nat)
    ensures count == |Lookalikes(line, |line|)|
  {
    count := 0;
    var start := 0;
    assert Lookalikes(line, 0) == {};
    while start + 7 <= |line|
      invariant 0 <= start <= |line| && count == |Lookalikes(line, start)|
    {
      LookalikesStep(line, start);
      if Matches(line, start, PATTERN) {
        var before := start >= 4 && Matches(line, start - 4, LIGHT);
        var after := start + 11 <= |line| && Matches(line, start + 7, LIGHT);
        if before || after {
          count := count + 1;
        }
      }
      start := start + 1;
    }
    assert Lookalikes(line, |line|) == Lookalikes(line, start);
  }

  lemma LookalikesStep(line: seq<bool>, start: nat)
    ensures |Lookalikes(line, start + 1)| == |Lookalikes(line, start)| + if LooksLikeFinder(line, start) then 1 else 0
  {
    if LooksLikeFinder(line, start) {
      assert Lookalikes(line, start + 1) == Lookalikes(line, start) + {start};
    } else {
      assert Lookalikes(line, start + 1) == Lookalikes(line, start);
    }
  }

  method CountDark(grid: Grid) returns (dark: nat)
    ensures dark == DarkTotal(grid)
  {
    dark := 0;
    for row := 0 to |grid|
      invariant dark == DarkTotal(grid[..row])
    {
      ghost var before := dark;
      for column := 0 to |grid[row]|
        invariant dark == before + DarkIn(grid[row][..column])
      {
        assert grid[row][..column + 1][..column] == grid[row][..column];
        if grid[row][column] { dark := dark + 1; }
      }
      assert grid[row][..|grid[row]|] == grid[row];
      assert grid[..row + 1][..row] == grid[..row];
    }
    assert grid[..|grid|] == grid;
  }

  method ScoreRuns(grid: Grid) returns (runs: nat)
    requires IsGrid(grid, |grid|)
    ensures runs == RunTotal(grid, |grid|)
  {
    hide RunPenalty, Column;
    runs := 0;
    for row := 0 to |grid|
      invariant runs == RunTotal(grid, row)
    {
      var added := ScanLines(grid[row], Column(grid, row));
      runs := runs + added;
    }
  }

  method ScoreLookalikes(grid: Grid) returns (lookalikes: nat)
    requires IsGrid(grid, |grid|)
    ensures lookalikes == 40 * LookalikeCount(grid, |grid|)
  {
    lookalikes := 0;
    for index := 0 to |grid|
      invariant lookalikes == 40 * LookalikeCount(grid, index)
    {
      var across := CountLookalikes(grid[index]);
      var down := CountLookalikes(Column(grid, index));
      lookalikes := lookalikes + 40 * across + 40 * down;
    }
  }

  method Score(grid: Grid) returns (penalty: int)
    requires |grid| > 0 && IsGrid(grid, |grid|)
    ensures penalty == RunTotal(grid, |grid|) + 3 * |Blocks(grid, |grid| - 1, 0)| + 40 * LookalikeCount(grid, |grid|)
      + BalancePenalty(DarkTotal(grid), |grid|)
    ensures penalty == Penalty(grid)
  {
    var runs := ScoreRuns(grid);
    var blocks := CountBlocks(grid);
    var lookalikes := ScoreLookalikes(grid);
    var dark := CountDark(grid);
    penalty := runs + 3 * blocks + lookalikes + BalancePenalty(dark, |grid|);
  }

  /** Scaling by a positive number keeps the order. */
  lemma ScaledOrder(q: real, d: real, o: real, k: real)
    requires d > 0.0 && q * d == o
    ensures k <= q <==> k * d <= o
  {
    if k <= q {
      assert (q - k) * d >= 0.0;
    } else {
      assert (k - q) * d > 0.0;
    }
  }

  lemma FloorIs(q: real, k: int)
    ensures q.Floor == k <==> k as real <= q && !((k + 1) as real <= q)
  {
  }

  lemma ProductOfReals(a: int, b: int)
    ensures a as real * b as real == (a * b) as real
  {
  }

  /** How far the dark percentage is from fifty, times the number of modules. */
  function Imbalance(dark: nat, n: nat): nat {
    if 100 * dark < 50 * n then 50 * n - 100 * dark else 100 * dark - 50 * n
  }

  lemma ImbalanceScaled(dark: nat, n: nat, ratio: real)
    requires n > 0 && ratio * n as real == (100 * dark) as real
    ensures (if ratio < 50.0 then 50.0 - ratio else ratio - 50.0) * n as real == Imbalance(dark, n) as real
  {
    ScaledOrder(ratio, n as real, (100 * dark) as real, 50.0);
  }

  lemma StepsOf(off: real, n: nat, whole: nat, k: int)
    requires n > 0 && off * n as real == whole as real
    ensures (off / 5.0).Floor == k <==> k * (5 * n) <= whole < (k + 1) * (5 * n)
  {
    var q, d := off / 5.0, (5 * n) as real;
    assert q * d == off * n as real;
    ScaledOrder(q, d, whole as real, k as real);
    ScaledOrder(q, d, whole as real, (k + 1) as real);
    FloorIs(q, k);
    ProductOfReals(k, 5 * n);
    ProductOfReals(k + 1, 5 * n);
  }

  /** The balance term is 10 for every full step of five percent away from one half. */
  lemma BalanceSteps(dark: nat, size: nat, n: nat, k: int)
    requires size > 0 && n == size * size
    ensures n > 0
    ensures BalancePenalty(dark, size) == 10 * k <==> k * (5 * n) <= Imbalance(dark, n) < (k + 1) * (5 * n)
  {
    hide Imbalance;
    var ratio := (dark * 100) as real / n as real;
    var off := if ratio < 50.0 then 50.0 - ratio else ratio - 50.0;
    ImbalanceScaled(dark, n, ratio);
    StepsOf(off, n, Imbalance(dark, n), k);
  }
}
