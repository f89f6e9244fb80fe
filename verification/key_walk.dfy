/** The scattered walk over the keys of a table: add a stride, wrap at the number of rows. */
module KeyWalk {

  const ROWS: nat := 20000
  const KEY_STRIDE: nat := 7919

  predicate Divides(d: int, n: int)
    requires d > 0
  {
    n % d == 0
  }

  ghost predicate Coprime(a: nat, b: nat) {
    forall d: nat | d > 0 && Divides(d, a) && Divides(d, b) :: d == 1
  }

  function Next(key: nat, stride: nat, rows: nat): (r: nat)
    requires rows > 0
    ensures r < rows
  {
    (key + stride) % rows
  }

  /** The key after n steps. */
  function After(key: nat, stride: nat, rows: nat, n: nat): (r: nat)
    requires rows > 0 && key < rows
    ensures r < rows
  {
    if n == 0 then key else Next(After(key, stride, rows, n - 1), stride, rows)
  }

  // ---- Multiples -------------------------------------------------------------------------------------------------

  lemma SmallMultiple(n: int, k: int, m: int)
    requires m > 0 && n == k * m && -m < n < m
    ensures n == 0
  {
    assert k >= 1 ==> k * m >= m;
    assert k <= -1 ==> k * m + m <= 0;
  }

  lemma DividesIsMultiple(d: nat, k: int)
    requires d > 0
    ensures Divides(d, k * d)
  {
    var n := k * d;
    assert n - n / d * d == (k - n / d) * d;
    SmallMultiple(n % d, k - n / d, d);
  }

  // ---- Bezout ----------------------------------------------------------------------------------------------------

  /** A common divisor that is a sum of multiples of both, by Euclid's algorithm. */
  lemma {:induction false} Bezout(a: nat, b: nat) returns (g: nat, x: int, y: int)
    requires a > 0 || b > 0
    ensures g > 0 && Divides(g, a) && Divides(g, b) && x * a + y * b == g
    decreases b
  {
    if b == 0 {
      g, x, y := a, 1, 0;
    } else {
      var q, r := a / b, a % b;
      var x', y';
      g, x', y' := Bezout(b, r);
      x, y := y', x' - q * y';
      assert a == q * b + r;
      assert y' * a == y' * (q * b) + y' * r;
      assert (x' - q * y') * b == x' * b - y' * (q * b);
      var bs, rs := b / g, r / g;
      assert q * b + r == (q * bs + rs) * g;
      DividesIsMultiple(g, q * bs + rs);
    }
  }

  /** A multiple of the stride that is one more than a multiple of the rows. */
  lemma Inverse(stride: nat, rows: nat) returns (x: int, y: int)
    requires rows > 0 && Coprime(stride, rows)
    ensures x * stride + y * rows == 1
  {
    var g;
    g, x, y := Bezout(stride, rows);
  }

  // ---- The cycle ---------------------------------------------------------------------------------------------------

  /** One step more: the rounds completed grow by what the new sum wraps round. */
  lemma OneStrideMore(key: nat, stride: nat, rows: nat, travelled: nat, at: nat, before: nat) returns (rounds: nat)
    requires rows > 0 && key + travelled == at + before * rows
    ensures key + (travelled + stride) == Next(at, stride, rows) + rounds * rows
  {
    var laps := (at + stride) / rows;
    rounds := before + laps;
    assert at + stride == Next(at, stride, rows) + laps * rows;
    assert (before + laps) * rows == before * rows + laps * rows;
  }

  /** The key after n steps is what n strides come to, less the rounds that have been completed. */
  lemma {:induction false} AfterLessRounds(key: nat, stride: nat, rows: nat, n: nat) returns (rounds: nat)
    requires rows > 0 && key < rows
    ensures key + n * stride == After(key, stride, rows, n) + rounds * rows
  {
    if n == 0 {
      rounds := 0;
    } else {
      var before := AfterLessRounds(key, stride, rows, n - 1);
      rounds := OneStrideMore(key, stride, rows, (n - 1) * stride, After(key, stride, rows, n - 1), before);
      assert n * stride == (n - 1) * stride + stride;
    }
  }

  /** A multiple of a stride that is a multiple of the rows is itself one, when a combination of the two is one. */
  lemma CoprimeCancels(d: int, stride: nat, k: int, rows: nat, x: int, y: int)
    requires d * stride == k * rows && x * stride + y * rows == 1
    ensures d == (x * k + d * y) * rows
  {
    calc {
      d;
      d * (x * stride + y * rows);
      d * (x * stride) + d * (y * rows);
      x * (d * stride) + (d * y) * rows;
      x * (k * rows) + (d * y) * rows;
      (x * k + d * y) * rows;
    }
  }

  /** Steps of a coprime stride closer together than the rows never meet the same key. */
  lemma NoKeyTwice(key: nat, stride: nat, rows: nat, i: nat, j: nat)
    requires rows > 0 && key < rows && Coprime(stride, rows) && i < j < i + rows
    ensures After(key, stride, rows, i) != After(key, stride, rows, j)
  {
    var p := AfterLessRounds(key, stride, rows, i);
    var q := AfterLessRounds(key, stride, rows, j);
    if After(key, stride, rows, i) == After(key, stride, rows, j) {
      var x, y := Inverse(stride, rows);
      assert (j - i) * stride == j * stride - i * stride && (q - p) * rows == q * rows - p * rows;
      CoprimeCancels(j - i, stride, q - p, rows, x, y);
      SmallMultiple(j - i, x * (q - p) + (j - i) * y, rows);
    }
  }

  /** Reducing a multiple of the inverse modulo the rows still gives a number of strides that spans the gap. */
  lemma StridesSpanGap(gap: int, stride: nat, rows: nat, x: int, y: int, q: int, n: int)
    requires gap * x == q * rows + n && x * stride + y * rows == 1
    ensures n * stride == gap + (-(gap * y) - q * stride) * rows
  {
    calc {
      n * stride;
      (gap * x - q * rows) * stride;
      gap * x * stride - q * rows * stride;
      { assert gap * x * stride == gap * (x * stride); }
      gap * (1 - y * rows) - q * rows * stride;
      gap - gap * y * rows - q * stride * rows;
      gap + (-(gap * y) - q * stride) * rows;
    }
  }

  /** A coprime stride meets every key within one round. */
  lemma EveryKeyMet(key: nat, stride: nat, rows: nat, target: nat) returns (n: nat)
    requires rows > 0 && key < rows && target < rows && Coprime(stride, rows)
    ensures n < rows && After(key, stride, rows, n) == target
  {
    var x, y := Inverse(stride, rows);
    var gap := target - key;
    var whole := gap * x;
    n := whole % rows;
    StridesSpanGap(gap, stride, rows, x, y, whole / rows, n);
    var k := -(gap * y) - whole / rows * stride;
    var rounds := AfterLessRounds(key, stride, rows, n);
    assert After(key, stride, rows, n) - target == k * rows - rounds * rows == (k - rounds) * rows;
    SmallMultiple(After(key, stride, rows, n) - target, k - rounds, rows);
  }

  lemma DividesHasQuotient(d: nat, n: int) returns (q: int)
    requires d > 0 && Divides(d, n)
    ensures n == q * d
  {
    q := n / d;
  }

  lemma DifferenceOfMultiples(at: int, n: int, s: int, rounds: int, r: int, d: nat)
    requires d > 0 && n * (s * d) == at + rounds * (r * d)
    ensures Divides(d, at)
  {
    assert n * (s * d) == n * s * d && rounds * (r * d) == rounds * r * d;
    assert at == (n * s - rounds * r) * d;
    DividesIsMultiple(d, n * s - rounds * r);
  }

  /** A walk from key nought by a stride that shares a divisor with the rows stays with that divisor's multiples. */
  lemma StaysWithMultiples(stride: nat, rows: nat, d: nat, n: nat)
    requires rows > 0 && d > 0 && Divides(d, stride) && Divides(d, rows)
    ensures Divides(d, After(0, stride, rows, n))
  {
    var rounds := AfterLessRounds(0, stride, rows, n);
    var s := DividesHasQuotient(d, stride);
    var r := DividesHasQuotient(d, rows);
    DifferenceOfMultiples(After(0, stride, rows, n), n, s, rounds, r, d);
  }

  /** Within one round the walk comes from one key to the other. */
  ghost predicate Visits(start: nat, target: nat, stride: nat, rows: nat)
    requires rows > 0 && start < rows
  {
    exists n: nat :: n < rows && After(start, stride, rows, n) == target
  }

  /** One round of the walk comes to every key, wherever it starts, exactly when stride and rows share no divisor. */
  lemma FullCycleIffCoprime(stride: nat, rows: nat)
    requires rows > 0
    ensures (forall start: nat, target: nat | start < rows && target < rows :: Visits(start, target, stride, rows))
      <==> Coprime(stride, rows)
  {
    if Coprime(stride, rows) {
      forall start: nat, target: nat | start < rows && target < rows ensures Visits(start, target, stride, rows) {
        var n := EveryKeyMet(start, stride, rows, target);
      }
    } else if rows > 1 {
      var d: nat :| d > 0 && Divides(d, stride) && Divides(d, rows) && d != 1;
      if Visits(0, 1, stride, rows) {
        var n: nat :| n < rows && After(0, stride, rows, n) == 1;
        StaysWithMultiples(stride, rows, d, n);
        assert false;
      }
      assert !Visits(0, 1, stride, rows);
    }
  }

  /** An odd stride alone does not do: from key nought, a stride of five never comes to key one. */
  lemma OddIsNotEnough()
    ensures !Visits(0, 1, 5, ROWS)
  {
    if Visits(0, 1, 5, ROWS) {
      var n: nat :| n < ROWS && After(0, 5, ROWS, n) == 1;
      StaysWithMultiples(5, ROWS, 5, n);
      assert false;
    }
  }

  /** After one round the walk is back where it started. */
  lemma RoundReturns(key: nat, stride: nat, rows: nat)
    requires rows > 0 && key < rows
    ensures After(key, stride, rows, rows) == key
  {
    var rounds := AfterLessRounds(key, stride, rows, rows);
    assert After(key, stride, rows, rows) - key == (stride - rounds) * rows;
    SmallMultiple(After(key, stride, rows, rows) - key, stride - rounds, rows);
  }

  lemma BenchStrideCoprime()
    ensures Coprime(KEY_STRIDE, ROWS)
  {
    forall d: nat | d > 0 && Divides(d, KEY_STRIDE) && Divides(d, ROWS) ensures d == 1 {
      var a, b := KEY_STRIDE / d, ROWS / d;
      assert a * d == 7919 && b * d == 20000;
      var k := 17679 * a - 7000 * b;
      assert k * d == 1;
      if d > 1 {
        SmallMultiple(1, k, d);
      }
    }
  }

  /** The keys of the round of steps that follow a key. */
  function Round(start: nat, stride: nat, rows: nat): seq<nat>
    requires start < rows
  {
    seq(rows, i requires 0 <= i < rows => After(start, stride, rows, i + 1))
  }

  /** In any round of a coprime stride every key comes up exactly once. */
  lemma EachOncePerRound(start: nat, stride: nat, rows: nat, target: nat) returns (n: nat)
    requires start < rows && target < rows && Coprime(stride, rows)
    ensures n < rows && Round(start, stride, rows)[n] == target
    ensures forall i | 0 <= i < rows && Round(start, stride, rows)[i] == target :: i == n
  {
    n := EveryKeyMet(start, stride, rows, target);
    if n == 0 {
      RoundReturns(start, stride, rows);
      n := rows;
    }
    n := n - 1;
    hide Coprime, After;
    forall i: nat | i < rows && Round(start, stride, rows)[i] == target ensures i == n {
      if i < n {
        NoKeyTwice(start, stride, rows, i + 1, n + 1);
      } else if n < i {
        NoKeyTwice(start, stride, rows, n + 1, i + 1);
      }
    }
  }

  /** The bench's walk: in any twenty thousand successive steps every key of the table comes up exactly once. */
  lemma BenchWalkIsFullCycle(start: nat, target: nat) returns (n: nat)
    requires start < ROWS && target < ROWS
    ensures n < ROWS && Round(start, KEY_STRIDE, ROWS)[n] == target
    ensures forall i | 0 <= i < ROWS && Round(start, KEY_STRIDE, ROWS)[i] == target :: i == n
  {
    BenchStrideCoprime();
    hide *;
    n := EachOncePerRound(start, KEY_STRIDE, ROWS, target);
  }

  // ---- The loop --------------------------------------------------------------------------------------------------

  /** Where a counter that may be past the last key stands in the table. */
  function Wrapped(counter: nat, rows: nat): (key: nat)
    requires rows > 0
    ensures key < rows
  {
    counter % rows
  }

  lemma StepWraps(counter: nat, stride: nat, rows: nat)
    requires rows > 0
    ensures Next(counter, stride, rows) == Next(Wrapped(counter, rows), stride, rows)
    ensures Wrapped(Next(counter, stride, rows), rows) == Next(counter, stride, rows)
  {
    var a, b, q := counter + stride, counter % rows + stride, counter / rows;
    var k := q + b / rows - a / rows;
    assert a == b + q * rows && a == a / rows * rows + a % rows && b == b / rows * rows + b % rows;
    assert k * rows == q * rows + b / rows * rows - a / rows * rows;
    SmallMultiple(a % rows - b % rows, k, rows);
    WrappedStays(a % rows, rows);
  }

  lemma WrappedStays(key: nat, rows: nat)
    requires key < rows
    ensures Wrapped(key, rows) == key
  {
  }

  /** The loop that does the walk, from wherever the counter happens to stand. */
  method Walk(start: nat, steps: nat) returns (keys: seq<nat>)
    ensures |keys| == steps
    ensures forall i | 0 <= i < steps :: keys[i] == After(Wrapped(start, ROWS), KEY_STRIDE, ROWS, i + 1)
    ensures steps == ROWS ==> keys == Round(Wrapped(start, ROWS), KEY_STRIDE, ROWS)
  {
    hide Next, Wrapped;
    keys := [];
    var key: nat := start;
    while |keys| < steps
      invariant |keys| <= steps && Wrapped(key, ROWS) == After(Wrapped(start, ROWS), KEY_STRIDE, ROWS, |keys|)
      invariant forall i | 0 <= i < |keys| :: keys[i] == After(Wrapped(start, ROWS), KEY_STRIDE, ROWS, i + 1)
    {
      StepWraps(key, KEY_STRIDE, ROWS);
      key := Next(key, KEY_STRIDE, ROWS);
      keys := keys + [key];
    }
  }
}
