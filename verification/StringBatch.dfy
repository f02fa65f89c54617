/** Splitting a list of rows into statements that stay within SQLite's bound-variable limit. One argument
    buffer and one placeholder text are reused for all statements; each statement sees slices of them. */
module StringBatch {

  const MAX_VARS := 900

  /** One statement: its placeholder text and the arguments bound to it when it ran. */
  datatype Batch<C> = Batch(placeholders: string, args: seq<C>)

  function Join(row: string, n: nat): string
    decreases n
  {
    if n == 0 then "" else if n == 1 then row else Join(row, n - 1) + "," + row
  }

  function Repeat(s: string, n: nat): string { if n == 0 then "" else Repeat(s, n - 1) + s }

  lemma {:induction false} RepeatIsJoin(row: string, n: nat)
    requires n > 0
    ensures Repeat(row + ",", n) == Join(row, n) + "," && |Join(row, n)| == n * (|row| + 1) - 1
  {
    if n == 1 {
      assert Repeat(row + ",", 1) == Repeat(row + ",", 0) + (row + ",");
    } else {
      RepeatIsJoin(row, n - 1);
      assert Join(row, n - 1) + "," + (row + ",") == Join(row, n - 1) + "," + row + ",";
    }
  }

  lemma {:induction false} RepeatPrefix(s: string, k: nat, n: nat)
    requires k <= n
    ensures Repeat(s, k) <= Repeat(s, n)
  {
    if k < n { RepeatPrefix(s, k, n - 1); }
  }

  /** strings.TrimSuffix(strings.Repeat(row + ",", n), ",") and its prefixes are joined rows. */
  lemma PlaceholderPrefix(row: string, n: nat, k: nat)
    requires 0 < k <= n
    ensures var text := Repeat(row + ",", n); var len := k * (|row| + 1) - 1;
      && 0 <= len <= |text|
      && text[..len] == Join(row, k)
  {
    RepeatIsJoin(row, k);
    RepeatPrefix(row + ",", k, n);
  }

  /** The cells of a list of rows, in order; `first` is the index of the first row. */
  function Cells<T, C>(values: seq<T>, first: nat, fill: (T, nat) -> seq<C>): seq<C> {
    if values == [] then [] else fill(values[0], first) + Cells(values[1..], first + 1, fill)
  }

  lemma {:induction false} CellsSplit<T, C>(a: seq<T>, b: seq<T>, first: nat, fill: (T, nat) -> seq<C>)
    ensures Cells(a + b, first, fill) == Cells(a, first, fill) + Cells(b, first + |a|, fill)
  {
    if a == [] {
      assert a + b == b;
    } else {
      assert (a + b)[0] == a[0] && (a + b)[1..] == a[1..] + b;
      CellsSplit(a[1..], b, first + 1, fill);
    }
  }

  function Bound<C>(batches: seq<Batch<C>>): seq<C> {
    if batches == [] then [] else Bound(batches[..|batches| - 1]) + batches[|batches| - 1].args
  }

  function Min(a: nat, b: nat): nat { if a < b then a else b }

  /** What every yielded statement satisfies: at most the allowed variables, one placeholder row per value. */
  ghost predicate WellFormed<C>(b: Batch<C>, row: string, columns: nat, reserved: nat) {
    && 0 < |b.args| && |b.args| + reserved <= MAX_VARS
    && exists rows: nat :: rows > 0 && |b.args| == rows * columns && b.placeholders == Join(row, rows)
  }

  /** Runs statements until all rows are bound or the consumer stops after `limit` statements. Together they
      bind exactly the rows, in order, each row once. */
  method BindRowBatches<T(!new), C(0)>(values: seq<T>, row: string, columns: nat, reserved: nat,
      fill: (T, nat) -> seq<C>, limit: nat)
    returns (batches: seq<Batch<C>>)
    requires columns > 0 && reserved + columns <= MAX_VARS && limit > 0
    requires forall v, i: nat :: |fill(v, i)| == columns
    ensures forall k | 0 <= k < |batches| :: WellFormed(batches[k], row, columns, reserved)
    ensures |batches| <= limit
    ensures |batches| < limit ==> Bound(batches) == Cells(values, 0, fill)
    ensures Bound(batches) <= Cells(values, 0, fill)
  {
    batches := [];
    if |values| == 0 { return; }
    var batchSize := Min(|values|, (MAX_VARS - reserved) / columns);
    var placeholders := Repeat(row + ",", batchSize);
    SizeFits(batchSize, columns, reserved);
    var args := new C[batchSize * columns];
    var start := 0;
    while start < |values|
      invariant 0 <= start <= |values| && |batches| < limit && args.Length == batchSize * columns
      invariant forall k | 0 <= k < |batches| :: WellFormed(batches[k], row, columns, reserved)
      invariant Bound(batches) == Cells(values[..start], 0, fill)
    {
      var end := Min(start + batchSize, |values|);
      var batch := values[start..end];
      var used := FillBuffer(args, batch, start, columns, fill, batchSize);
      PlaceholderPrefix(row, batchSize, |batch|);
      var yielded := Batch(placeholders[..|batch| * (|row| + 1) - 1], args[..used]);
      assert WellFormed(yielded, row, columns, reserved) by { SizeFits(|batch|, columns, reserved); }
      CellsSplit(values[..start], batch, 0, fill);
      assert values[..start] + batch == values[..end];
      CellsSplit(values[..end], values[end..], 0, fill);
      assert values[..end] + values[end..] == values;
      batches := batches + [yielded];
      assert batches[..|batches| - 1] + [yielded] == batches;
      if |batches| == limit { return; }
      start := end;
    }
    assert values[..start] == values;
  }

  lemma SizeFits(n: nat, columns: nat, reserved: nat)
    requires columns > 0 && reserved + columns <= MAX_VARS && n <= (MAX_VARS - reserved) / columns
    ensures n * columns + reserved <= MAX_VARS
    ensures (MAX_VARS - reserved) / columns >= 1
  {
    var q := (MAX_VARS - reserved) / columns;
    assert q * columns <= MAX_VARS - reserved;
    assert n * columns <= q * columns;
  }

  /** Refills the front of the shared buffer; what is left behind it belongs to an earlier statement. */
  method FillBuffer<T(!new), C>(args: array<C>, batch: seq<T>, start: nat, columns: nat, fill: (T, nat) -> seq<C>,
      batchSize: nat)
    returns (used: nat)
    requires |batch| <= batchSize && args.Length == batchSize * columns
    requires forall v, i: nat :: |fill(v, i)| == columns
    modifies args
    ensures used == |batch| * columns <= args.Length && args[..used] == Cells(batch, start, fill)
  {
    used := 0;
    var i := 0;
    Fits(|batch|, batchSize, columns);
    while i < |batch|
      invariant 0 <= i <= |batch| && used == i * columns && used <= args.Length
      invariant args[..used] == Cells(batch[..i], start, fill)
    {
      Fits(i + 1, batchSize, columns);
      var cells := fill(batch[i], start + i);
      assert used + columns == (i + 1) * columns;
      ghost var before := args[..used];
      forall k | 0 <= k < columns { args[used + k] := cells[k]; }
      assert args[..used + columns] == before + cells;
      CellsSplit(batch[..i], [batch[i]], start, fill);
      assert batch[..i] + [batch[i]] == batch[..i + 1];
      assert Cells([batch[i]], start + i, fill) == cells + Cells([], start + i + 1, fill);
      used, i := used + columns, i + 1;
    }
    assert batch[..i] == batch;
  }

  lemma Fits(n: nat, size: nat, columns: nat)
    requires n <= size
    ensures n * columns <= size * columns
  {
  }
}
