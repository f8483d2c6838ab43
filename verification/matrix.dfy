/**
 A model of the generic dense matrix of `src/matrix.rs`, instantiated at the
 integer element type. A matrix is a row-major record `(rows, cols, data)`;
 its element `(i, j)` lives at the linear index `cols * i + j`.

 Aborts of the source (`assert!`, `unwrap` on an error, slice indexing out
 of range, `chunks(0)`) are modelled as preconditions; recoverable errors
 are modelled with `Result`.
 */
module Matrices {

  /** The two error kinds of the source. */
  datatype MatrixError = CreateError | GetError

  /** A failure-compatible result carrying a `MatrixError`. */
  datatype Result<+T> = Ok(value: T) | Err(error: MatrixError) {
    predicate IsFailure() {
      Err?
    }

    function PropagateFailure<U>(): Result<U>
      requires Err?
    {
      Err(error)
    }

    function Extract(): T
      requires Ok?
    {
      value
    }
  }

  /** `T::default()` for the integer element type. */
  const Default: int := 0

  datatype Matrix = Matrix(rows: nat, cols: nat, data: seq<int>)

  /** The invariant every constructor establishes: the backing storage
      holds exactly `rows * cols` elements. */
  predicate Valid(m: Matrix) {
    |m.data| == m.rows * m.cols
  }

  /** `size()`: the number of elements the shape describes, which for a
      valid matrix is the length of its storage. */
  function Size(m: Matrix): (r: nat)
    ensures Valid(m) ==> r == |m.data|
    ensures r == 0 <==> m.rows == 0 || m.cols == 0
  {
    m.rows * m.cols
  }

  // ---------------------------------------------------------------------
  // Linear indexing

  lemma MulStep(c: nat, y: nat)
    ensures c * (y + 1) == c * y + c
  {
  }

  lemma {:induction false} MulMonotone(c: nat, x: nat, y: nat)
    requires x <= y
    ensures c * x <= c * y
    decreases y - x
  {
    if x < y {
      MulMonotone(c, x, y - 1);
      MulStep(c, y - 1);
    }
  }

  /** An in-range position has a linear index inside the storage. */
  lemma IndexInBounds(rows: nat, cols: nat, i: nat, j: nat)
    requires i < rows && j < cols
    ensures cols * i + j < rows * cols
  {
    MulMonotone(cols, i + 1, rows);
    MulStep(cols, i);
    assert rows * cols == cols * rows;
  }

  /** The linear index determines the position: division by `cols`
      recovers the row and the remainder the column. */
  lemma IndexDivMod(cols: nat, i: nat, j: nat)
    requires j < cols
    ensures (cols * i + j) / cols == i
    ensures (cols * i + j) % cols == j
  {
    var k := cols * i + j;
    var q, r := k / cols, k % cols;
    assert k == cols * q + r;
    if q > i {
      MulMonotone(cols, i + 1, q);
      MulStep(cols, i);
    } else if q < i {
      MulMonotone(cols, q + 1, i);
      MulStep(cols, q);
    }
  }

  /** Distinct in-range positions have distinct linear indices. */
  lemma IndexInjective(cols: nat, i: nat, j: nat, i': nat, j': nat)
    requires j < cols && j' < cols
    requires cols * i + j == cols * i' + j'
    ensures i == i' && j == j'
  {
    IndexDivMod(cols, i, j);
    IndexDivMod(cols, i', j');
  }

  /** The element at row `i`, column `j` of a valid matrix, addressed only
      within the shape. */
  function At(m: Matrix, i: nat, j: nat): int
    requires Valid(m) && i < m.rows && j < m.cols
  {
    IndexInBounds(m.rows, m.cols, i, j);
    m.data[m.cols * i + j]
  }

  /** The valid `rows` x `cols` matrix whose element `(i, j)` is `f(i, j)`. */
  function Tabulate(rows: nat, cols: nat, f: (nat, nat) -> int): (m: Matrix)
    ensures Valid(m) && m.rows == rows && m.cols == cols
    ensures forall i: nat, j: nat :: i < rows && j < cols ==> At(m, i, j) == f(i, j)
  {
    var m := Matrix(rows, cols, seq(rows * cols, k requires 0 <= k < rows * cols => f(k / cols, k % cols)));
    assert forall i: nat, j: nat :: i < rows && j < cols ==> At(m, i, j) == f(i, j) by {
      forall i: nat, j: nat | i < rows && j < cols
        ensures At(m, i, j) == f(i, j)
      {
        IndexDivMod(cols, i, j);
        IndexInBounds(rows, cols, i, j);
      }
    }
    m
  }

  /** Two valid matrices of the same shape that agree on every cell are
      equal: the cells cover the whole storage. */
  lemma CellsDetermine(m: Matrix, n: Matrix)
    requires Valid(m) && Valid(n) && m.rows == n.rows && m.cols == n.cols
    requires forall i: nat, j: nat :: i < m.rows && j < m.cols ==> At(m, i, j) == At(n, i, j)
    ensures m == n
  {
    forall k | 0 <= k < |m.data|
      ensures m.data[k] == n.data[k]
    {
      var i, j := k / m.cols, k % m.cols;
      assert k == m.cols * i + j;
      if i >= m.rows {
        MulMonotone(m.cols, m.rows, i);
      }
      assert At(m, i, j) == At(n, i, j);
    }
  }

  // ---------------------------------------------------------------------
  // Construction

  /** `Matrix::new`: an all-default matrix, refused when a dimension is 0. */
  function New(rows: nat, cols: nat): (r: Result<Matrix>)
    ensures r.Err? <==> rows == 0 || cols == 0
    ensures r.Err? ==> r.error == CreateError
    ensures r.Ok? ==> r.value.rows == rows && r.value.cols == cols
    ensures r.Ok? ==> Valid(r.value) && Size(r.value) == |r.value.data|
    ensures r.Ok? ==> forall k :: 0 <= k < |r.value.data| ==> r.value.data[k] == Default
  {
    if rows == 0 || cols == 0 then Err(CreateError)
    else Ok(Matrix(rows, cols, seq(rows * cols, _ => Default)))
  }

  /** `Matrix::from_vec`: adopts `data` when its length matches the shape.
      A 0 x n or n x 0 shape with empty data is accepted. */
  function FromVec(rows: nat, cols: nat, data: seq<int>): (r: Result<Matrix>)
    ensures r.Err? <==> rows * cols != |data|
    ensures r.Err? ==> r.error == CreateError
    ensures r.Ok? ==> r.value.rows == rows && r.value.cols == cols && r.value.data == data
    ensures r.Ok? ==> Valid(r.value) && Size(r.value) == |r.value.data|
  {
    if rows * cols != |data| then Err(CreateError) else Ok(Matrix(rows, cols, data))
  }

  lemma FromVecAdmitsEmptyShapes(n: nat)
    ensures FromVec(0, n, []).Ok? && FromVec(n, 0, []).Ok?
    ensures n > 0 ==> New(0, n).Err? && New(n, 0).Err?
  {
  }

  // ---------------------------------------------------------------------
  // Element access, as written: one combined bound check on the linear index

  /** The guard of `get`/`get_mut`: rejects only a linear index strictly
      beyond the storage length. */
  predicate GetGuardRejects(m: Matrix, row: nat, col: nat) {
    |m.data| < m.cols * row + col
  }

  /** `get`, as written. When the linear index equals the length, the guard
      passes and the indexing that follows aborts: that input is excluded. */
  function Get(m: Matrix, row: nat, col: nat): (r: Result<int>)
    requires m.cols * row + col != |m.data|
    ensures r.Err? <==> m.cols * row + col > |m.data|
    ensures r.Err? ==> r.error == GetError
    ensures r.Ok? ==> m.cols * row + col < |m.data| && r.value == m.data[m.cols * row + col]
  {
    if GetGuardRejects(m, row, col) then Err(GetError) else Ok(m.data[m.cols * row + col])
  }

  /** `get_mut` followed by a write of `v` through the returned reference. */
  function Update(m: Matrix, row: nat, col: nat, v: int): (r: Result<Matrix>)
    requires m.cols * row + col != |m.data|
    ensures r.Err? <==> m.cols * row + col > |m.data|
    ensures r.Err? ==> r.error == GetError
    ensures r.Ok? ==> r.value.rows == m.rows && r.value.cols == m.cols && |r.value.data| == |m.data|
    ensures r.Ok? ==> r.value.data[m.cols * row + col] == v
    ensures r.Ok? ==> forall k :: 0 <= k < |m.data| && k != m.cols * row + col ==> r.value.data[k] == m.data[k]
  {
    if GetGuardRejects(m, row, col) then Err(GetError)
    else Ok(m.(data := m.data[m.cols * row + col := v]))
  }

  /** Reading back a cell just written returns the written value. */
  lemma GetAfterUpdate(m: Matrix, row: nat, col: nat, v: int)
    requires m.cols * row + col < |m.data|
    ensures Update(m, row, col, v).Ok?
    ensures Get(Update(m, row, col, v).value, row, col) == Ok(v)
  {
  }

  /** Writing one in-range cell of a valid matrix keeps it valid and leaves
      every other in-range cell as it was. */
  lemma UpdateAt(m: Matrix, row: nat, col: nat, v: int)
    requires Valid(m) && row < m.rows && col < m.cols
    ensures m.cols * row + col < |m.data|
    ensures Update(m, row, col, v).Ok?
    ensures Valid(Update(m, row, col, v).value)
    ensures At(Update(m, row, col, v).value, row, col) == v
    ensures forall i: nat, j: nat :: i < m.rows && j < m.cols && (i != row || j != col) ==>
      At(Update(m, row, col, v).value, i, j) == At(m, i, j)
  {
    IndexInBounds(m.rows, m.cols, row, col);
    var u := Update(m, row, col, v).value;
    forall i: nat, j: nat | i < m.rows && j < m.cols && (i != row || j != col)
      ensures At(u, i, j) == At(m, i, j)
    {
      IndexInBounds(m.rows, m.cols, i, j);
      if m.cols * i + j == m.cols * row + col {
        IndexInjective(m.cols, i, j, row, col);
      }
    }
  }

  // ---------------------------------------------------------------------
  // Element access, corrected: row and column checked separately

  /** The accessor with the bound check `get` evidently intends: both
      coordinates within the shape. */
  function GetChecked(m: Matrix, row: nat, col: nat): (r: Result<int>)
    requires Valid(m)
    ensures r.Err? <==> row >= m.rows || col >= m.cols
    ensures r.Err? ==> r.error == GetError
    ensures r.Ok? ==> r.value == At(m, row, col)
  {
    if row >= m.rows || col >= m.cols then Err(GetError) else Ok(At(m, row, col))
  }

  /** On in-range coordinates the two accessors agree. */
  lemma GetCheckedAgreesInRange(m: Matrix, row: nat, col: nat)
    requires Valid(m) && row < m.rows && col < m.cols
    ensures m.cols * row + col < |m.data|
    ensures Get(m, row, col) == GetChecked(m, row, col)
  {
    IndexInBounds(m.rows, m.cols, row, col);
  }

  /** The corrected accessor reaches each stored element from exactly one
      coordinate pair. */
  lemma GetCheckedNoAliasing(m: Matrix, i: nat, j: nat, i': nat, j': nat)
    requires Valid(m) && i < m.rows && j < m.cols && i' < m.rows && j' < m.cols
    requires i != i' || j != j'
    ensures m.cols * i + j != m.cols * i' + j'
  {
    if m.cols * i + j == m.cols * i' + j' {
      IndexInjective(m.cols, i, j, i', j');
    }
  }

  /** The guard of `get` and `get_mut` is off by one: for every valid
      matrix, the position `(rows, 0)` passes it although its linear index
      is the storage length, so the indexing behind the guard aborts. */
  lemma GetGuardOffByOne(m: Matrix)
    requires Valid(m)
    ensures !GetGuardRejects(m, m.rows, 0)
    ensures m.cols * m.rows + 0 == |m.data|
    ensures GetChecked(m, m.rows, 0).Err?
  {
    assert m.cols * m.rows == m.rows * m.cols;
  }

  /** `get` never checks the column: on a 2 x 2 matrix, `get(0, 2)`
      succeeds and returns the element of row 1, column 0, while the
      corrected accessor refuses column 2. */
  lemma GetColumnNotChecked(a: int, b: int, c: int, d: int)
    ensures var m := Matrix(2, 2, [a, b, c, d]);
      && Valid(m)
      && Get(m, 0, 2) == Ok(c)
      && GetChecked(m, 1, 0) == Ok(c)
      && GetChecked(m, 0, 2) == Err(GetError)
  {
    var m := Matrix(2, 2, [a, b, c, d]);
    assert At(m, 1, 0) == m.data[2];
  }

  // ---------------------------------------------------------------------
  // Bulk operations

  /** `fill`: every element becomes `v`; the shape and length stay. */
  function Fill(m: Matrix, v: int): (r: Matrix)
    ensures r.rows == m.rows && r.cols == m.cols && |r.data| == |m.data|
    ensures forall k :: 0 <= k < |r.data| ==> r.data[k] == v
  {
    m.(data := seq(|m.data|, _ => v))
  }

  /** A fill erases whatever the matrix held before. */
  lemma FillOverwrites(m: Matrix, v: int, w: int)
    ensures Fill(Fill(m, v), w) == Fill(m, w)
    ensures Valid(m) ==> Valid(Fill(m, v))
  {
    assert Fill(Fill(m, v), w).data == Fill(m, w).data;
  }

  /** Concatenation of a sequence of slices. */
  function Concat(ss: seq<seq<int>>): seq<int>
    decreases |ss|
  {
    if |ss| == 0 then [] else ss[0] + Concat(ss[1..])
  }

  /** `slice::chunks(n)`: consecutive slices of length `n`, the last one
      possibly shorter. */
  function Chunks(s: seq<int>, n: nat): seq<seq<int>>
    requires n > 0
    decreases |s|
  {
    if |s| == 0 then []
    else if |s| <= n then [s]
    else [s[..n]] + Chunks(s[n..], n)
  }

  lemma ChunksStep(s: seq<int>, n: nat)
    requires 0 < n < |s|
    ensures Chunks(s, n) == [s[..n]] + Chunks(s[n..], n)
  {
  }

  /** The chunks of `s`, put back together, are `s`. */
  lemma {:induction false} ChunksConcat(s: seq<int>, n: nat)
    requires n > 0
    ensures Concat(Chunks(s, n)) == s
    decreases |s|
  {
    if |s| > n {
      var rest := Chunks(s[n..], n);
      ChunksConcat(s[n..], n);
      assert ([s[..n]] + rest)[1..] == rest;
      assert s[..n] + s[n..] == s;
    } else if |s| > 0 {
      assert Concat([s]) == s + Concat([]);
    }
  }

  /** `row_chunks`: the storage cut into slices of `cols` elements; the
      source aborts when `cols` is 0. */
  function RowChunks(m: Matrix): (r: seq<seq<int>>)
    requires m.cols > 0
    ensures Concat(r) == m.data
  {
    ChunksConcat(m.data, m.cols);
    Chunks(m.data, m.cols)
  }

  /** `n * i` computed by repeated addition, which keeps the chunk proofs
      linear. */
  function Offset(n: nat, i: nat): nat
    decreases i
  {
    if i == 0 then 0 else Offset(n, i - 1) + n
  }

  lemma {:induction false} OffsetIsProduct(n: nat, i: nat)
    ensures Offset(n, i) == n * i
    decreases i
  {
    if i > 0 {
      OffsetIsProduct(n, i - 1);
      MulStep(n, i - 1);
    }
  }

  lemma {:induction false} OffsetMonotone(n: nat, i: nat, rows: nat)
    requires i < rows
    ensures Offset(n, i) + n <= Offset(n, rows)
    decreases rows
  {
    if i < rows - 1 {
      OffsetMonotone(n, i, rows - 1);
    }
  }

  lemma {:induction false} ChunksCount(s: seq<int>, rows: nat, n: nat)
    requires n > 0 && |s| == Offset(n, rows)
    ensures |Chunks(s, n)| == rows
    decreases rows
  {
    if rows > 1 {
      ChunksCount(s[n..], rows - 1, n);
    }
  }

  lemma {:induction false} ChunkAt(s: seq<int>, rows: nat, n: nat, i: nat)
    requires n > 0 && |s| == Offset(n, rows) && i < rows
    ensures |Chunks(s, n)| == rows
    ensures Offset(n, i) + n <= |s| && Chunks(s, n)[i] == s[Offset(n, i) .. Offset(n, i) + n]
    decreases i
  {
    ChunksCount(s, rows, n);
    OffsetMonotone(n, i, rows);
    if i == 0 {
      if |s| <= n {
        assert Chunks(s, n) == [s];
      } else {
        ChunksStep(s, n);
      }
    } else {
      ChunksStep(s, n);
      var tail := s[n..];
      ChunkAt(tail, rows - 1, n, i - 1);
      var lo := Offset(n, i - 1);
      assert Chunks(s, n)[i] == Chunks(tail, n)[i - 1];
      assert tail[lo .. lo + n] == s[n + lo .. n + lo + n];
    }
  }

  /** Chunk `i` of a valid matrix is row `i`. */
  lemma RowChunkIsRow(m: Matrix, i: nat)
    requires Valid(m) && m.cols > 0 && i < m.rows
    ensures |RowChunks(m)| == m.rows
    ensures |RowChunks(m)[i]| == m.cols
    ensures forall j: nat :: j < m.cols ==> RowChunks(m)[i][j] == At(m, i, j)
  {
    OffsetIsProduct(m.cols, m.rows);
    assert m.cols * m.rows == m.rows * m.cols;
    ChunkAt(m.data, m.rows, m.cols, i);
    OffsetIsProduct(m.cols, i);
    forall j: nat | j < m.cols
      ensures RowChunks(m)[i][j] == At(m, i, j)
    {
      IndexInBounds(m.rows, m.cols, i, j);
    }
  }

  /** For a valid matrix, `row_chunks` yields exactly `rows` slices of
      `cols` elements, the `i`-th holding row `i`. */
  lemma RowChunksAreRows(m: Matrix)
    requires Valid(m) && m.cols > 0
    ensures |RowChunks(m)| == m.rows
    ensures forall i :: 0 <= i < m.rows ==> |RowChunks(m)[i]| == m.cols
    ensures forall i: nat, j: nat :: i < m.rows && j < m.cols ==> RowChunks(m)[i][j] == At(m, i, j)
  {
    OffsetIsProduct(m.cols, m.rows);
    assert m.cols * m.rows == m.rows * m.cols;
    ChunksCount(m.data, m.rows, m.cols);
    forall i: nat | i < m.rows
      ensures |RowChunks(m)[i]| == m.cols
      ensures forall j: nat :: j < m.cols ==> RowChunks(m)[i][j] == At(m, i, j)
    {
      RowChunkIsRow(m, i);
    }
  }

  // ---------------------------------------------------------------------
  // Arithmetic

  /** The shape condition the two `assert!`s of `add` check. */
  predicate CanAdd(a: Matrix, b: Matrix) {
    a.rows == b.rows && a.cols == b.cols
  }

  /** `a + b`: element-wise sum of two matrices of the same shape. */
  function Add(a: Matrix, b: Matrix): (r: Matrix)
    requires Valid(a) && Valid(b) && CanAdd(a, b)
    ensures Valid(r) && r.rows == a.rows && r.cols == a.cols
    ensures forall k :: 0 <= k < |r.data| ==> r.data[k] == a.data[k] + b.data[k]
    ensures forall i: nat, j: nat :: i < r.rows && j < r.cols ==> At(r, i, j) == At(a, i, j) + At(b, i, j)
  {
    var r := Matrix(a.rows, a.cols, seq(|a.data|, k requires 0 <= k < |a.data| => a.data[k] + b.data[k]));
    assert forall i: nat, j: nat :: i < r.rows && j < r.cols ==> At(r, i, j) == At(a, i, j) + At(b, i, j) by {
      forall i: nat, j: nat | i < r.rows && j < r.cols
        ensures At(r, i, j) == At(a, i, j) + At(b, i, j)
      {
        IndexInBounds(a.rows, a.cols, i, j);
      }
    }
    r
  }

  lemma AddCommutes(a: Matrix, b: Matrix)
    requires Valid(a) && Valid(b) && CanAdd(a, b)
    ensures Add(a, b) == Add(b, a)
  {
    assert Add(a, b).data == Add(b, a).data;
  }

  /** The conditions under which `mul` neither fails its `assert!` nor
      unwraps the error of `Matrix::new(self.rows, rhs.cols)`. */
  predicate CanMul(a: Matrix, b: Matrix) {
    a.cols == b.rows && a.rows > 0 && b.cols > 0
  }

  /** Row `i` of `a`. */
  function Row(a: Matrix, i: nat): (r: seq<int>)
    requires Valid(a) && i < a.rows
    ensures |r| == a.cols
  {
    seq(a.cols, k requires 0 <= k < a.cols => At(a, i, k))
  }

  /** Column `j` of `b`. */
  function Column(b: Matrix, j: nat): (r: seq<int>)
    requires Valid(b) && j < b.cols
    ensures |r| == b.rows
  {
    seq(b.rows, k requires 0 <= k < b.rows => At(b, k, j))
  }

  /** The dot product, accumulated from `Default` in index order. */
  function Dot(u: seq<int>, v: seq<int>): int
    requires |u| == |v|
    decreases |u|
  {
    if |u| == 0 then Default else Dot(u[..|u| - 1], v[..|v| - 1]) + u[|u| - 1] * v[|v| - 1]
  }

  lemma {:induction false} DotZeroLeft(u: seq<int>, v: seq<int>)
    requires |u| == |v|
    requires forall k :: 0 <= k < |u| ==> u[k] == 0
    ensures Dot(u, v) == 0
    decreases |u|
  {
    if |u| > 0 {
      DotZeroLeft(u[..|u| - 1], v[..|v| - 1]);
    }
  }

  lemma {:induction false} DotOnes(u: seq<int>, v: seq<int>)
    requires |u| == |v|
    requires forall k :: 0 <= k < |u| ==> u[k] == 1 && v[k] == 1
    ensures Dot(u, v) == |u|
    decreases |u|
  {
    if |u| > 0 {
      DotOnes(u[..|u| - 1], v[..|v| - 1]);
    }
  }

  /** `a * b` with the accumulation the operator evidently intends: each
      cell is the dot product of a row of `a` and a column of `b`. */
  function Mul(a: Matrix, b: Matrix): (r: Matrix)
    requires Valid(a) && Valid(b) && CanMul(a, b)
    ensures Valid(r) && r.rows == a.rows && r.cols == b.cols
    ensures forall i: nat, j: nat :: i < r.rows && j < r.cols ==> At(r, i, j) == Dot(Row(a, i), Column(b, j))
  {
    Tabulate(a.rows, b.cols,
      (i: nat, j: nat) => if i < a.rows && j < b.cols then Dot(Row(a, i), Column(b, j)) else Default)
  }

  /** The all-ones matrix of a given shape, built as the source would:
      `new` then `fill(1)`. */
  function Ones(rows: nat, cols: nat): (r: Matrix)
    requires rows > 0 && cols > 0
    ensures Valid(r) && r.rows == rows && r.cols == cols
    ensures forall i: nat, j: nat :: i < rows && j < cols ==> At(r, i, j) == 1
  {
    var r := Fill(New(rows, cols).value, 1);
    assert forall i: nat, j: nat :: i < rows && j < cols ==> At(r, i, j) == 1 by {
      forall i: nat, j: nat | i < rows && j < cols
        ensures At(r, i, j) == 1
      {
        IndexInBounds(rows, cols, i, j);
      }
    }
    r
  }

  /** Multiplying all-ones matrices gives the inner dimension in every cell. */
  lemma MulOnes(r: nat, n: nat, c: nat)
    requires r > 0 && n > 0 && c > 0
    ensures forall i: nat, j: nat :: i < r && j < c ==> At(Mul(Ones(r, n), Ones(n, c)), i, j) == n
  {
    var a, b := Ones(r, n), Ones(n, c);
    forall i: nat, j: nat | i < r && j < c
      ensures At(Mul(a, b), i, j) == n
    {
      DotOnes(Row(a, i), Column(b, j));
    }
  }

  /** A matrix whose elements are all 0 annihilates any product. */
  lemma MulZeroLeft(a: Matrix, b: Matrix)
    requires Valid(a) && Valid(b) && CanMul(a, b)
    requires forall k :: 0 <= k < |a.data| ==> a.data[k] == 0
    ensures forall i: nat, j: nat :: i < a.rows && j < b.cols ==> At(Mul(a, b), i, j) == 0
  {
    forall i: nat, j: nat | i < a.rows && j < b.cols
      ensures At(Mul(a, b), i, j) == 0
    {
      var row := Row(a, i);
      forall t | 0 <= t < |row|
        ensures row[t] == 0
      {
        IndexInBounds(a.rows, a.cols, i, t);
      }
      DotZeroLeft(row, Column(b, j));
    }
  }

  // ---------------------------------------------------------------------
  // Multiplication, as written: each pass of the innermost loop assigns

  /** What the cell `(i, j)` of `a * b` holds after the source's loops: the
      last product term only, or `Default` when there is no term. */
  function LastTerm(a: Matrix, b: Matrix, i: nat, j: nat): int
    requires Valid(a) && Valid(b) && CanMul(a, b) && i < a.rows && j < b.cols
  {
    if a.cols == 0 then Default
    else Default + At(a, i, a.cols - 1) * At(b, a.cols - 1, j)
  }

  /** The product the loops of `mul` compute, in closed form: every cell
      holds its last product term. */
  function MulLast(a: Matrix, b: Matrix): (r: Matrix)
    requires Valid(a) && Valid(b) && CanMul(a, b)
    ensures Valid(r) && r.rows == a.rows && r.cols == b.cols
    ensures forall i: nat, j: nat :: i < r.rows && j < r.cols ==> At(r, i, j) == LastTerm(a, b, i, j)
  {
    Tabulate(a.rows, b.cols,
      (i: nat, j: nat) => if i < a.rows && j < b.cols then LastTerm(a, b, i, j) else Default)
  }

  /** With a single product term per cell, assigning and accumulating
      agree: the product as written is the intended one. */
  lemma MulLastSingleTerm(a: Matrix, b: Matrix)
    requires Valid(a) && Valid(b) && CanMul(a, b) && a.cols == 1
    ensures MulLast(a, b) == Mul(a, b)
  {
    forall i: nat, j: nat | i < a.rows && j < b.cols
      ensures At(MulLast(a, b), i, j) == At(Mul(a, b), i, j)
    {
      var u, v := Row(a, i), Column(b, j);
      assert u[..0] == [] && v[..0] == [];
      assert Dot(u, v) == Default + u[0] * v[0];
    }
    CellsDetermine(MulLast(a, b), Mul(a, b));
  }

  /** Whether cell `(i', j')` comes before cell `(i, j)` in the row-major
      order in which the loops of `mul` visit them. */
  predicate Before(i': nat, j': nat, i: nat, j: nat) {
    i' < i || (i' == i && j' < j)
  }

  /** What the cells of `dst` hold once the loops of `mul` have finished
      every cell before `(i, j)`. */
  predicate FilledBefore(a: Matrix, b: Matrix, dst: Matrix, i: nat, j: nat)
    requires Valid(a) && Valid(b) && CanMul(a, b)
  {
    && Valid(dst) && dst.rows == a.rows && dst.cols == b.cols
    && forall i': nat, j': nat :: i' < a.rows && j' < b.cols ==>
         At(dst, i', j') == if Before(i', j', i, j) then LastTerm(a, b, i', j') else Default
  }

  /** The innermost loop of `mul` as written, for one cell: each pass
      overwrites the cell with the current product term. */
  method MulCellAsWritten(a: Matrix, b: Matrix, dst0: Matrix, i: nat, j: nat) returns (dst: Matrix)
    requires Valid(a) && Valid(b) && CanMul(a, b) && i < a.rows && j < b.cols
    requires FilledBefore(a, b, dst0, i, j)
    ensures FilledBefore(a, b, dst, i, j + 1)
  {
    dst := dst0;
    var k := 0;
    while k < a.cols
      invariant 0 <= k <= a.cols
      invariant Valid(dst) && dst.rows == a.rows && dst.cols == b.cols
      invariant forall i': nat, j': nat :: i' < a.rows && j' < b.cols && (i' != i || j' != j) ==>
        At(dst, i', j') == At(dst0, i', j')
      invariant At(dst, i, j) == if k == 0 then Default else Default + At(a, i, k - 1) * At(b, k - 1, j)
    {
      GetCheckedAgreesInRange(a, i, k);
      GetCheckedAgreesInRange(b, k, j);
      var x := Get(a, i, k);
      var y := Get(b, k, j);
      UpdateAt(dst, i, j, Default + x.value * y.value);
      var written := Update(dst, i, j, Default + x.value * y.value);
      dst := written.value;
      k := k + 1;
    }
  }

  /** The middle loop of `mul` as written, over the columns of row `i`. */
  method MulRowAsWritten(a: Matrix, b: Matrix, dst0: Matrix, i: nat) returns (dst: Matrix)
    requires Valid(a) && Valid(b) && CanMul(a, b) && i < a.rows
    requires FilledBefore(a, b, dst0, i, 0)
    ensures FilledBefore(a, b, dst, i + 1, 0)
  {
    dst := dst0;
    var j := 0;
    while j < b.cols
      invariant 0 <= j <= b.cols
      invariant FilledBefore(a, b, dst, i, j)
    {
      dst := MulCellAsWritten(a, b, dst, i, j);
      j := j + 1;
    }
  }

  /** `a * b` as written: the triple loop of the source, which assigns each
      product term to the cell instead of adding it, so each cell ends up
      holding only the last term. */
  method MulAsWritten(a: Matrix, b: Matrix) returns (dst: Matrix)
    requires Valid(a) && Valid(b) && CanMul(a, b)
    ensures Valid(dst) && dst.rows == a.rows && dst.cols == b.cols
    ensures forall i: nat, j: nat :: i < a.rows && j < b.cols ==> At(dst, i, j) == LastTerm(a, b, i, j)
    ensures dst == MulLast(a, b)
  {
    var created := New(a.rows, b.cols);
    dst := created.value;
    forall i': nat, j': nat | i' < a.rows && j' < b.cols
      ensures At(dst, i', j') == Default
    {
      IndexInBounds(a.rows, b.cols, i', j');
    }
    var i := 0;
    while i < dst.rows
      invariant 0 <= i <= a.rows
      invariant FilledBefore(a, b, dst, i, 0)
    {
      dst := MulRowAsWritten(a, b, dst, i);
      i := i + 1;
    }
    assert forall i': nat, j': nat :: i' < a.rows && j' < b.cols ==> Before(i', j', a.rows, 0);
    CellsDetermine(dst, MulLast(a, b));
  }

  /** For all-ones matrices of shapes 2 x 3 and 3 x 2, the product as
      written leaves 1 in every cell, while the dot product is 3. */
  lemma MulAssignDropsTerms()
    ensures forall i: nat, j: nat :: i < 2 && j < 2 ==> At(MulLast(Ones(2, 3), Ones(3, 2)), i, j) == 1
    ensures forall i: nat, j: nat :: i < 2 && j < 2 ==> At(Mul(Ones(2, 3), Ones(3, 2)), i, j) == 3
  {
    MulOnes(2, 3, 2);
    var a, b := Ones(2, 3), Ones(3, 2);
    forall i: nat, j: nat | i < 2 && j < 2
      ensures At(MulLast(a, b), i, j) == 1
    {
      assert At(a, i, 2) == 1 && At(b, 2, j) == 1;
    }
  }
}
