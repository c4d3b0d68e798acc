/**
 * The helpers of the graph-embedding utilities: numbering the nodes of a
 * graph, and splitting a dictionary, a list or a number into parts for a
 * given number of workers. Python's floor division and modulo are written
 * out, as are the exceptions the code raises.
 */
module GeUtils {
  import opened Wrappers

  datatype PyError = ZeroDivisionError | ValueError

  /** Python `a // b`: the floor of the quotient. */
  function FloorDiv(a: int, b: int): int
    requires b != 0
  {
    if b > 0 then a / b else (-a) / (-b)
  }

  /** Python `a % b`: the remainder takes the sign of the divisor. */
  function PyMod(a: int, b: int): int
    requires b != 0
  {
    a - b * FloorDiv(a, b)
  }

  /** For a positive divisor Python's `//` and `%` are Dafny's. */
  lemma PositiveDivisor(a: int, b: int)
    requires b > 0
    ensures FloorDiv(a, b) == a / b && PyMod(a, b) == a % b
    ensures a == b * (a / b) + a % b && 0 <= a % b < b
  {
  }

  /** The quotient and remainder of `k * b + r` for `0 <= r < b`. */
  lemma DivModUnique(k: int, b: int, r: int)
    requires b > 0 && 0 <= r < b
    ensures (k * b + r) / b == k && (k * b + r) % b == r
  {
    var a := k * b + r;
    var q := a / b;
    assert a == b * q + a % b;
    assert b * (k - q) == a % b - r;
    if k - q >= 1 {
      MulAtLeast(b, k - q);
    } else if k - q <= -1 {
      MulAtLeast(b, q - k);
    }
  }

  lemma MulAtLeast(b: int, x: int)
    requires b > 0 && x >= 1
    ensures b * x >= b
  {
  }

  /** Python's `count % batch == 0` for either sign of `batch`, as divisibility by its size. */
  lemma PyModZero(k: int, m: int, r: int, b: int)
    requires m > 0 && (b == m || b == -m) && 0 <= r < m
    ensures PyMod(k * m + r, b) == 0 <==> r == 0
  {
    var a := k * m + r;
    DivModUnique(k, m, r);
    if b < 0 {
      if r == 0 {
        assert -a == (-k) * m;
        DivModUnique(-k, m, 0);
      } else {
        assert -a == (-k - 1) * m + (m - r);
        DivModUnique(-k - 1, m, m - r);
        assert PyMod(a, b) == a + m * (-k - 1);
      }
    }
  }

  // ----- preprocess_nxgraph -----

  /** Number the nodes in iteration order: `idx2node` lists them, `node2idx` inverts it. */
  method PreprocessNxgraph<N(==)>(nodes: seq<N>) returns (idx2node: seq<N>, node2idx: map<N, nat>)
    ensures idx2node == nodes
    ensures node2idx.Keys == set i | 0 <= i < |nodes| :: nodes[i]
    ensures forall n :: n in node2idx ==> node2idx[n] < |nodes| && idx2node[node2idx[n]] == n
    ensures forall i :: 0 <= i < |nodes| ==> i <= node2idx[nodes[i]]
  {
    node2idx := map[];
    idx2node := [];
    var nodeSize: nat := 0;
    while nodeSize < |nodes|
      invariant nodeSize <= |nodes|
      invariant idx2node == nodes[..nodeSize]
      invariant node2idx.Keys == set i | 0 <= i < nodeSize :: nodes[i]
      invariant forall n :: n in node2idx ==> node2idx[n] < nodeSize && nodes[node2idx[n]] == n
      invariant forall i :: 0 <= i < nodeSize ==> i <= node2idx[nodes[i]]
    {
      var node := nodes[nodeSize];
      node2idx := node2idx[node := nodeSize];
      idx2node := idx2node + [node];
      nodeSize := nodeSize + 1;
    }
  }

  /** When the nodes are distinct, as a graph's are, the two results are inverse. */
  lemma NumberingInverse<N>(nodes: seq<N>, idx2node: seq<N>, node2idx: map<N, nat>)
    requires forall i, j :: 0 <= i < j < |nodes| ==> nodes[i] != nodes[j]
    requires idx2node == nodes
    requires forall n :: n in node2idx ==> node2idx[n] < |nodes| && idx2node[node2idx[n]] == n
    requires forall i :: 0 <= i < |nodes| ==> nodes[i] in node2idx
    ensures forall i :: 0 <= i < |nodes| ==> node2idx[idx2node[i]] == i
  {
    forall i | 0 <= i < |nodes| ensures node2idx[idx2node[i]] == i {
      var j := node2idx[nodes[i]];
      assert nodes[j] == nodes[i];
    }
  }

  // ----- chunking -----

  /** Consecutive parts of `size` elements, the last one possibly shorter. */
  function Chunks<T>(s: seq<T>, size: nat): (r: seq<seq<T>>)
    requires size > 0
    decreases |s|
  {
    if s == [] then []
    else if |s| <= size then [s]
    else [s[..size]] + Chunks(s[size..], size)
  }

  function Concat<T>(parts: seq<seq<T>>): seq<T>
  {
    if parts == [] then [] else parts[0] + Concat(parts[1..])
  }

  lemma {:induction false} ChunksProperties<T>(s: seq<T>, size: nat)
    requires size > 0
    decreases |s|
    ensures Concat(Chunks(s, size)) == s
    ensures forall i :: 0 <= i < |Chunks(s, size)| ==> 0 < |Chunks(s, size)[i]| <= size
    ensures forall i :: 0 <= i < |Chunks(s, size)| - 1 ==> |Chunks(s, size)[i]| == size
    ensures (|Chunks(s, size)| - 1) * size < |s| <= |Chunks(s, size)| * size
  {
    if |s| > size {
      ChunksProperties(s[size..], size);
      var r := Chunks(s, size);
      assert r[1..] == Chunks(s[size..], size);
      assert s == s[..size] + s[size..];
      assert forall i :: 1 <= i < |r| ==> r[i] == Chunks(s[size..], size)[i - 1];
    }
  }

  lemma {:induction false} ChunksAppend<T>(p: seq<T>, q: seq<T>, k: nat, size: nat)
    requires size > 0 && |p| == k * size
    decreases k
    ensures Chunks(p + q, size) == Chunks(p, size) + Chunks(q, size)
  {
    if k == 0 {
      assert p == [] && p + q == q;
    } else if k == 1 {
      assert Chunks(p, size) == [p];
      if q == [] {
        assert p + q == p;
      } else {
        assert (p + q)[..size] == p && (p + q)[size..] == q;
      }
    } else {
      assert |p| > size;
      assert (p + q)[..size] == p[..size] && (p + q)[size..] == p[size..] + q;
      ChunksAppend(p[size..], q, k - 1, size);
    }
  }

  /** `(len - 1) // workers + 1`, the batch size both partitioners compute. */
  function BatchSize(n: nat, workers: int): int
    requires workers != 0
  {
    FloorDiv(n - 1, workers) + 1
  }

  /** For a positive number of workers the batch size is ceil(n / workers): the least b with b * workers >= n. */
  lemma BatchSizeIsCeiling(n: nat, workers: int)
    requires workers > 0
    ensures n == 0 ==> BatchSize(n, workers) == 0
    ensures n > 0 ==> BatchSize(n, workers) > 0
    ensures n > 0 ==> (BatchSize(n, workers) - 1) * workers < n <= BatchSize(n, workers) * workers
  {
    PositiveDivisor(n - 1, workers);
    if n == 0 {
      DivModUnique(-1, workers, workers - 1);
    }
  }

  // ----- partition_dict -----

  /** `partition_dict` over the dictionary's items in order. */
  method PartitionDict<K, V>(items: seq<(K, V)>, workers: int) returns (r: Result<seq<seq<(K, V)>>, PyError>)
    ensures workers == 0 ==> r == Err(ZeroDivisionError)
    ensures workers != 0 && items == [] ==> r == Ok([])
    ensures workers != 0 && items != [] && BatchSize(|items|, workers) == 0 ==> r == Err(ZeroDivisionError)
    ensures workers != 0 && items != [] && BatchSize(|items|, workers) != 0 ==>
      var b := BatchSize(|items|, workers);
      r == Ok(Chunks(items, if b > 0 then b else -b))
  {
    if workers == 0 {
      return Err(ZeroDivisionError);
    }
    var batchSize := FloorDiv(|items| - 1, workers) + 1;
    if items == [] {
      return Ok([]);
    }
    if batchSize == 0 {
      return Err(ZeroDivisionError);
    }
    var partList := CollectParts(items, batchSize);
    r := Ok(partList);
  }

  /** The loop of `partition_dict`: close a part whenever the running count is a multiple of the batch size. */
  method CollectParts<T>(items: seq<T>, batchSize: int) returns (partList: seq<seq<T>>)
    requires batchSize != 0
    ensures partList == Chunks(items, if batchSize > 0 then batchSize else -batchSize)
  {
    var size: nat := if batchSize > 0 then batchSize else -batchSize;
    partList := [];
    var part: seq<T> := [];
    var count := 0;
    ghost var full: nat := 0;
    ghost var start: nat := 0;
    while count < |items|
      invariant 0 <= start <= count <= |items|
      invariant start == full * size && count == start + |part| && |part| < size
      invariant part == items[start..count]
      invariant partList == Chunks(items[..start], size)
    {
      part := part + [items[count]];
      count := count + 1;
      if |part| == size {
        PyModZero(full + 1, size, 0, batchSize);
      } else {
        PyModZero(full, size, |part|, batchSize);
      }
      if PyMod(count, batchSize) == 0 {
        assert items[..count] == items[..start] + part;
        assert Chunks(part, size) == [part];
        ChunksAppend(items[..start], part, full, size);
        partList := partList + [part];
        part := [];
        full := full + 1;
        start := count;
      }
    }
    assert Chunks(part, size) == if part == [] then [] else [part];
    if |part| > 0 {
      partList := partList + [part];
    }
    assert items == items[..start] + part;
    ChunksAppend(items[..start], part, full, size);
  }

  /** With positive workers: `partition_dict` keeps the order and cuts parts of the batch size, the last one possibly shorter. */
  lemma PartitionDictParts<K, V>(items: seq<(K, V)>, workers: int)
    requires workers > 0 && items != []
    ensures BatchSize(|items|, workers) > 0
    ensures var parts := Chunks(items, BatchSize(|items|, workers));
      && Concat(parts) == items
      && (forall i :: 0 <= i < |parts| - 1 ==> |parts[i]| == BatchSize(|items|, workers))
      && 0 < |parts[|parts| - 1]| <= BatchSize(|items|, workers)
  {
    BatchSizeIsCeiling(|items|, workers);
    ChunksProperties(items, BatchSize(|items|, workers));
  }

  // ----- partition_list -----

  /** `partition_list`: slices `[prev:cur]` for `cur` in `range(batch, n + batch, batch)`. */
  method PartitionList<T>(vertices: seq<T>, workers: int) returns (r: Result<seq<seq<T>>, PyError>)
    ensures workers == 0 ==> r == Err(ZeroDivisionError)
    ensures workers != 0 && BatchSize(|vertices|, workers) == 0 ==> r == Err(ValueError)
    ensures workers != 0 && BatchSize(|vertices|, workers) < 0 ==> r == Ok([])
    ensures workers != 0 && BatchSize(|vertices|, workers) > 0 ==>
      r == Ok(Chunks(vertices, BatchSize(|vertices|, workers)))
  {
    if workers == 0 {
      return Err(ZeroDivisionError);
    }
    var numVertices := |vertices|;
    var batchSize := FloorDiv(numVertices - 1, workers) + 1;
    if batchSize == 0 {
      return Err(ValueError);
    }
    if batchSize < 0 {
      // a negative step counts down from batch, which is already below `numVertices + batch`
      return Ok([]);
    }
    var partList: seq<seq<T>> := [];
    var prev := 0;
    var cur := batchSize;
    ghost var k: nat := 0;
    while cur < numVertices + batchSize
      invariant prev == k * batchSize && cur == prev + batchSize
      invariant prev <= numVertices
      invariant partList == Chunks(vertices[..prev], batchSize)
      decreases numVertices + batchSize - cur
    {
      var part := if cur > numVertices then vertices[prev..numVertices] else vertices[prev..cur];
      ghost var next := if cur > numVertices then numVertices else cur;
      assert vertices[..next] == vertices[..prev] + part;
      assert Chunks(part, batchSize) == [part];
      ChunksAppend(vertices[..prev], part, k, batchSize);
      partList := partList + [part];
      prev := cur;
      cur := cur + batchSize;
      k := k + 1;
      if prev > numVertices {
        // the slice ran to the end: the range stops here
        assert vertices[..next] == vertices;
        return Ok(partList);
      }
    }
    assert prev == numVertices && vertices[..prev] == vertices;
    r := Ok(partList);
  }

  /**
   * With positive workers and a non-empty list: the parts concatenate to the
   * list, none is longer than ceil(n / workers), and there are at most `workers`.
   */
  lemma PartitionListParts<T>(vertices: seq<T>, workers: int)
    requires workers > 0 && vertices != []
    ensures BatchSize(|vertices|, workers) > 0
    ensures var b := BatchSize(|vertices|, workers); var parts := Chunks(vertices, b);
      && Concat(parts) == vertices
      && (forall i :: 0 <= i < |parts| ==> 0 < |parts[i]| <= b)
      && (b - 1) * workers < |vertices| <= b * workers
      && |parts| <= workers
  {
    var b := BatchSize(|vertices|, workers);
    BatchSizeIsCeiling(|vertices|, workers);
    var parts := Chunks(vertices, b);
    ChunksProperties(vertices, b);
    assert (|parts| - 1) * b < b * workers;
    if |parts| > workers {
      MulMonotone(b, workers, |parts| - 1);
    }
  }

  lemma MulMonotone(b: int, x: int, y: int)
    requires b > 0 && x <= y
    ensures b * x <= y * b
  {
  }

  /** An empty list makes the step of `range` zero. */
  lemma PartitionListEmpty<T>(workers: int)
    requires workers > 0
    ensures BatchSize(0, workers) == 0
  {
    BatchSizeIsCeiling(0, workers);
  }

  // ----- partition_num -----

  /** `[x] * k`, empty for `k <= 0`. */
  function Repeat(x: int, k: int): (r: seq<int>)
    ensures |r| == if k > 0 then k else 0
    ensures forall i :: 0 <= i < |r| ==> r[i] == x
    decreases k
  {
    if k <= 0 then [] else [x] + Repeat(x, k - 1)
  }

  function PartitionNum(num: int, workers: int): Result<seq<int>, PyError>
  {
    if workers == 0 then Err(ZeroDivisionError)
    else if PyMod(num, workers) == 0 then Ok(Repeat(FloorDiv(num, workers), workers))
    else Ok(Repeat(FloorDiv(num, workers), workers) + [PyMod(num, workers)])
  }

  function SumOf(s: seq<int>): int
  {
    if s == [] then 0 else s[0] + SumOf(s[1..])
  }

  lemma {:induction false} SumOfRepeat(x: int, k: nat)
    ensures SumOf(Repeat(x, k)) == k * x
  {
    if k > 0 {
      SumOfRepeat(x, k - 1);
    }
  }

  lemma {:induction false} SumOfAppend(a: seq<int>, b: seq<int>)
    ensures SumOf(a + b) == SumOf(a) + SumOf(b)
  {
    if a == [] {
      assert a + b == b;
    } else {
      assert (a + b)[1..] == a[1..] + b;
      SumOfAppend(a[1..], b);
    }
  }

  /** For positive workers the parts sum to `num`; there are `workers` of them exactly when it divides `num`. */
  lemma PartitionNumParts(num: int, workers: int)
    requires workers > 0
    ensures PartitionNum(num, workers).Ok?
    ensures SumOf(PartitionNum(num, workers).value) == num
    ensures |PartitionNum(num, workers).value| == if num % workers == 0 then workers else workers + 1
  {
    var q, m := FloorDiv(num, workers), PyMod(num, workers);
    PositiveDivisor(num, workers);
    SumOfRepeat(q, workers);
    if m != 0 {
      SumOfAppend(Repeat(q, workers), [m]);
      assert SumOf([m]) == m;
    }
  }
}
