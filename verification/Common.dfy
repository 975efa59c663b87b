/** Vocabulary shared by every module: bytes, results, Go's fixed-width integers. */
module Common {
  type Byte = x: int | 0 <= x < 256
  type Bytes = seq<Byte>

  datatype Option<+T> = None | Some(value: T)
  datatype Result<+T, +E> = Ok(value: T) | Err(error: E)

  const TWO_63: int := 0x8000_0000_0000_0000
  const TWO_64: int := 0x1_0000_0000_0000_0000

  /** Conversion to Go's int64: the representative of x modulo 2^64 in [-2^63, 2^63). */
  function Int64(x: int): (r: int)
    ensures -TWO_63 <= r < TWO_63
    ensures exists k: int :: x == r + k * TWO_64
    ensures -TWO_63 <= x < TWO_63 ==> r == x
  {
    var q := (x + TWO_63) / TWO_64;
    var r := x - q * TWO_64;
    assert x == r + q * TWO_64;
    r
  }

  /** Conversion to Go's uint64. */
  function Uint64(x: int): (r: nat)
    ensures 0 <= r < TWO_64
    ensures exists k: int :: x == r + k * TWO_64
    ensures 0 <= x < TWO_64 ==> r == x
  {
    assert x == x % TWO_64 + (x / TWO_64) * TWO_64;
    x % TWO_64
  }

  function Min(a: int, b: int): int { if a <= b then a else b }

  function Max(a: int, b: int): int { if a <= b then b else a }

  lemma SubsetIsSmaller<T>(s: set<T>, t: set<T>)
    requires s <= t
    ensures |s| <= |t| && (|s| == |t| ==> s == t)
  {
    assert t == s + (t - s);
  }
}
