/** Shared vocabulary: Go's fixed-width numbers, byte strings, and results. */
module Base {

  /** One byte of a Go string or slice. */
  newtype byte = x: int | 0 <= x < 0x100

  /** A Go string: an immutable sequence of bytes. */
  type Bytes = seq<byte>

  const TWO_63: int := 0x8000_0000_0000_0000
  const TWO_64: int := 0x1_0000_0000_0000_0000

  type Uint32 = x: int | 0 <= x < 0x1_0000_0000
  type Uint64 = x: int | 0 <= x < TWO_64
  type Int64 = x: int | -TWO_63 <= x < TWO_63

  /** Two's-complement wrap-around of int64 arithmetic. */
  function Wrap64(x: int): (r: Int64)
    ensures -TWO_63 <= x < TWO_63 ==> r == x
  {
    (x + TWO_63) % TWO_64 - TWO_63
  }

  datatype Option<+T> = None | Some(value: T)

  datatype Result<+T, +E> = Ok(value: T) | Err(error: E)

  /** Go's `<` on strings: bytewise lexicographic. */
  predicate LexLess(a: Bytes, b: Bytes) {
    if b == [] then false
    else if a == [] then true
    else a[0] < b[0] || (a[0] == b[0] && LexLess(a[1..], b[1..]))
  }

  lemma {:induction false} LexTrans(a: Bytes, b: Bytes, c: Bytes)
    requires LexLess(a, b) && LexLess(b, c)
    ensures LexLess(a, c)
  {
    if a != [] && a[0] == b[0] == c[0] {
      LexTrans(a[1..], b[1..], c[1..]);
    }
  }

  lemma {:induction false} LexIrreflexive(a: Bytes)
    ensures !LexLess(a, a)
  {
    if a != [] {
      LexIrreflexive(a[1..]);
    }
  }

  lemma {:induction false} LexTotal(a: Bytes, b: Bytes)
    ensures a == b || LexLess(a, b) || LexLess(b, a)
  {
    if a != [] && b != [] && a[0] == b[0] {
      LexTotal(a[1..], b[1..]);
      assert a == [a[0]] + a[1..] && b == [b[0]] + b[1..];
    }
  }

  lemma LexAsymmetric(a: Bytes, b: Bytes)
    requires LexLess(a, b)
    ensures !LexLess(b, a) && a != b
  {
    LexIrreflexive(a);
    if LexLess(b, a) {
      LexTrans(a, b, a);
    }
  }

  /** Go's string order is a strict weak order. */
  lemma LexOrder(x: Bytes, y: Bytes, z: Bytes)
    ensures LexLess(x, y) ==> !LexLess(y, x)
    ensures !LexLess(y, x) && !LexLess(z, y) ==> !LexLess(z, x)
  {
    if LexLess(x, y) {
      LexAsymmetric(x, y);
    }
    if !LexLess(y, x) && !LexLess(z, y) && LexLess(z, x) {
      LexTotal(x, y);
      LexTotal(y, z);
      if x != y && y != z {
        LexTrans(x, y, z);
        LexAsymmetric(x, z);
      }
    }
  }
}
