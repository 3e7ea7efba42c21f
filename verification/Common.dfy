/** What several modules share: optional values, results, bytes and powers of two. */
module Common {

  datatype Option<+T> = None | Some(value: T)

  datatype Result<+T> = Ok(value: T) | Err(message: string)

  type byte = b: int | 0 <= b < 256

  type u32 = n: int | 0 <= n < 0x1_0000_0000

  function Pow2(n: nat): (p: nat)
    ensures p > 0
  {
    if n == 0 then 1 else 2 * Pow2(n - 1)
  }

  lemma ProductUp(a: nat, b: nat, m: nat)
    requires a <= b
    ensures m * a <= m * b
  {
  }

  lemma EqualQuotients(m: nat, q: int, r: nat, q': int, r': nat)
    requires r < m && r' < m && m * q + r == m * q' + r'
    ensures q == q' && r == r'
  {
    if q > q' {
      ProductUp(1, q - q', m);
      assert false;
    }
    if q < q' {
      ProductUp(1, q' - q, m);
      assert false;
    }
  }

  /** A quotient and a remainder are the ones that fit. */
  lemma DivisionIs(m: nat, x: int, q: int, r: nat)
    requires r < m && x == m * q + r
    ensures x / m == q && x % m == r
  {
    EqualQuotients(m, q, r, x / m, x % m);
  }
}
