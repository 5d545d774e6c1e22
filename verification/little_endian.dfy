/** Little-endian byte strings and the natural numbers they denote. */
module LittleEndian {
  import opened Quotients

  type byte = x: int | 0 <= x < 256

  function Pow256(k: nat): (p: nat)
    ensures 1 <= p
  {
    if k == 0 then 1 else 256 * Pow256(k - 1)
  }

  function Value(b: seq<byte>): (n: nat)
    ensures n < Pow256(|b|)
  {
    if b == [] then 0 else b[0] as int + 256 * Value(b[1..])
  }

  /** The low `k` bytes of `n`. */
  function Bytes(n: nat, k: nat): (b: seq<byte>)
    ensures |b| == k
  {
    if k == 0 then [] else [n % 256] + Bytes(n / 256, k - 1)
  }

  lemma ModStep(n: nat, p: nat)
    requires 0 < p
    ensures n % (256 * p) == n % 256 + 256 * ((n / 256) % p)
  {
    var q, r := (n / 256) / p, (n / 256) % p;
    assert n == 256 * (n / 256) + n % 256;
    assert n / 256 == q * p + r;
    var rest := n % 256 + 256 * r;
    assert n == q * (256 * p) + rest;
    assert 0 <= rest < 256 * p;
    QuotientIs(n, 256 * p, q, rest);
  }

  /** Encoding truncates to `k` bytes and otherwise loses nothing. */
  lemma {:induction false} ValueOfBytes(n: nat, k: nat)
    ensures Value(Bytes(n, k)) == n % Pow256(k)
    decreases k
  {
    if k != 0 {
      var b := Bytes(n, k);
      assert b[1..] == Bytes(n / 256, k - 1);
      ValueOfBytes(n / 256, k - 1);
      ModStep(n, Pow256(k - 1));
    }
  }

  lemma {:induction false} BytesOfValue(b: seq<byte>)
    ensures Bytes(Value(b), |b|) == b
    decreases |b|
  {
    if b != [] {
      var n := Value(b);
      assert n % 256 == b[0] as int && n / 256 == Value(b[1..]);
      BytesOfValue(b[1..]);
    }
  }

  lemma {:induction false} ValueSplit(b: seq<byte>, k: nat)
    requires k <= |b|
    ensures Value(b) == Value(b[..k]) + Pow256(k) * Value(b[k..])
    decreases k
  {
    if k == 0 {
      assert b[0..] == b;
    } else {
      ValueSplit(b[1..], k - 1);
      assert b[..k][1..] == b[1..][..k - 1];
      assert b[k..] == b[1..][k - 1..];
      assert b[..k][0] == b[0];
      Regroup(b[0], Value(b[1..][..k - 1]), Pow256(k - 1), Value(b[k..]));
    }
  }

  lemma Regroup(head: int, low: nat, p: nat, high: nat)
    ensures head + 256 * (low + p * high) == (head + 256 * low) + (256 * p) * high
  {
  }
}
