/** Bytes, machine integers and big-endian byte strings, shared by every wire format. */
module Bytes {

  type byte = x: int | 0 <= x < 256
  type u64 = x: int | 0 <= x < 0x1_0000_0000_0000_0000
  type i64 = x: int | -0x8000_0000_0000_0000 <= x < 0x8000_0000_0000_0000

  datatype Option<+T> = None | Some(value: T)

  datatype Result<+T, +E> = Ok(value: T) | Err(error: E) {
    predicate IsFailure() {
      Err?
    }

    function PropagateFailure<U>(): Result<U, E>
      requires Err?
    {
      Err(error)
    }

    function Extract(): T
      requires Ok?
    {
      value
    }
  }

  /** `256^k`, for the handful of widths a CBOR argument or a frame prefix can have. */
  function Pow256(k: nat): (r: nat)
    ensures r > 0
  {
    if k == 0 then 1 else 256 * Pow256(k - 1)
  }

  /** The `k` low-order bytes of `n`, most significant first. */
  function BigEndian(n: nat, k: nat): (b: seq<byte>)
    ensures |b| == k
  {
    if k == 0 then [] else BigEndian(n / 256, k - 1) + [n % 256]
  }

  function FromBigEndian(b: seq<byte>): nat {
    if b == [] then 0 else FromBigEndian(b[..|b| - 1]) * 256 + b[|b| - 1]
  }

  lemma {:induction false} BigEndianRoundTrip(n: nat, k: nat)
    requires n < Pow256(k)
    ensures FromBigEndian(BigEndian(n, k)) == n
  {
    if k > 0 {
      BigEndianRoundTrip(n / 256, k - 1);
      assert BigEndian(n, k)[..k - 1] == BigEndian(n / 256, k - 1);
    }
  }

  lemma {:induction false} FromBigEndianRoundTrip(b: seq<byte>)
    ensures FromBigEndian(b) < Pow256(|b|)
    ensures BigEndian(FromBigEndian(b), |b|) == b
  {
    if b != [] {
      var front := b[..|b| - 1];
      FromBigEndianRoundTrip(front);
      assert b == front + [b[|b| - 1]];
    }
  }

  /** A prefix made of two parts is the first part followed by the second. */
  lemma PrefixSplit<T>(s: seq<T>, t: seq<T>, b: seq<T>)
    ensures s + t <= b <==> s <= b && t <= b[|s|..]
  {
    if s <= b && t <= b[|s|..] {
      assert b == s + b[|s|..];
      assert b[|s|..] == t + b[|s|..][|t|..];
      assert b == (s + t) + b[|s|..][|t|..];
    }
    if s + t <= b {
      assert b == (s + t) + b[|s + t|..];
      assert b == s + (t + b[|s + t|..]);
    }
  }

  lemma TakeSplit<T>(b: seq<T>, n: nat, k: nat)
    requires n + k <= |b|
    ensures b[..n + k] == b[..n] + b[n..][..k]
  {
  }

  /** The bytes of an ASCII field name. */
  function Ascii(s: string): (b: seq<byte>)
    ensures |b| == |s|
  {
    seq(|s|, i requires 0 <= i < |s| => s[i] as int % 256)
  }

  predicate IsAscii(s: string) {
    forall i :: 0 <= i < |s| ==> s[i] as int < 128
  }

  lemma AsciiInjective(s: string, t: string)
    requires IsAscii(s) && IsAscii(t)
    ensures Ascii(s) == Ascii(t) <==> s == t
  {
    if Ascii(s) == Ascii(t) {
      assert forall i :: 0 <= i < |s| ==> Ascii(s)[i] == s[i] as int && Ascii(t)[i] == t[i] as int;
    }
  }
}
