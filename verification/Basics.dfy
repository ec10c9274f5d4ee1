/** Small functions on numbers and sequences. */
module Basics {
  function Min(a: nat, b: nat): nat {
    if b < a then b else a
  }

  function Max(a: nat, b: nat): nat {
    if b > a then b else a
  }

  function Front<T>(s: seq<T>): seq<T>
    requires s != []
  {
    s[..|s| - 1]
  }

  function Last<T>(s: seq<T>): T
    requires s != []
  {
    s[|s| - 1]
  }

  function Digit(d: nat): char
    requires d < 10
  {
    (48 + d) as char
  }

  function Decimal(n: nat): string {
    if n < 10 then [Digit(n)] else Decimal(n / 10) + [Digit(n % 10)]
  }

  lemma HeadAndTail<T>(s: seq<T>, p: T -> bool)
    requires s != []
    ensures (forall x | x in s :: p(x)) <==> p(s[0]) && forall x | x in s[1..] :: p(x)
  {
    assert s == [s[0]] + s[1..];
  }
}
