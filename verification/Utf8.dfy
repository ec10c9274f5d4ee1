/** UTF-8 validity, following the grammar in section 4 of RFC 3629. */
module Utf8 {
  import opened Bytes

  /** What the grammar may still read: `Tails(k)` is `k` more continuation bytes, and the
      four named states narrow the byte after E0, ED, F0 and F4 (no overlong form, no
      surrogate, nothing above U+10FFFF). */
  datatype State = Start | Tails(k: nat) | AfterE0 | AfterED | AfterF0 | AfterF4 | Reject

  function Next(s: State, x: byte): State {
    match s
    case Start =>
      if x <= 0x7F then Start
      else if 0xC2 <= x <= 0xDF then Tails(1)
      else if x == 0xE0 then AfterE0
      else if x == 0xED then AfterED
      else if 0xE1 <= x <= 0xEF then Tails(2)
      else if x == 0xF0 then AfterF0
      else if x == 0xF4 then AfterF4
      else if 0xF1 <= x <= 0xF3 then Tails(3)
      else Reject
    case Tails(k) => if 0x80 <= x <= 0xBF then (if k <= 1 then Start else Tails(k - 1)) else Reject
    case AfterE0 => if 0xA0 <= x <= 0xBF then Tails(1) else Reject
    case AfterED => if 0x80 <= x <= 0x9F then Tails(1) else Reject
    case AfterF0 => if 0x90 <= x <= 0xBF then Tails(2) else Reject
    case AfterF4 => if 0x80 <= x <= 0x8F then Tails(2) else Reject
    case Reject => Reject
  }

  function Run(s: State, b: seq<byte>): State
    decreases b
  {
    if b == [] then s else Run(Next(s, b[0]), b[1..])
  }

  predicate Valid(b: seq<byte>) {
    Run(Start, b) == Start
  }

  lemma {:induction false} RunConcat(s: State, a: seq<byte>, b: seq<byte>)
    ensures Run(s, a + b) == Run(Run(s, a), b)
    decreases a
  {
    if a == [] {
      assert a + b == b;
    } else {
      RunConcat(Next(s, a[0]), a[1..], b);
      assert (a + b)[1..] == a[1..] + b;
    }
  }

  /** Text pieces that are each valid make a valid whole. */
  lemma ValidConcat(a: seq<byte>, b: seq<byte>)
    requires Valid(a) && Valid(b)
    ensures Valid(a + b)
  {
    RunConcat(Start, a, b);
  }

  lemma {:induction false} AsciiValid(b: seq<byte>)
    requires forall i :: 0 <= i < |b| ==> b[i] < 128
    ensures Valid(b)
  {
    if b != [] {
      AsciiValid(b[1..]);
    }
  }

  // ---- what the grammar is for ---------------------------------------------------------------------------

  /** A character number that is no surrogate. */
  predicate IsScalar(c: nat) {
    c < 0xD800 || 0xE000 <= c < 0x11_0000
  }

  /** Section 3 of RFC 3629: the bits of the number in one to four octets. */
  function Octets(c: nat): seq<byte>
    requires IsScalar(c)
  {
    if c < 0x80 then [c]
    else if c < 0x800 then [0xC0 + c / 64, 0x80 + c % 64]
    else if c < 0x1_0000 then [0xE0 + c / 4096, 0x80 + c / 64 % 64, 0x80 + c % 64]
    else [0xF0 + c / 262144, 0x80 + c / 4096 % 64, 0x80 + c / 64 % 64, 0x80 + c % 64]
  }

  function Encoded(cs: seq<nat>): seq<byte>
    requires AreScalars(cs)
  {
    if cs == [] then [] else Octets(cs[0]) + Encoded(cs[1..])
  }

  predicate AreScalars(cs: seq<nat>) {
    forall i :: 0 <= i < |cs| ==> IsScalar(cs[i])
  }

  lemma RunShort(s: State, b: seq<byte>)
    requires 1 <= |b| <= 4
    ensures Run(s, b) == if |b| == 1 then Next(s, b[0])
                         else if |b| == 2 then Next(Next(s, b[0]), b[1])
                         else if |b| == 3 then Next(Next(Next(s, b[0]), b[1]), b[2])
                         else Next(Next(Next(Next(s, b[0]), b[1]), b[2]), b[3])
  {
    hide Next;
    var s1 := Next(s, b[0]);
    if |b| >= 2 {
      var s2 := Next(s1, b[1]);
      assert b[1..][1..] == b[2..] && Run(s1, b[1..]) == Run(s2, b[2..]);
      if |b| >= 3 {
        var s3 := Next(s2, b[2]);
        assert b[2..][1..] == b[3..] && Run(s2, b[2..]) == Run(s3, b[3..]);
        if |b| == 4 {
          assert b[3..][1..] == [] && Run(s3, b[3..]) == Run(Next(s3, b[3]), []);
        }
      }
    }
  }

  lemma OctetsValid(c: nat)
    requires IsScalar(c)
    ensures Valid(Octets(c))
  {
    hide Run;
    RunShort(Start, Octets(c));
  }

  lemma {:induction false} EncodedValid(cs: seq<nat>)
    requires AreScalars(cs)
    ensures Valid(Encoded(cs))
    decreases |cs|
  {
    hide Octets, IsScalar;
    if cs != [] {
      OctetsValid(cs[0]);
      EncodedValid(cs[1..]);
      ValidConcat(Octets(cs[0]), Encoded(cs[1..]));
    }
  }

  /** Valid bytes start with the octets of one character. */
  lemma {:induction false} FirstCharacter(b: seq<byte>) returns (c: nat)
    requires Valid(b) && b != []
    ensures IsScalar(c) && Octets(c) <= b && Valid(b[|Octets(c)|..])
  {
    hide Run;
    var n := if b[0] < 0x80 then 1 else if b[0] < 0xE0 then 2 else if b[0] < 0xF0 then 3 else 4;
    LongEnough(b, n);
    RunConcat(Start, b[..n], b[n..]);
    assert b[..n] + b[n..] == b;
    RunShort(Start, b[..n]);
    RejectStays(b[n..]);
    c := Joined(b[..n]);
    JoinedOctets(b[..n]);
  }

  /** The character number of one character's octets. */
  function Joined(b: seq<byte>): int
    requires 1 <= |b| <= 4
  {
    if |b| == 1 then b[0]
    else if |b| == 2 then (b[0] as int - 0xC0) * 64 + (b[1] as int - 0x80)
    else if |b| == 3 then (b[0] as int - 0xE0) * 4096 + (b[1] as int - 0x80) * 64 + (b[2] as int - 0x80)
    else
      (b[0] as int - 0xF0) * 262144 + (b[1] as int - 0x80) * 4096 + (b[2] as int - 0x80) * 64 + (b[3] as int - 0x80)
  }

  lemma JoinedOctets(b: seq<byte>)
    requires 1 <= |b| <= 4
    requires |b| == if b[0] < 0x80 then 1 else if b[0] < 0xE0 then 2 else if b[0] < 0xF0 then 3 else 4
    requires Run(Start, b) == Start
    ensures Joined(b) >= 0 && IsScalar(Joined(b)) && Octets(Joined(b)) == b
  {
    hide Run, Octets, Joined;
    RunShort(Start, b);
    if |b| == 1 {
      assert Joined(b) == b[0] && Octets(b[0]) == b by { OneOctet(b); }
    } else if |b| == 2 {
      TwoOctets(b, b[0] as int - 0xC0, b[1] as int - 0x80);
    } else if |b| == 3 {
      ThreeOctets(b, b[0] as int - 0xE0, b[1] as int - 0x80, b[2] as int - 0x80);
    } else {
      FourOctets(b, b[0] as int - 0xF0, b[1] as int - 0x80, b[2] as int - 0x80, b[3] as int - 0x80);
    }
  }

  lemma OneOctet(b: seq<byte>)
    requires |b| == 1 && b[0] < 0x80
    ensures Joined(b) == b[0] && Octets(b[0]) == b
  {
  }

  lemma TwoOctets(b: seq<byte>, u: nat, x: nat)
    requires b == [0xC0 + u, 0x80 + x] && 2 <= u < 32 && x < 64
    ensures Joined(b) == 64 * u + x && IsScalar(Joined(b)) && Octets(Joined(b)) == b
  {
    assert (64 * u + x) / 64 == u && (64 * u + x) % 64 == x;
  }

  lemma ThreeOctets(b: seq<byte>, u: nat, x: nat, y: nat)
    requires b == [0xE0 + u, 0x80 + x, 0x80 + y] && u < 16 && x < 64 && y < 64
    requires (u == 0 ==> x >= 32) && (u == 13 ==> x < 32)
    ensures Joined(b) == 4096 * u + 64 * x + y && IsScalar(Joined(b)) && Octets(Joined(b)) == b
  {
    var c := 4096 * u + 64 * x + y;
    assert c / 4096 == u && c / 64 == 64 * u + x && c % 64 == y;
    assert c / 64 % 64 == x;
  }

  lemma FourOctets(b: seq<byte>, u: nat, x: nat, y: nat, z: nat)
    requires b == [0xF0 + u, 0x80 + x, 0x80 + y, 0x80 + z] && u < 5 && x < 64 && y < 64 && z < 64
    requires (u == 0 ==> x >= 16) && (u == 4 ==> x < 16)
    ensures Joined(b) == 262144 * u + 4096 * x + 64 * y + z && IsScalar(Joined(b)) && Octets(Joined(b)) == b
  {
    var c := 262144 * u + 4096 * x + 64 * y + z;
    assert c / 262144 == u && c / 4096 == 64 * u + x && c / 64 == 4096 * u + 64 * x + y && c % 64 == z;
    assert c / 4096 % 64 == x && c / 64 % 64 == y;
  }

  lemma {:induction false} RejectStays(b: seq<byte>)
    ensures Run(Reject, b) == Reject
    decreases |b|
  {
    if b != [] {
      RejectStays(b[1..]);
    }
  }

  /** A character that is begun is finished. */
  lemma {:induction false} LongEnough(b: seq<byte>, n: nat)
    requires Valid(b) && b != []
    requires n == if b[0] < 0x80 then 1 else if b[0] < 0xE0 then 2 else if b[0] < 0xF0 then 3 else 4
    ensures |b| >= n
  {
    hide Run;
    if |b| < 4 {
      RunShort(Start, b);
    }
  }

  /** Main result: bytes are valid exactly when they are the octets of a list of characters. */
  lemma {:induction false} ValidExactly(b: seq<byte>)
    ensures Valid(b) <==> exists cs :: AreScalars(cs) && Encoded(cs) == b
  {
    hide Run, Octets, IsScalar;
    if Valid(b) {
      var cs := Characters(b);
    }
    if cs :| AreScalars(cs) && Encoded(cs) == b {
      EncodedValid(cs);
    }
  }

  lemma {:induction false} Characters(b: seq<byte>) returns (cs: seq<nat>)
    requires Valid(b)
    ensures AreScalars(cs) && Encoded(cs) == b
    decreases |b|
  {
    hide Run, Octets, IsScalar;
    if b == [] {
      cs := [];
    } else {
      var c := FirstCharacter(b);
      OctetsSome(c);
      var k := |Octets(c)|;
      var rest := Characters(b[k..]);
      cs := [c] + rest;
      assert cs[1..] == rest && b == Octets(c) + b[k..];
    }
  }

  lemma OctetsSome(c: nat)
    requires IsScalar(c)
    ensures Octets(c) != []
  {
  }
}
