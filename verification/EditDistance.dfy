/** Edit distance and name suggestions: crates/csilgen-common/src/error.rs. */
module EditDistance {
  import opened Basics
  import opened Bytes

  function Cost(x: char, y: char): nat {
    if x == y then 0 else 1
  }

  /** The recurrence the matrix is filled by. */
  function Distance(a: string, b: string): nat
    decreases |a| + |b|
  {
    if a == [] then |b|
    else if b == [] then |a|
    else Min(Min(Distance(Front(a), b) + 1, Distance(a, Front(b)) + 1),
             Distance(Front(a), Front(b)) + Cost(Last(a), Last(b)))
  }

  // ---- edit scripts ----------------------------------------------------------------------------------

  datatype Edit = Keep | Replace(c: char) | Delete | Insert(c: char)

  /** What a script, read along the string, turns `a` into; `None` if it does not fit `a`. */
  function Apply(script: seq<Edit>, a: string): (r: seq<string>)
    ensures |r| <= 1
    decreases |script|
  {
    if script == [] then (if a == [] then [[]] else [])
    else
      var rest := script[..|script| - 1];
      match script[|script| - 1]
      case Insert(c) => Extend(Apply(rest, a), c)
      case Delete => if a == [] then [] else Apply(rest, Front(a))
      case Keep => if a == [] then [] else Extend(Apply(rest, Front(a)), Last(a))
      case Replace(c) => if a == [] then [] else Extend(Apply(rest, Front(a)), c)
  }

  function Extend(r: seq<string>, c: char): (e: seq<string>)
    requires |r| <= 1
    ensures |e| == |r|
  {
    if r == [] then [] else [r[0] + [c]]
  }

  /** The number of insertions, deletions and substitutions. */
  function Effort(script: seq<Edit>): nat
    decreases |script|
  {
    if script == [] then 0
    else Effort(script[..|script| - 1]) + (if script[|script| - 1] == Keep then 0 else 1)
  }

  lemma ApplyMore(script: seq<Edit>, e: Edit, a: string)
    ensures Effort(script + [e]) == Effort(script) + (if e == Keep then 0 else 1)
    ensures e.Insert? ==> Apply(script + [e], a) == Extend(Apply(script, a), e.c)
    ensures a != [] && e.Delete? ==> Apply(script + [e], a) == Apply(script, Front(a))
    ensures a != [] && e.Keep? ==> Apply(script + [e], a) == Extend(Apply(script, Front(a)), Last(a))
    ensures a != [] && e.Replace? ==> Apply(script + [e], a) == Extend(Apply(script, Front(a)), e.c)
  {
    assert (script + [e])[..|script|] == script;
  }

  /** Some script reaches the distance. */
  lemma {:induction false} DistanceReached(a: string, b: string) returns (script: seq<Edit>)
    ensures Apply(script, a) == [b] && Effort(script) == Distance(a, b)
    decreases |a| + |b|
  {
    assert b != [] ==> b == Front(b) + [Last(b)];
    if a == [] && b == [] {
      script := [];
    } else if a == [] || (b != [] && Distance(a, b) == Distance(a, Front(b)) + 1) {
      var shorter := DistanceReached(a, Front(b));
      script := shorter + [Insert(Last(b))];
      ApplyMore(shorter, Insert(Last(b)), a);
    } else if b == [] || Distance(a, b) == Distance(Front(a), b) + 1 {
      var shorter := DistanceReached(Front(a), b);
      script := shorter + [Delete];
      ApplyMore(shorter, Delete, a);
    } else {
      var shorter := DistanceReached(Front(a), Front(b));
      var last := if Last(a) == Last(b) then Keep else Replace(Last(b));
      script := shorter + [last];
      ApplyMore(shorter, last, a);
    }
  }

  /** No script does it with less. */
  lemma {:induction false} DistanceLeast(script: seq<Edit>, a: string, b: string)
    requires Apply(script, a) == [b]
    ensures Distance(a, b) <= Effort(script)
    decreases |script|
  {
    if script != [] {
      var rest, last := script[..|script| - 1], script[|script| - 1];
      if last.Insert? {
        DistanceLeast(rest, a, Front(b));
        AppendOne(a, Front(b), last.c);
      } else if last.Delete? {
        DistanceLeast(rest, Front(a), b);
      } else {
        DistanceLeast(rest, Front(a), Front(b));
      }
    }
  }

  lemma {:induction false} AppendOne(a: string, b: string, c: char)
    ensures Distance(a, b + [c]) <= Distance(a, b) + 1
  {
    assert Front(b + [c]) == b;
    if a != [] {
    }
  }

  // ---- a metric ---------------------------------------------------------------------------------------

  lemma {:induction false} ZeroOnlyOnEqual(a: string, b: string)
    ensures Distance(a, b) == 0 <==> a == b
    decreases |a| + |b|
  {
    if a != [] && b != [] {
      ZeroOnlyOnEqual(Front(a), Front(b));
      assert a == Front(a) + [Last(a)] && b == Front(b) + [Last(b)];
    }
  }

  lemma {:induction false} Symmetric(a: string, b: string)
    ensures Distance(a, b) == Distance(b, a)
    decreases |a| + |b|
  {
    if a != [] && b != [] {
      Symmetric(Front(a), b);
      Symmetric(a, Front(b));
      Symmetric(Front(a), Front(b));
    }
  }

  lemma {:induction false} LengthBounds(a: string, b: string)
    ensures |a| <= |b| + Distance(a, b) && |b| <= |a| + Distance(a, b)
    ensures Distance(a, b) <= |a| + |b|
    decreases |a| + |b|
  {
    if a != [] && b != [] {
      LengthBounds(Front(a), b);
      LengthBounds(a, Front(b));
      LengthBounds(Front(a), Front(b));
    }
  }

  lemma {:induction false} Triangle(a: string, b: string, c: string)
    ensures Distance(a, c) <= Distance(a, b) + Distance(b, c)
    decreases |a| + |b| + |c|
  {
    LengthBounds(b, c);
    LengthBounds(a, b);
    LengthBounds(a, c);
    if a != [] && b != [] && c != [] {
      var ab, bc := Distance(a, b), Distance(b, c);
      if ab == Distance(Front(a), b) + 1 {
        Triangle(Front(a), b, c);
      } else if bc == Distance(b, Front(c)) + 1 {
        Triangle(a, b, Front(c));
      } else if ab == Distance(a, Front(b)) + 1 {
        if bc == Distance(Front(b), c) + 1 {
          Triangle(a, Front(b), c);
        } else {
          Triangle(a, Front(b), Front(c));
        }
      } else if bc == Distance(Front(b), c) + 1 {
        Triangle(Front(a), Front(b), c);
      } else {
        Triangle(Front(a), Front(b), Front(c));
      }
    }
  }

  // ---- the matrix routine ---------------------------------------------------------------------------------

  /** The least effort over all scripts from `s1` to `s2`. */
  method Levenshtein(s1: string, s2: string) returns (d: nat)
    ensures d == Distance(s1, s2)
    ensures exists script :: Apply(script, s1) == [s2] && Effort(script) == d
    ensures forall script :: Apply(script, s1) == [s2] ==> d <= Effort(script)
  {
    d := MatrixDistance(s1, s2);
    var best := DistanceReached(s1, s2);
    forall script | Apply(script, s1) == [s2] ensures d <= Effort(script) {
      DistanceLeast(script, s1, s2);
    }
  }

  method MatrixDistance(s1: string, s2: string) returns (d: nat)
    ensures d == Distance(s1, s2)
  {
    var len1, len2 := |s1|, |s2|;
    if len1 == 0 {
      return len2;
    }
    if len2 == 0 {
      return len1;
    }
    hide Distance;
    var matrix := new nat[len1 + 1, len2 + 1]((_, _) => 0);
    for i := 0 to len1 + 1
      invariant forall p :: 0 <= p < i ==> matrix[p, 0] == p
    {
      matrix[i, 0] := i;
    }
    for j := 0 to len2 + 1
      invariant forall p :: 0 <= p <= len1 ==> matrix[p, 0] == p
      invariant forall q :: 0 <= q < j ==> matrix[0, q] == q
    {
      matrix[0, j] := j;
    }
    forall q | 0 <= q <= len2 ensures matrix[0, q] == Distance(s1[..0], s2[..q]) {
      FirstRow(s2[..q]);
      assert s1[..0] == [];
    }
    for i := 1 to len1 + 1
      invariant forall p, q :: 0 <= p < i && 0 <= q <= len2 ==> matrix[p, q] == Distance(s1[..p], s2[..q])
      invariant forall p :: 0 <= p <= len1 ==> matrix[p, 0] == p
    {
      FillRow(matrix, s1, s2, i);
    }
    assert s1[..len1] == s1 && s2[..len2] == s2;
    d := matrix[len1, len2];
  }

  /** Row `i` from row `i - 1`; the other rows and the first column stay as they are. */
  method FillRow(matrix: array2<nat>, s1: string, s2: string, i: nat)
    requires 0 < i <= |s1| && matrix.Length0 == |s1| + 1 && matrix.Length1 == |s2| + 1
    requires matrix[i, 0] == i
    requires forall q :: 0 <= q <= |s2| ==> matrix[i - 1, q] == Distance(s1[..i - 1], s2[..q])
    modifies matrix
    ensures forall q :: 0 <= q <= |s2| ==> matrix[i, q] == Distance(s1[..i], s2[..q])
    ensures forall p, q :: 0 <= p <= |s1| && 0 <= q <= |s2| && p != i ==> matrix[p, q] == old(matrix[p, q])
    ensures matrix[i, 0] == i
  {
    hide Distance;
    FirstColumn(s1[..i]);
    assert s2[..0] == [];
    for j := 1 to |s2| + 1
      invariant forall p, q :: 0 <= p <= |s1| && 0 <= q <= |s2| && p != i ==> matrix[p, q] == old(matrix[p, q])
      invariant forall q :: 0 <= q < j ==> matrix[i, q] == Distance(s1[..i], s2[..q])
      invariant matrix[i, 0] == i
    {
      var cost := if s1[i - 1] == s2[j - 1] then 0 else 1;
      matrix[i, j] := Min(Min(matrix[i - 1, j] + 1, matrix[i, j - 1] + 1), matrix[i - 1, j - 1] + cost);
      Cell(s1, s2, i, j);
    }
  }

  lemma FirstRow(b: string)
    ensures Distance([], b) == |b|
  {
  }

  lemma FirstColumn(a: string)
    ensures Distance(a, []) == |a|
  {
  }

  lemma Cell(s1: string, s2: string, i: nat, j: nat)
    requires 0 < i <= |s1| && 0 < j <= |s2|
    ensures Distance(s1[..i], s2[..j])
         == Min(Min(Distance(s1[..i - 1], s2[..j]) + 1, Distance(s1[..i], s2[..j - 1]) + 1),
                Distance(s1[..i - 1], s2[..j - 1]) + Cost(s1[i - 1], s2[j - 1]))
  {
    hide Min, Cost;
    assert Front(s1[..i]) == s1[..i - 1] && Front(s2[..j]) == s2[..j - 1];
  }

  // ---- suggestions ------------------------------------------------------------------------------------------

  /** Bytes of a character in UTF-8; `name.len()` counts these, the distance counts characters. */
  function CharBytes(c: char): nat {
    if (c as int) < 0x80 then 1 else if (c as int) < 0x800 then 2 else if (c as int) < 0x1_0000 then 3 else 4
  }

  function ByteLength(s: string): nat {
    if s == [] then 0 else CharBytes(s[0]) + ByteLength(s[1..])
  }

  function Apart(m: nat, n: nat): nat {
    if m < n then n - m else m - n
  }

  predicate CloseEnough(input: string, name: string) {
    Distance(input, name) <= 2
  }

  predicate SimilarLength(input: string, name: string) {
    Apart(ByteLength(name), ByteLength(input)) <= 2
  }

  lemma {:induction false} AsciiByteLength(s: string)
    requires IsAscii(s)
    ensures ByteLength(s) == |s|
  {
    if s != [] {
      AsciiByteLength(s[1..]);
    }
  }

  /** Between ASCII names the length filter removes nothing the distance filter keeps. */
  lemma {:induction false} LengthFilterRedundant(input: string, name: string)
    requires IsAscii(input) && IsAscii(name) && CloseEnough(input, name)
    ensures SimilarLength(input, name)
  {
    AsciiByteLength(input);
    AsciiByteLength(name);
    LengthBounds(input, name);
  }

  /** Beyond ASCII it can: one substitution may change the byte length by three. */
  lemma LengthFilterMatters()
    ensures CloseEnough("a", "\U{1F600}") && !SimilarLength("a", "\U{1F600}")
  {
    var a, b := "a", "\U{1F600}";
    assert Front(a) == [] && Front(b) == [];
    assert a[1..] == [] && b[1..] == [];
    assert ByteLength(b) == CharBytes(b[0]);
  }

  predicate Over(s: string, alphabet: set<char>) {
    forall c | c in s :: c in alphabet
  }

  /** Two edits make any character twice out of nothing. */
  lemma Doubled(c: char)
    ensures CloseEnough("", [c, c]) && Apart(ByteLength([c, c]), ByteLength("")) == 2 * CharBytes(c)
  {
    FirstRow([c, c]);
    assert [c, c][1..] == [c] && [c][1..] == [];
  }

  /** The length filter removes nothing the distance filter keeps exactly when the names are written in
      ASCII characters alone. */
  lemma {:induction false} LengthFilterExact(alphabet: set<char>)
    ensures (forall a, b | Over(a, alphabet) && Over(b, alphabet) && CloseEnough(a, b) :: SimilarLength(a, b))
       <==> forall c | c in alphabet :: (c as int) < 0x80
  {
    hide CloseEnough, SimilarLength;
    if forall c | c in alphabet :: (c as int) < 0x80 {
      forall a, b | Over(a, alphabet) && Over(b, alphabet) && CloseEnough(a, b) ensures SimilarLength(a, b) {
        AsciiOver(a, alphabet);
        AsciiOver(b, alphabet);
        LengthFilterRedundant(a, b);
      }
    } else {
      var c :| c in alphabet && (c as int) >= 0x80;
      Doubled(c);
      assert Over("", alphabet) && Over([c, c], alphabet);
      assert !SimilarLength("", [c, c]) by { TooLong(c); }
    }
  }

  lemma AsciiOver(s: string, alphabet: set<char>)
    requires Over(s, alphabet) && forall c | c in alphabet :: (c as int) < 0x80
    ensures IsAscii(s)
  {
    forall i | 0 <= i < |s| ensures s[i] as int < 128 {
      assert s[i] in s;
    }
  }

  lemma TooLong(c: char)
    requires (c as int) >= 0x80
    ensures !SimilarLength("", [c, c])
  {
    Doubled(c);
  }

  datatype Suggestion = Suggestion(name: string, distance: nat)

  /** The names both filters keep, with their distances, in the given order. */
  function Matches(input: string, names: seq<string>): seq<Suggestion> {
    if names == [] then []
    else (if CloseEnough(input, names[0]) && SimilarLength(input, names[0])
          then [Suggestion(names[0], Distance(input, names[0]))] else [])
         + Matches(input, names[1..])
  }

  /** Character by character; the same order as comparing UTF-8 bytes. */
  predicate NotAfter(a: string, b: string) {
    a == [] || (b != [] && (a[0] < b[0] || (a[0] == b[0] && NotAfter(a[1..], b[1..]))))
  }

  predicate Before(x: Suggestion, y: Suggestion) {
    x.distance < y.distance || (x.distance == y.distance && NotAfter(x.name, y.name))
  }

  predicate Ranked(s: seq<Suggestion>) {
    forall i, j :: 0 <= i < j < |s| ==> Before(s[i], s[j])
  }

  lemma {:induction false} NotAfterTotal(a: string, b: string)
    ensures NotAfter(a, b) || NotAfter(b, a)
  {
    if a != [] && b != [] && a[0] == b[0] {
      NotAfterTotal(a[1..], b[1..]);
    }
  }

  lemma {:induction false} NotAfterTransitive(a: string, b: string, c: string)
    requires NotAfter(a, b) && NotAfter(b, c)
    ensures NotAfter(a, c)
  {
    if a != [] && b != [] && c != [] && a[0] == b[0] == c[0] {
      NotAfterTransitive(a[1..], b[1..], c[1..]);
    }
  }

  lemma BeforeTransitive(x: Suggestion, y: Suggestion, z: Suggestion)
    requires Before(x, y) && Before(y, z)
    ensures Before(x, z)
  {
    if x.distance == y.distance == z.distance {
      NotAfterTransitive(x.name, y.name, z.name);
    }
  }

  function Names(s: seq<Suggestion>): seq<string> {
    seq(|s|, i requires 0 <= i < |s| => s[i].name)
  }

  /** Up to three of the kept names: the best of them, by distance and then by name. */
  method SuggestSimilarNames(input: string, names: seq<string>) returns (r: seq<string>)
    ensures exists ranked ::
              && multiset(ranked) == multiset(Matches(input, names)) && Ranked(ranked)
              && r == Names(ranked[..Min(3, |ranked|)])
  {
    hide Matches, Ranked;
    var suggestions := Similar(input, names);
    var ranked := Rank(suggestions);
    r := Names(ranked[..Min(3, |ranked|)]);
  }

  method Similar(input: string, names: seq<string>) returns (suggestions: seq<Suggestion>)
    ensures suggestions == Matches(input, names)
  {
    hide Distance, ByteLength;
    suggestions := [];
    assert names[0..] == names;
    for i := 0 to |names|
      invariant Matches(input, names) == suggestions + Matches(input, names[i..])
    {
      var distance := MatrixDistance(input, names[i]);
      if distance <= 2 && Apart(ByteLength(names[i]), ByteLength(input)) <= 2 {
        suggestions := suggestions + [Suggestion(names[i], distance)];
      }
      assert names[i..][1..] == names[i + 1..];
    }
  }

  method Rank(suggestions: seq<Suggestion>) returns (ranked: seq<Suggestion>)
    ensures multiset(ranked) == multiset(suggestions) && Ranked(ranked)
  {
    ranked := [];
    for i := 0 to |suggestions|
      invariant multiset(ranked) == multiset(suggestions[..i]) && Ranked(ranked)
    {
      ranked := InsertRanked(ranked, suggestions[i]);
      assert suggestions[..i + 1] == suggestions[..i] + [suggestions[i]];
    }
    assert suggestions[..|suggestions|] == suggestions;
  }

  /** Places `x` behind everything that is not after it. */
  method InsertRanked(ranked: seq<Suggestion>, x: Suggestion) returns (r: seq<Suggestion>)
    requires Ranked(ranked)
    ensures multiset(r) == multiset(ranked) + multiset{x} && Ranked(r)
  {
    hide Before, Ranked;
    var k: nat := |ranked|;
    while k > 0 && !Before(ranked[k - 1], x)
      invariant k <= |ranked|
      invariant forall i :: k <= i < |ranked| ==> Before(x, ranked[i])
    {
      BeforeTotal(ranked[k - 1], x);
      k := k - 1;
    }
    forall i | 0 <= i < k ensures Before(ranked[i], x) {
      if i < k - 1 {
        RankedPair(ranked, i, k - 1);
        BeforeTransitive(ranked[i], ranked[k - 1], x);
      }
    }
    Placed(ranked, k, x);
    r := ranked[..k] + [x] + ranked[k..];
  }

  lemma RankedPair(ranked: seq<Suggestion>, i: nat, j: nat)
    requires Ranked(ranked) && i < j < |ranked|
    ensures Before(ranked[i], ranked[j])
  {
  }

  lemma Placed(ranked: seq<Suggestion>, k: nat, x: Suggestion)
    requires Ranked(ranked) && k <= |ranked|
    requires forall i :: 0 <= i < k ==> Before(ranked[i], x)
    requires forall i :: k <= i < |ranked| ==> Before(x, ranked[i])
    ensures var r := ranked[..k] + [x] + ranked[k..];
            multiset(r) == multiset(ranked) + multiset{x} && Ranked(r)
  {
    hide Before;
    var r := ranked[..k] + [x] + ranked[k..];
    assert ranked == ranked[..k] + ranked[k..];
    forall i, j | 0 <= i < j < |r| ensures Before(r[i], r[j]) {
      var p, q := if i < k then i else i - 1, if j < k then j else j - 1;
      assert i != k ==> r[i] == ranked[p];
      assert j != k ==> r[j] == ranked[q];
    }
  }

  lemma BeforeTotal(x: Suggestion, y: Suggestion)
    ensures Before(x, y) || Before(y, x)
  {
    NotAfterTotal(x.name, y.name);
  }
}
