/**
 * The parts of Python's `str` that the bridge relies on: whitespace,
 * strip/lstrip, replace, split, join, lower/upper and the ordering that
 * `sorted` uses on strings.
 */
module Strings {

  /** `c.isspace()`: the code points `str.split()` and `str.strip()` treat as whitespace. */
  predicate IsSpace(c: char) {
    var n := c as int;
    n == 0x20 || 0x09 <= n <= 0x0d || 0x1c <= n <= 0x1f || n == 0x85 || n == 0xa0
    || n == 0x1680 || 0x2000 <= n <= 0x200a || n == 0x2028 || n == 0x2029
    || n == 0x202f || n == 0x205f || n == 0x3000
  }

  /** The ten characters of `'0123456789'`. */
  predicate IsAsciiDigit(c: char) {
    '0' <= c <= '9'
  }

  predicate NoneSatisfy(s: string, p: char -> bool) {
    forall i :: 0 <= i < |s| ==> !p(s[i])
  }

  predicate AllSatisfy(s: string, p: char -> bool) {
    forall i :: 0 <= i < |s| ==> p(s[i])
  }

  /** `s.lstrip(chars)`, with the set of characters given as a predicate. */
  function TrimLeft(s: string, drop: char -> bool): (r: string)
    ensures |r| <= |s| && r == s[|s| - |r|..]
    ensures AllSatisfy(s[..|s| - |r|], drop)
    ensures r == [] || !drop(r[0])
    decreases |s|
  {
    if s != [] && drop(s[0]) then TrimLeft(s[1..], drop) else s
  }

  /** `s.rstrip(chars)`. */
  function TrimRight(s: string, drop: char -> bool): (r: string)
    ensures |r| <= |s| && r == s[..|r|]
    ensures AllSatisfy(s[|r|..], drop)
    ensures r == [] || !drop(r[|r| - 1])
    decreases |s|
  {
    if s != [] && drop(s[|s| - 1]) then TrimRight(s[..|s| - 1], drop) else s
  }

  /** `s.strip(chars)`: the longest slice of `s` that neither starts nor ends with a dropped character. */
  function Trim(s: string, drop: char -> bool): (r: string)
    ensures r == [] || (!drop(r[0]) && !drop(r[|r| - 1]))
  {
    TrimRight(TrimLeft(s, drop), drop)
  }

  /** What `strip` removes are dropped characters at the two ends, and nothing else. */
  lemma TrimIsSlice(s: string, drop: char -> bool)
    ensures exists i, j :: 0 <= i <= j <= |s| && Trim(s, drop) == s[i..j]
                           && AllSatisfy(s[..i], drop) && AllSatisfy(s[j..], drop)
  {
    TrimSlices(s, TrimLeft(s, drop), Trim(s, drop), drop);
  }

  /** A string that starts and ends with a kept character is its own trim. */
  lemma TrimNoop(s: string, drop: char -> bool)
    requires s != [] && !drop(s[0]) && !drop(s[|s| - 1])
    ensures Trim(s, drop) == s
  {
    assert TrimLeft(s, drop) == s;
    assert TrimRight(s, drop) == s;
  }

  /** A right-trim of a left-trim is a slice with dropped characters on both sides. */
  lemma TrimSlices(s: string, t: string, r: string, drop: char -> bool)
    requires |t| <= |s| && t == s[|s| - |t|..] && AllSatisfy(s[..|s| - |t|], drop)
    requires t == [] || !drop(t[0])
    requires |r| <= |t| && r == t[..|r|] && AllSatisfy(t[|r|..], drop)
    requires r == [] || !drop(r[|r| - 1])
    ensures exists i, j :: 0 <= i <= j <= |s| && r == s[i..j]
                           && AllSatisfy(s[..i], drop) && AllSatisfy(s[j..], drop)
    ensures r == [] || (!drop(r[0]) && !drop(r[|r| - 1]))
  {
    var i := |s| - |t|;
    var j := i + |r|;
    assert r == s[i..j];
    assert s[j..] == t[|r|..];
    if r != [] {
      assert r[0] == t[0];
    }
  }

  /** `s.replace(c, "")`. */
  function RemoveChar(s: string, c: char): (r: string)
    ensures c !in r
    ensures forall x :: x in r <==> x in s && x != c
    ensures |r| <= |s|
    ensures c !in s ==> r == s
  {
    if s == [] then [] else (if s[0] == c then [] else [s[0]]) + RemoveChar(s[1..], c)
  }

  /** The removal keeps the order of what is left: it works piece by piece. */
  lemma {:induction false} RemoveCharAppend(a: string, b: string, c: char)
    ensures RemoveChar(a + b, c) == RemoveChar(a, c) + RemoveChar(b, c)
    decreases |a|
  {
    if a != [] {
      assert (a + b)[1..] == a[1..] + b;
      RemoveCharAppend(a[1..], b, c);
    } else {
      assert a + b == b;
    }
  }

  /** `sep.join(parts)`. */
  function Join(sep: string, parts: seq<string>): string {
    if parts == [] then []
    else if |parts| == 1 then parts[0]
    else parts[0] + sep + Join(sep, parts[1..])
  }

  /** The leading whitespace of `s` dropped. */
  function SkipSpace(s: string): (r: string)
    ensures |r| <= |s| && r == s[|s| - |r|..]
    ensures AllSatisfy(s[..|s| - |r|], IsSpace)
    ensures r == [] || !IsSpace(r[0])
    decreases |s|
  {
    if s != [] && IsSpace(s[0]) then SkipSpace(s[1..]) else s
  }

  /** The longest prefix of `s` without whitespace. */
  function Word(s: string): (r: string)
    ensures |r| <= |s| && r == s[..|r|]
    ensures NoneSatisfy(r, IsSpace)
    ensures |r| < |s| ==> IsSpace(s[|r|])
    decreases |s|
  {
    if s == [] || IsSpace(s[0]) then [] else [s[0]] + Word(s[1..])
  }

  /** `s.split()` with no separator: the maximal runs of non-whitespace, in order. */
  function Split(s: string): (r: seq<string>)
    ensures forall i :: 0 <= i < |r| ==> r[i] != [] && NoneSatisfy(r[i], IsSpace)
    decreases |s|
  {
    var t := SkipSpace(s);
    if t == [] then []
    else
      var w := Word(t);
      assert w != [];
      var rest := Split(t[|w|..]);
      PartsCons(w, rest);
      [w] + rest
  }

  lemma PartsCons(w: string, rest: seq<string>)
    requires w != [] && NoneSatisfy(w, IsSpace)
    requires forall i :: 0 <= i < |rest| ==> rest[i] != [] && NoneSatisfy(rest[i], IsSpace)
    ensures forall i :: 0 <= i < |[w] + rest| ==> ([w] + rest)[i] != [] && NoneSatisfy(([w] + rest)[i], IsSpace)
  {
    forall i | 0 <= i < |[w] + rest|
      ensures ([w] + rest)[i] != [] && NoneSatisfy(([w] + rest)[i], IsSpace)
    {
      if i > 0 { assert ([w] + rest)[i] == rest[i - 1]; }
    }
  }

  /** `s.split(c)` with a one-character separator. */
  function SplitOn(s: string, c: char): (r: seq<string>)
    ensures |r| >= 1
    ensures forall i :: 0 <= i < |r| ==> c !in r[i]
    ensures c !in s ==> r == [s]
    decreases |s|
  {
    if s == [] then [[]]
    else
      var rest := SplitOn(s[1..], c);
      if s[0] == c then [[]] + rest
      else
        assert c !in s ==> c !in s[1..] && [s[0]] + s[1..] == s;
        [[s[0]] + rest[0]] + rest[1..]
  }

  /** `s.lower()` on ASCII letters; every other character is left as it is. */
  function AsciiLower(s: string): (r: string)
    ensures |r| == |s|
  {
    seq(|s|, i requires 0 <= i < |s| => if 'A' <= s[i] <= 'Z' then (s[i] as int + 32) as char else s[i])
  }

  /** `s.upper()` on ASCII letters. */
  function AsciiUpper(s: string): (r: string)
    ensures |r| == |s|
  {
    seq(|s|, i requires 0 <= i < |s| => if 'a' <= s[i] <= 'z' then (s[i] as int - 32) as char else s[i])
  }

  /** Python's `a < b` on `str`: lexicographic by code point, a proper prefix first. */
  predicate Below(a: string, b: string) {
    if a == [] then b != []
    else if b == [] then false
    else a[0] < b[0] || (a[0] == b[0] && Below(a[1..], b[1..]))
  }

  lemma {:induction false} BelowIrreflexive(a: string)
    ensures !Below(a, a)
  {
    if a != [] { BelowIrreflexive(a[1..]); }
  }

  lemma {:induction false} BelowAsymmetric(a: string, b: string)
    ensures Below(a, b) ==> !Below(b, a)
  {
    if a != [] && b != [] && a[0] == b[0] { BelowAsymmetric(a[1..], b[1..]); }
  }

  lemma {:induction false} BelowTransitive(a: string, b: string, c: string)
    requires Below(a, b) && Below(b, c)
    ensures Below(a, c)
  {
    if a != [] && a[0] == b[0] && b[0] == c[0] { BelowTransitive(a[1..], b[1..], c[1..]); }
  }

  lemma {:induction false} BelowTotal(a: string, b: string)
    ensures a == b || Below(a, b) || Below(b, a)
  {
    if a != [] && b != [] && a[0] == b[0] {
      BelowTotal(a[1..], b[1..]);
      assert a == [a[0]] + a[1..] && b == [b[0]] + b[1..];
    }
  }

  predicate IsLeast(m: string, s: set<string>) {
    m in s && forall x :: x in s && x != m ==> Below(m, x)
  }

  lemma {:induction false} LeastExists(s: set<string>)
    requires s != {}
    ensures exists m :: IsLeast(m, s)
    decreases |s|
  {
    var y :| y in s;
    if s != {y} {
      LeastExists(s - {y});
      var m :| IsLeast(m, s - {y});
      BelowTotal(y, m);
      if Below(y, m) {
        forall x | x in s && x != y ensures Below(y, x) {
          if x != m { BelowTransitive(y, m, x); }
        }
        assert IsLeast(y, s);
      } else {
        assert IsLeast(m, s);
      }
    } else {
      assert IsLeast(y, s);
    }
  }

  lemma LeastUnique(s: set<string>)
    ensures forall m, n :: IsLeast(m, s) && IsLeast(n, s) ==> m == n
  {
    forall m, n | IsLeast(m, s) && IsLeast(n, s) ensures m == n {
      BelowAsymmetric(m, n);
    }
  }

  predicate StrictlyIncreasing(r: seq<string>) {
    forall i, j :: 0 <= i < j < |r| ==> Below(r[i], r[j])
  }

  /** `sorted(s)` for a set of distinct strings. */
  function Sorted(s: set<string>): (r: seq<string>)
    ensures StrictlyIncreasing(r)
    ensures forall x :: x in r <==> x in s
    ensures |r| == |s|
    decreases |s|
  {
    if s == {} then []
    else
      LeastExists(s);
      LeastUnique(s);
      var m :| IsLeast(m, s);
      var t := Sorted(s - {m});
      SortedCons(m, s, t);
      [m] + t
  }

  /** The least element in front of the sorted rest is the sorted whole. */
  lemma SortedCons(m: string, s: set<string>, t: seq<string>)
    requires IsLeast(m, s) && StrictlyIncreasing(t)
    requires (forall x :: x in t <==> x in s - {m}) && |t| == |s - {m}|
    ensures StrictlyIncreasing([m] + t)
    ensures (forall x :: x in [m] + t <==> x in s) && |[m] + t| == |s|
  {
    var r := [m] + t;
    forall i, j | 0 <= i < j < |r| ensures Below(r[i], r[j]) {
      if i == 0 {
        assert r[j] == t[j - 1] && t[j - 1] in t;
      } else {
        assert r[i] == t[i - 1] && r[j] == t[j - 1];
      }
    }
  }

  lemma {:induction false} SplitSpaceFront(c: char, y: string)
    requires IsSpace(c)
    ensures Split([c] + y) == Split(y)
  {
    assert ([c] + y)[1..] == y;
  }

  lemma {:induction false} WordStopsAtSpace(x: string, c: char, y: string)
    requires IsSpace(c)
    ensures Word(x + [c] + y) == Word(x)
    decreases |x|
  {
    if x == [] {
      assert x + [c] + y == [c] + y;
    } else if !IsSpace(x[0]) {
      assert (x + [c] + y)[1..] == x[1..] + [c] + y;
      WordStopsAtSpace(x[1..], c, y);
    }
  }

  lemma {:induction false} SplitAtWord(s: string)
    requires s != [] && !IsSpace(s[0])
    ensures Word(s) != [] && Split(s) == [Word(s)] + Split(s[|Word(s)|..])
  {
    assert SkipSpace(s) == s;
  }

  /** A whitespace character splits the string into two independent halves. */
  lemma {:induction false} SplitAtSpace(x: string, c: char, y: string)
    requires IsSpace(c)
    ensures Split(x + [c] + y) == Split(x) + Split(y)
    decreases |x|
  {
    if x == [] {
      assert x + [c] + y == [c] + y;
      SplitSpaceFront(c, y);
    } else if IsSpace(x[0]) {
      SplitAtSpace(x[1..], c, y);
      SplitAtLeadingSpace(x, c, y);
    } else {
      var w := Word(x);
      SplitAtSpace(x[|w|..], c, y);
      SplitAtLeadingWord(x, c, y);
    }
  }

  lemma {:induction false} SplitAtLeadingSpace(x: string, c: char, y: string)
    requires IsSpace(c) && x != [] && IsSpace(x[0])
    requires Split(x[1..] + [c] + y) == Split(x[1..]) + Split(y)
    ensures Split(x + [c] + y) == Split(x) + Split(y)
  {
    SplitSkipsLeadingSpace(x, c, y);
    DropLeadingSpace(x);
  }

  lemma {:induction false} SplitSkipsLeadingSpace(x: string, c: char, y: string)
    requires IsSpace(c) && x != [] && IsSpace(x[0])
    ensures Split(x + [c] + y) == Split(x[1..] + [c] + y)
  {
    ConsOfConcat(x, c, y);
    SplitSpaceFront(x[0], x[1..] + [c] + y);
  }

  lemma ConsOfConcat(x: string, c: char, y: string)
    requires x != []
    ensures x + [c] + y == [x[0]] + (x[1..] + [c] + y)
  {
  }

  lemma {:induction false} DropLeadingSpace(x: string)
    requires x != [] && IsSpace(x[0])
    ensures Split(x) == Split(x[1..])
  {
    assert x == [x[0]] + x[1..];
    SplitSpaceFront(x[0], x[1..]);
  }

  lemma {:induction false} SplitAtLeadingWord(x: string, c: char, y: string)
    requires IsSpace(c) && x != [] && !IsSpace(x[0])
    requires Split(x[|Word(x)|..] + [c] + y) == Split(x[|Word(x)|..]) + Split(y)
    ensures Split(x + [c] + y) == Split(x) + Split(y)
  {
    SplitAtWord(x);
    SplitFirstWordBeforeSpace(x, c, y);
    ConsAssoc(Word(x), Split(x[|Word(x)|..]), Split(y));
  }

  lemma ConsAssoc(w: string, a: seq<string>, b: seq<string>)
    ensures [w] + (a + b) == ([w] + a) + b
  {
  }

  lemma {:induction false} SplitFirstWordBeforeSpace(x: string, c: char, y: string)
    requires IsSpace(c) && x != [] && !IsSpace(x[0])
    ensures Split(x + [c] + y) == [Word(x)] + Split(x[|Word(x)|..] + [c] + y)
  {
    WordStopsAtSpace(x, c, y);
    HeadOfConcat(x, c, y);
    SplitAtWord(x + [c] + y);
    SliceOfConcat(x, |Word(x)|, c, y);
  }

  lemma HeadOfConcat(x: string, c: char, y: string)
    requires x != []
    ensures x + [c] + y != [] && (x + [c] + y)[0] == x[0]
  {
  }

  lemma SliceOfConcat(x: string, k: nat, c: char, y: string)
    requires k <= |x|
    ensures (x + [c] + y)[k..] == x[k..] + [c] + y
  {
  }

  lemma {:induction false} WordOfNoSpace(w: string)
    requires NoneSatisfy(w, IsSpace)
    ensures Word(w) == w
  {
    if w != [] { WordOfNoSpace(w[1..]); assert w == [w[0]] + w[1..]; }
  }

  lemma {:induction false} SplitOfWord(w: string)
    requires w != [] && NoneSatisfy(w, IsSpace)
    ensures Split(w) == [w]
  {
    WordOfNoSpace(w);
    assert SkipSpace(w) == w;
    assert w[|w|..] == [];
  }

  lemma {:induction false} JoinAppend(sep: string, a: seq<string>, b: seq<string>)
    requires a != [] && b != []
    ensures Join(sep, a + b) == Join(sep, a) + sep + Join(sep, b)
    decreases |a|
  {
    if |a| == 1 {
      assert (a + b)[1..] == b;
    } else {
      assert (a + b)[1..] == a[1..] + b;
      JoinAppend(sep, a[1..], b);
    }
  }

  lemma {:induction false} JoinKeeps(sep: string, parts: seq<string>, p: char -> bool)
    requires AllSatisfy(sep, p)
    requires forall i :: 0 <= i < |parts| ==> AllSatisfy(parts[i], p)
    ensures AllSatisfy(Join(sep, parts), p)
    decreases |parts|
  {
    if |parts| > 1 { JoinKeeps(sep, parts[1..], p); }
  }

  /** `c.join(s.split(c)) == s`. */
  lemma {:induction false} JoinSplitOn(s: string, c: char)
    ensures Join([c], SplitOn(s, c)) == s
    decreases |s|
  {
    if s != [] {
      JoinSplitOn(s[1..], c);
      var rest := SplitOn(s[1..], c);
      SplitOnStep(s[0], s[1..], c);
      assert [s[0]] + s[1..] == s;
      if s[0] == c {
        JoinCons([c], [], rest);
      } else {
        JoinPrepend([c], [s[0]], rest);
      }
    }
  }

  lemma JoinCons(sep: string, x: string, parts: seq<string>)
    requires parts != []
    ensures Join(sep, [x] + parts) == x + sep + Join(sep, parts)
  {
    assert ([x] + parts)[1..] == parts;
  }

  /** Prefixing the first part prefixes the joined string. */
  lemma JoinPrepend(sep: string, a: string, parts: seq<string>)
    requires parts != []
    ensures Join(sep, [a + parts[0]] + parts[1..]) == a + Join(sep, parts)
  {
    if |parts| > 1 {
      JoinCons(sep, a + parts[0], parts[1..]);
      assert [parts[0]] + parts[1..] == parts;
      JoinCons(sep, parts[0], parts[1..]);
    }
  }

  /** Splitting at the first separator. */
  lemma {:induction false} SplitOnFirst(a: string, c: char, b: string)
    requires c !in a
    ensures SplitOn(a + [c] + b, c) == [a] + SplitOn(b, c)
    decreases |a|
  {
    if a == [] {
      assert a + [c] + b == [c] + b;
      SplitOnStep(c, b, c);
    } else {
      var t := a[1..] + [c] + b;
      ConsOfConcat(a, c, b);
      SplitOnFirst(a[1..], c, b);
      SplitOnStep(a[0], t, c);
      HeadTail([a[1..]], SplitOn(b, c));
      assert [a[0]] + a[1..] == a;
    }
  }

  /** One character in front: a separator starts a new part, any other joins the first part. */
  lemma SplitOnStep(x: char, s: string, c: char)
    ensures SplitOn([x] + s, c) ==
      if x == c then [[]] + SplitOn(s, c) else [[x] + SplitOn(s, c)[0]] + SplitOn(s, c)[1..]
  {
    assert ([x] + s)[1..] == s;
  }

  lemma HeadTail<T>(x: seq<T>, y: seq<T>)
    requires x != []
    ensures (x + y)[0] == x[0] && (x + y)[1..] == x[1..] + y
  {
  }

  lemma SuffixKeeps(s: string, k: nat, p: char -> bool)
    requires k <= |s| && AllSatisfy(s, p)
    ensures AllSatisfy(s[k..], p)
  {
    forall i | 0 <= i < |s| - k ensures p(s[k..][i]) {
      assert s[k..][i] == s[k + i];
    }
  }

  lemma PrefixKeeps(s: string, k: nat, p: char -> bool)
    requires k <= |s| && AllSatisfy(s, p)
    ensures AllSatisfy(s[..k], p)
  {
    forall i | 0 <= i < k ensures p(s[..k][i]) {
      assert s[..k][i] == s[i];
    }
  }

  lemma ConsOf(b: string, z: string)
    requires b != []
    ensures b + z == [b[0]] + (b[1..] + z)
  {
  }

  lemma {:induction false} SplitAfterSpaces(b: string, z: string)
    requires AllSatisfy(b, IsSpace)
    ensures Split(b + z) == Split(z)
    decreases |b|
  {
    if b == [] {
      assert b + z == z;
    } else {
      DropFirstSpace(b, z);
      SplitAfterSpaces(b[1..], z);
    }
  }

  lemma {:induction false} DropFirstSpace(b: string, z: string)
    requires AllSatisfy(b, IsSpace) && b != []
    ensures Split(b + z) == Split(b[1..] + z) && AllSatisfy(b[1..], IsSpace)
  {
    ConsOf(b, z);
    SplitSpaceFront(b[0], b[1..] + z);
    SuffixKeeps(b, 1, IsSpace);
  }

  lemma {:induction false} SplitBeforeSpaces(z: string, b: string)
    requires AllSatisfy(b, IsSpace)
    ensures Split(z + b) == Split(z)
  {
    if b == [] {
      assert z + b == z;
    } else {
      SplitAtFirstOf(z, b);
      SplitAfterSpaces(b[1..], []);
      assert b[1..] + [] == b[1..];
      assert Split(z) + [] == Split(z);
    }
  }

  lemma {:induction false} SplitAtFirstOf(z: string, b: string)
    requires AllSatisfy(b, IsSpace) && b != []
    ensures Split(z + b) == Split(z) + Split(b[1..]) && AllSatisfy(b[1..], IsSpace)
  {
    SnocOf(z, b);
    SplitAtSpace(z, b[0], b[1..]);
    SuffixKeeps(b, 1, IsSpace);
  }

  lemma SnocOf(z: string, b: string)
    requires b != []
    ensures z + b == z + [b[0]] + b[1..]
  {
  }

  lemma PrefixAll(s: string, k: nat, p: char -> bool)
    requires k <= |s| && AllSatisfy(s[..k], p)
    ensures forall j :: 0 <= j < k ==> p(s[j])
  {
    assert forall j :: 0 <= j < k ==> s[..k][j] == s[j];
  }

  lemma {:induction false} SplitOfNonBlank(s: string, i: nat)
    requires i < |s| && !IsSpace(s[i])
    ensures Split(s) != []
  {
    var t := SkipSpace(s);
    PrefixAll(s, |s| - |t|, IsSpace);
    assert t != [];
  }

  /** A non-empty run of whitespace in the middle splits the input in two. */
  lemma SplitAroundBlanks(x: string, m: string, y: string)
    requires m != [] && AllSatisfy(m, IsSpace)
    ensures Split(x + m + y) == Split(x) + Split(y)
  {
    assert x + m + y == x + [m[0]] + (m[1..] + y);
    SplitAtSpace(x, m[0], m[1..] + y);
    SuffixKeeps(m, 1, IsSpace);
    SplitAfterSpaces(m[1..], y);
  }

  /** Splitting at a separator splits the two sides independently. */
  lemma {:induction false} SplitOnConcat(a: string, c: char, b: string)
    ensures SplitOn(a + [c] + b, c) == SplitOn(a, c) + SplitOn(b, c)
    decreases |a|
  {
    if a == [] {
      assert a + [c] + b == [c] + b;
      SplitOnStep(c, b, c);
    } else {
      var t := a[1..] + [c] + b;
      var r := SplitOn(a[1..], c);
      ConsOfConcat(a, c, b);
      SplitOnConcat(a[1..], c, b);
      SplitOnStep(a[0], t, c);
      SplitOnStep(a[0], a[1..], c);
      assert [a[0]] + a[1..] == a;
      HeadTail(r, SplitOn(b, c));
      if a[0] == c {
        ConsAppend([], r, SplitOn(b, c));
      } else {
        ConsAppend([a[0]] + r[0], r[1..], SplitOn(b, c));
      }
    }
  }

  lemma ConsAppend<T>(x: T, y: seq<T>, z: seq<T>)
    ensures [x] + (y + z) == [x] + y + z
  {
  }

  /** Trimming adds no character. */
  lemma TrimKeepsOut(s: string, drop: char -> bool, c: char)
    requires c !in s
    ensures c !in Trim(s, drop)
  {
    var r := Trim(s, drop);
    TrimIsSlice(s, drop);
    var i, j :| 0 <= i <= j <= |s| && r == s[i..j];
    SliceKeepsOut(s, i, j, c);
  }

  lemma SliceKeepsOut(s: string, i: nat, j: nat, c: char)
    requires c !in s && i <= j <= |s|
    ensures c !in s[i..j]
  {
    forall k | 0 <= k < j - i ensures s[i..j][k] != c {
      assert s[i..j][k] == s[i + k];
    }
  }
}
