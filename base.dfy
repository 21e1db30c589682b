/** Small building blocks that stand for the JavaScript built-ins the
    barbershop code leans on: optional values, Array.prototype.filter and
    .sort, String.prototype.trim / toLowerCase / includes / split /
    padStart, and Number() on decimal text. */
module Base {

  datatype Option<+T> = None | Some(value: T)

  // ---------------------------------------------------------------------
  // Sequences
  // ---------------------------------------------------------------------

  /** Array.prototype.filter: keeps, in order, the elements satisfying p. */
  function Filter<T(!new)>(s: seq<T>, p: T -> bool): (r: seq<T>)
    ensures |r| <= |s|
    ensures forall x :: x in r <==> x in s && p(x)
    ensures multiset(r) <= multiset(s)
  {
    if s == [] then []
    else
      assert s == [s[0]] + s[1..];
      (if p(s[0]) then [s[0]] else []) + Filter(s[1..], p)
  }

  /** Filtering distributes over concatenation, so it keeps the input order. */
  lemma {:induction false} FilterAppend<T(!new)>(s: seq<T>, t: seq<T>, p: T -> bool)
    ensures Filter(s + t, p) == Filter(s, p) + Filter(t, p)
  {
    if s == [] {
      assert s + t == t;
    } else {
      assert (s + t)[1..] == s[1..] + t;
      FilterAppend(s[1..], t, p);
    }
  }

  /** A filter whose predicate holds everywhere returns its input unchanged. */
  lemma {:induction false} FilterAll<T(!new)>(s: seq<T>, p: T -> bool)
    requires forall x :: x in s ==> p(x)
    ensures Filter(s, p) == s
  {
    if s != [] {
      FilterAll(s[1..], p);
    }
  }

  /** A filter that no element passes is empty. */
  lemma {:induction false} FilterNone<T(!new)>(s: seq<T>, p: T -> bool)
    requires forall x :: x in s ==> !p(x)
    ensures Filter(s, p) == []
  {
    if s != [] {
      FilterNone(s[1..], p);
    }
  }

  /** Two predicates that agree on the elements of s filter s alike. */
  lemma {:induction false} FilterCongruent<T(!new)>(s: seq<T>, p: T -> bool, q: T -> bool)
    requires forall x :: x in s ==> p(x) == q(x)
    ensures Filter(s, p) == Filter(s, q)
  {
    if s != [] {
      FilterCongruent(s[1..], p, q);
    }
  }

  /** Number of elements satisfying p (filter(...).length). */
  function Count<T(!new)>(s: seq<T>, p: T -> bool): nat
  {
    |Filter(s, p)|
  }

  /** Counting the first element and then the rest. */
  lemma CountCons<T(!new)>(s: seq<T>, p: T -> bool)
    requires s != []
    ensures Count(s, p) == (if p(s[0]) then 1 else 0) + Count(s[1..], p)
  {
  }

  /** Counting over a concatenation adds up. */
  lemma CountAppend<T(!new)>(s: seq<T>, t: seq<T>, p: T -> bool)
    ensures Count(s + t, p) == Count(s, p) + Count(t, p)
  {
    FilterAppend(s, t, p);
  }

  /** Counting a single element. */
  lemma CountSingle<T(!new)>(x: T, p: T -> bool)
    ensures Count([x], p) == if p(x) then 1 else 0
  {
    assert [x][1..] == [];
  }

  /** Replacing one element changes the count by what the two elements
      contribute. */
  lemma {:induction false} CountUpdate<T(!new)>(s: seq<T>, k: nat, x: T, p: T -> bool)
    requires k < |s|
    ensures Count(s[k := x], p) == Count(s, p) - (if p(s[k]) then 1 else 0) + (if p(x) then 1 else 0)
  {
    var t := s[k := x];
    CountCons(t, p);
    CountCons(s, p);
    if k == 0 {
      assert t[1..] == s[1..];
    } else {
      assert t[0] == s[0];
      CountUpdate(s[1..], k - 1, x, p);
      assert t[1..] == s[1..][k - 1 := x];
    }
  }

  /** A predicate and its negation split the elements between them. */
  lemma {:induction false} CountComplement<T(!new)>(s: seq<T>, p: T -> bool, q: T -> bool)
    requires forall x :: x in s ==> q(x) == !p(x)
    ensures Count(s, p) + Count(s, q) == |s|
  {
    if s != [] {
      CountComplement(s[1..], p, q);
    }
  }

  /** When p implies q everywhere on s, fewer elements satisfy p. */
  lemma {:induction false} CountMonotone<T(!new)>(s: seq<T>, p: T -> bool, q: T -> bool)
    requires forall x :: x in s && p(x) ==> q(x)
    ensures Count(s, p) <= Count(s, q)
  {
    if s != [] {
      CountMonotone(s[1..], p, q);
    }
  }

  /** Array.prototype.find: the first element satisfying p, if any. */
  function Find<T(!new)>(s: seq<T>, p: T -> bool): (r: Option<T>)
    ensures r.None? <==> forall x :: x in s ==> !p(x)
    ensures r.Some? ==> r.value in s && p(r.value)
  {
    if s == [] then None
    else if p(s[0]) then Some(s[0])
    else Find(s[1..], p)
  }

  /** Find returns the first element that passes. */
  lemma {:induction false} FindFirst<T(!new)>(s: seq<T>, p: T -> bool)
    requires Find(s, p).Some?
    ensures exists i :: (0 <= i < |s| && s[i] == Find(s, p).value && p(s[i])
      && forall j :: 0 <= j < i ==> !p(s[j]))
  {
    if !p(s[0]) {
      FindFirst(s[1..], p);
      var i :| 0 <= i < |s[1..]| && s[1..][i] == Find(s, p).value && p(s[1..][i])
        && forall j :: 0 <= j < i ==> !p(s[1..][j]);
      assert s[i + 1] == s[1..][i];
      forall j | 0 <= j < i + 1 ensures !p(s[j]) {
        if j > 0 {
          assert s[j] == s[1..][j - 1];
        }
      }
    }
  }

  /** Array.prototype.findIndex, with -1 for "not found". */
  function FindIndex<T(!new)>(s: seq<T>, p: T -> bool): (r: int)
    ensures -1 <= r < |s|
    ensures r == -1 <==> forall i :: 0 <= i < |s| ==> !p(s[i])
    ensures 0 <= r ==> p(s[r]) && forall i :: 0 <= i < r ==> !p(s[i])
  {
    if s == [] then -1
    else if p(s[0]) then 0
    else
      var k := FindIndex(s[1..], p);
      if k == -1 then -1 else k + 1
  }

  /** Array.prototype.map. */
  function Map<T(!new), U(!new)>(s: seq<T>, f: T -> U): (r: seq<U>)
    ensures |r| == |s|
    ensures forall i :: 0 <= i < |s| ==> r[i] == f(s[i])
  {
    seq(|s|, i requires 0 <= i < |s| => f(s[i]))
  }

  /** The set of f-values of the elements of s (new Set(s.map(f))). */
  function Image<T(!new), U(!new)>(s: seq<T>, f: T -> U): (r: set<U>)
    ensures forall y :: y in r <==> exists i :: 0 <= i < |s| && f(s[i]) == y
  {
    if s == [] then {}
    else
      var rest := Image(s[1..], f);
      assert forall y :: y in rest <==> exists i :: 1 <= i < |s| && f(s[i]) == y by {
        forall y | y in rest ensures exists i :: 1 <= i < |s| && f(s[i]) == y {
          var j :| 0 <= j < |s[1..]| && f(s[1..][j]) == y;
          assert f(s[j + 1]) == y;
        }
      }
      {f(s[0])} + rest
  }

  /** A set built from n elements has at most n members. */
  lemma {:induction false} ImageSize<T(!new), U(!new)>(s: seq<T>, f: T -> U)
    ensures |Image(s, f)| <= |s|
  {
    if s != [] {
      ImageSize(s[1..], f);
    }
  }

  /** Appending one element adds its value to the set. */
  lemma {:induction false} ImageAppend<T(!new), U(!new)>(s: seq<T>, x: T, f: T -> U)
    ensures Image(s + [x], f) == Image(s, f) + {f(x)}
  {
    var r := Image(s + [x], f);
    forall y ensures y in r <==> y in Image(s, f) + {f(x)} {
      if y in Image(s, f) {
        var i :| 0 <= i < |s| && f(s[i]) == y;
        assert (s + [x])[i] == s[i];
      }
      if y in r && y != f(x) {
        var i :| 0 <= i < |s + [x]| && f((s + [x])[i]) == y;
        assert i < |s| && (s + [x])[i] == s[i];
      }
      assert (s + [x])[|s|] == x;
    }
  }

  /** Sum of f over the elements (reduce((acc, x) => acc + f(x), 0)). */
  function Sum<T(!new)>(s: seq<T>, f: T -> int): int
  {
    if s == [] then 0 else f(s[0]) + Sum(s[1..], f)
  }

  /** Sums over a concatenation add up. */
  lemma {:induction false} SumAppend<T(!new)>(s: seq<T>, t: seq<T>, f: T -> int)
    ensures Sum(s + t, f) == Sum(s, f) + Sum(t, f)
  {
    if s == [] {
      assert s + t == t;
    } else {
      assert (s + t)[1..] == s[1..] + t;
      SumAppend(s[1..], t, f);
    }
  }

  // ---------------------------------------------------------------------
  // Stable descending sort
  // ---------------------------------------------------------------------

  /** A sort key: Highest sorts before every Score (the source's "null
      first"), Scores sort by value, larger first. */
  datatype Rank = Highest | Score(n: int)

  predicate RankAtLeast(a: Rank, b: Rank)
  {
    a.Highest? || (b.Score? && a.n >= b.n)
  }

  /** s is ordered by key, largest key first. */
  ghost predicate SortedDesc<T(!new)>(s: seq<T>, key: T -> Rank)
  {
    forall i, j :: 0 <= i < j < |s| ==> RankAtLeast(key(s[i]), key(s[j]))
  }

  /** The elements of s whose key is exactly k, in order. */
  function WithRank<T(!new)>(s: seq<T>, key: T -> Rank, k: Rank): seq<T>
  {
    if s == [] then [] else (if key(s[0]) == k then [s[0]] else []) + WithRank(s[1..], key, k)
  }

  lemma {:induction false} WithRankAppend<T(!new)>(s: seq<T>, t: seq<T>, key: T -> Rank, k: Rank)
    ensures WithRank(s + t, key, k) == WithRank(s, key, k) + WithRank(t, key, k)
  {
    if s == [] {
      assert s + t == t;
    } else {
      assert (s + t)[0] == s[0];
      assert (s + t)[1..] == s[1..] + t;
      WithRankAppend(s[1..], t, key, k);
      var h := if key(s[0]) == k then [s[0]] else [];
      assert WithRank(s + t, key, k) == h + WithRank(s[1..] + t, key, k);
      assert WithRank(s, key, k) == h + WithRank(s[1..], key, k);
    }
  }

  /** Inserts x before the first element whose key does not exceed x's. */
  function Insert<T(!new)>(x: T, s: seq<T>, key: T -> Rank): (r: seq<T>)
    requires SortedDesc(s, key)
    ensures SortedDesc(r, key)
    ensures multiset(r) == multiset(s) + multiset{x}
  {
    if s == [] || RankAtLeast(key(x), key(s[0])) then
      [x] + s
    else
      SortedTail(s, key);
      var rest := Insert(x, s[1..], key);
      HeadDominates(x, s, rest, key);
      SortedCons(s[0], rest, key);
      assert s == [s[0]] + s[1..];
      [s[0]] + rest
  }

  lemma SortedTail<T(!new)>(s: seq<T>, key: T -> Rank)
    requires s != [] && SortedDesc(s, key)
    ensures SortedDesc(s[1..], key)
  {
    var t := s[1..];
    forall i, j | 0 <= i < j < |t| ensures RankAtLeast(key(t[i]), key(t[j])) {
      assert t[i] == s[i + 1] && t[j] == s[j + 1];
    }
  }

  /** The head of a sorted sequence ranks at least as high as every element
      of its tail with a lower-ranked x added. */
  lemma HeadDominates<T(!new)>(x: T, s: seq<T>, rest: seq<T>, key: T -> Rank)
    requires s != [] && SortedDesc(s, key) && !RankAtLeast(key(x), key(s[0]))
    requires multiset(rest) == multiset(s[1..]) + multiset{x}
    ensures forall y :: y in rest ==> RankAtLeast(key(s[0]), key(y))
  {
    forall y | y in rest ensures RankAtLeast(key(s[0]), key(y)) {
      assert y in multiset(rest);
      if y != x {
        assert y in multiset(s[1..]);
        var j :| 0 <= j < |s[1..]| && s[1..][j] == y;
        assert s[j + 1] == y;
      }
    }
  }

  lemma SortedCons<T(!new)>(h: T, rest: seq<T>, key: T -> Rank)
    requires SortedDesc(rest, key)
    requires forall y :: y in rest ==> RankAtLeast(key(h), key(y))
    ensures SortedDesc([h] + rest, key)
  {
    var r := [h] + rest;
    forall i, j | 0 <= i < j < |r| ensures RankAtLeast(key(r[i]), key(r[j])) {
      if i == 0 {
        assert r[j] in rest;
      } else {
        assert r[i] == rest[i - 1] && r[j] == rest[j - 1];
      }
    }
  }

  /** Array.prototype.sort with a descending comparator: a stable insertion
      sort. The result is ordered and is a permutation of the input. */
  function SortDesc<T(!new)>(s: seq<T>, key: T -> Rank): (r: seq<T>)
    ensures SortedDesc(r, key)
    ensures multiset(r) == multiset(s)
    ensures |r| == |s|
  {
    if s == [] then []
    else
      assert s == [s[0]] + s[1..];
      Insert(s[0], SortDesc(s[1..], key), key)
  }

  lemma {:induction false} InsertWithRank<T(!new)>(x: T, s: seq<T>, key: T -> Rank, k: Rank)
    requires SortedDesc(s, key)
    ensures WithRank(Insert(x, s, key), key, k)
         == (if key(x) == k then [x] else []) + WithRank(s, key, k)
  {
    if s == [] || RankAtLeast(key(x), key(s[0])) {
      WithRankAppend([x], s, key, k);
    } else {
      SortedTail(s, key);
      var rest := Insert(x, s[1..], key);
      assert Insert(x, s, key) == [s[0]] + rest;
      WithRankAppend([s[0]], rest, key, k);
      InsertWithRank(x, s[1..], key, k);
      var hx := if key(x) == k then [x] else [];
      var h0 := if key(s[0]) == k then [s[0]] else [];
      var w := WithRank(s[1..], key, k);
      assert [s[0]][1..] == [];
      assert WithRank([s[0]], key, k) == h0;
      assert WithRank(s, key, k) == h0 + w;
      assert WithRank([s[0]] + rest, key, k) == h0 + (hx + w);
      assert h0 == [] || hx == [];
      SwapEmpty(h0, hx, w);
    }
  }

  /** Two pieces of which one is empty can be put in either order. */
  lemma SwapEmpty<T>(a: seq<T>, b: seq<T>, w: seq<T>)
    requires a == [] || b == []
    ensures a + (b + w) == b + (a + w)
  {
    if a == [] {
      assert a + (b + w) == b + w;
      assert a + w == w;
    } else {
      assert b + w == w;
      assert b + (a + w) == a + w;
    }
  }

  /** Stability: for every key, the elements with that key keep their
      original relative order. */
  lemma {:induction false} SortStable<T(!new)>(s: seq<T>, key: T -> Rank, k: Rank)
    ensures WithRank(SortDesc(s, key), key, k) == WithRank(s, key, k)
  {
    if s != [] {
      SortStable(s[1..], key, k);
      InsertWithRank(s[0], SortDesc(s[1..], key), key, k);
    }
  }

  // ---------------------------------------------------------------------
  // Text
  // ---------------------------------------------------------------------

  /** The characters String.prototype.trim removes: tab, vertical tab,
      form feed, the byte-order mark, every space separator (Unicode
      category Zs) and the four line terminators. */
  predicate IsWhitespace(c: char)
  {
    || c == '\t' || c == '\U{000B}' || c == '\U{000C}' || c == '\U{FEFF}'
    || c == ' ' || c == '\U{00A0}' || c == '\U{1680}' || '\U{2000}' <= c <= '\U{200A}'
    || c == '\U{202F}' || c == '\U{205F}' || c == '\U{3000}'
    || c == '\n' || c == '\r' || c == '\U{2028}' || c == '\U{2029}'
  }

  /** Drops leading white space. */
  function TrimStart(s: string): string
  {
    if s != [] && IsWhitespace(s[0]) then TrimStart(s[1..]) else s
  }

  /** Drops trailing white space. */
  function TrimEnd(s: string): string
  {
    if s != [] && IsWhitespace(s[|s| - 1]) then TrimEnd(s[..|s| - 1]) else s
  }

  /** String.prototype.trim. */
  function Trim(s: string): string
  {
    TrimEnd(TrimStart(s))
  }

  /** TrimStart keeps a suffix and drops exactly the white space before it. */
  lemma {:induction false} TrimStartFacts(s: string)
    ensures var r := TrimStart(s);
      && |r| <= |s| && r == s[|s| - |r|..]
      && (forall i :: 0 <= i < |s| - |r| ==> IsWhitespace(s[i]))
      && (r != [] ==> !IsWhitespace(r[0]))
  {
    if s != [] && IsWhitespace(s[0]) {
      var t := s[1..];
      TrimStartFacts(t);
      var r := TrimStart(t);
      assert t[|t| - |r|..] == s[|s| - |r|..];
      forall i | 0 <= i < |s| - |r| ensures IsWhitespace(s[i]) {
        if i > 0 {
          assert s[i] == t[i - 1];
        }
      }
    }
  }

  /** TrimEnd keeps a prefix and drops exactly the white space after it. */
  lemma {:induction false} TrimEndFacts(s: string)
    ensures var r := TrimEnd(s);
      && |r| <= |s| && r == s[..|r|]
      && (forall i :: |r| <= i < |s| ==> IsWhitespace(s[i]))
      && (r != [] ==> !IsWhitespace(r[|r| - 1]))
  {
    if s != [] && IsWhitespace(s[|s| - 1]) {
      var t := s[..|s| - 1];
      TrimEndFacts(t);
      var r := TrimEnd(t);
      assert t[..|r|] == s[..|r|];
      forall i | |r| <= i < |s| ensures IsWhitespace(s[i]) {
        if i < |t| {
          assert s[i] == t[i];
        }
      }
    }
  }

  /** trim() yields a slice of its input with white space exactly at the
      cut ends, and no white space at either end of the result. */
  lemma TrimSlice(s: string) returns (lo: nat, hi: nat)
    ensures lo <= hi <= |s| && Trim(s) == s[lo..hi]
    ensures forall i :: 0 <= i < lo || hi <= i < |s| ==> IsWhitespace(s[i])
    ensures Trim(s) != [] ==> !IsWhitespace(Trim(s)[0]) && !IsWhitespace(Trim(s)[|Trim(s)| - 1])
  {
    var a := TrimStart(s);
    TrimStartFacts(s);
    TrimEndFacts(a);
    lo := |s| - |a|;
    hi := lo + |TrimEnd(a)|;
    assert forall i :: hi <= i < |s| ==> s[i] == a[i - lo];
  }

  /** `!s.trim()`: the text is empty or white space only. */
  predicate IsBlank(s: string)
  {
    Trim(s) == ""
  }

  /** A string is blank exactly when every character is white space. */
  lemma {:induction false} BlankIffAllWhitespace(s: string)
    ensures IsBlank(s) <==> forall i :: 0 <= i < |s| ==> IsWhitespace(s[i])
  {
    var lo, hi := TrimSlice(s);
    if !IsBlank(s) {
      assert !IsWhitespace(s[lo]);
    }
  }

  /** A text that starts with a non-blank text is not blank. */
  lemma BlankPrefix(a: string, b: string)
    ensures IsBlank(a + b) ==> IsBlank(a)
  {
    BlankIffAllWhitespace(a);
    BlankIffAllWhitespace(a + b);
    if !IsBlank(a) {
      var i :| 0 <= i < |a| && !IsWhitespace(a[i]);
      assert (a + b)[i] == a[i];
    }
  }

  /** Trimming twice is trimming once. */
  lemma {:induction false} TrimIdempotent(s: string)
    ensures Trim(Trim(s)) == Trim(s)
  {
    var t := Trim(s);
    var lo, hi := TrimSlice(s);
    if t != [] {
      assert TrimStart(t) == t;
      assert TrimEnd(t) == t;
    }
  }

  /** toLowerCase on the ASCII letters. */
  function LowerChar(c: char): (r: char)
    ensures 'A' <= c <= 'Z' ==> 'a' <= r <= 'z'
    ensures !('A' <= c <= 'Z') ==> r == c
  {
    if 'A' <= c <= 'Z' then (c as int - 'A' as int + 'a' as int) as char else c
  }

  /** String.prototype.toLowerCase (ASCII letters). */
  function Lower(s: string): (r: string)
    ensures |r| == |s|
    ensures forall i :: 0 <= i < |s| ==> r[i] == LowerChar(s[i])
  {
    seq(|s|, i requires 0 <= i < |s| => LowerChar(s[i]))
  }

  predicate StartsWith(s: string, prefix: string)
  {
    |prefix| <= |s| && s[..|prefix|] == prefix
  }

  /** String.prototype.includes. */
  predicate Contains(s: string, sub: string)
  {
    StartsWith(s, sub) || (s != [] && Contains(s[1..], sub))
  }

  /** A text contains whatever sits inside it. */
  lemma {:induction false} ContainsInfix(x: string, t: string, y: string)
    ensures Contains(x + t + y, t)
  {
    if x == [] {
      assert (x + t + y)[..|t|] == t;
    } else {
      assert (x + t + y)[1..] == x[1..] + t + y;
      ContainsInfix(x[1..], t, y);
    }
  }

  /** A text that contains a + b contains a. */
  lemma {:induction false} ContainsPrefix(s: string, a: string, b: string)
    requires Contains(s, a + b)
    ensures Contains(s, a)
  {
    if StartsWith(s, a + b) {
      assert s[..|a|] == (a + b)[..|a|] == a;
    } else {
      ContainsPrefix(s[1..], a, b);
    }
  }

  /** Lower-casing works character by character. */
  lemma LowerAppend(a: string, b: string)
    ensures Lower(a + b) == Lower(a) + Lower(b)
  {
  }

  predicate IsDigit(c: char)
  {
    '0' <= c <= '9'
  }

  /** `s.replace(/\D/g, '')`: the digits of s, in order. */
  function DigitsOnly(s: string): (r: string)
    ensures forall i :: 0 <= i < |r| ==> IsDigit(r[i])
  {
    Filter(s, IsDigit)
  }

  function DigitChar(d: nat): (c: char)
    requires d < 10
    ensures IsDigit(c)
  {
    ('0' as int + d) as char
  }

  function DigitValue(c: char): (d: nat)
    requires IsDigit(c)
    ensures d < 10 && DigitChar(d) == c
  {
    c as int - '0' as int
  }

  /** String(n) for a non-negative integer: its decimal digits. */
  function NatToString(n: nat): (r: string)
    ensures |r| >= 1 && forall i :: 0 <= i < |r| ==> IsDigit(r[i])
  {
    if n < 10 then [DigitChar(n)] else NatToString(n / 10) + [DigitChar(n % 10)]
  }

  /** String(n) for any integer. */
  function IntToString(n: int): string
  {
    if n < 0 then "-" + NatToString(-n) else NatToString(n)
  }

  /** The value of a string of decimal digits ("" is 0). */
  function DigitsValue(s: string): nat
    requires forall i :: 0 <= i < |s| ==> IsDigit(s[i])
  {
    if s == [] then 0 else 10 * DigitsValue(s[..|s| - 1]) + DigitValue(s[|s| - 1])
  }

  /** Number(s) restricted to decimal digit strings: "" is 0 as in
      JavaScript, any other text is NaN (None). */
  function ParseNumber(s: string): (r: Option<int>)
    ensures r.Some? <==> forall i :: 0 <= i < |s| ==> IsDigit(s[i])
  {
    if forall i :: 0 <= i < |s| ==> IsDigit(s[i]) then Some(DigitsValue(s)) else None
  }

  /** Reading back the decimal text of n gives n. */
  lemma {:induction false} NatToStringRoundTrip(n: nat)
    ensures DigitsValue(NatToString(n)) == n
  {
    if n >= 10 {
      var s := NatToString(n);
      assert s[..|s| - 1] == NatToString(n / 10);
      NatToStringRoundTrip(n / 10);
    }
  }

  /** Different integers have different decimal texts. */
  lemma IntToStringInjective(n: int, m: int)
    ensures IntToString(n) == IntToString(m) ==> n == m
  {
    if n < 0 && m < 0 {
      var x, y := IntToString(n), IntToString(m);
      assert x[1..] == NatToString(-n) && y[1..] == NatToString(-m);
      NatToStringInjective(-n, -m);
    } else if n >= 0 && m >= 0 {
      NatToStringInjective(n, m);
    } else if n < 0 {
      NegativeText(n, m);
    } else {
      NegativeText(m, n);
    }
  }

  lemma NatToStringInjective(a: nat, b: nat)
    ensures NatToString(a) == NatToString(b) ==> a == b
  {
    NatToStringRoundTrip(a);
    NatToStringRoundTrip(b);
  }

  /** The text of a negative number starts with '-', that of any other
      number with a digit. */
  lemma NegativeText(n: int, m: int)
    requires n < 0 <= m
    ensures IntToString(n) != IntToString(m)
  {
    var x, y := IntToString(n), IntToString(m);
    assert x[0] == '-';
    assert IsDigit(y[0]);
  }

  /** A leading zero does not change the value of a digit string. */
  lemma {:induction false} LeadingZero(s: string)
    requires forall i :: 0 <= i < |s| ==> IsDigit(s[i])
    ensures DigitsValue("0" + s) == DigitsValue(s)
  {
    if s != [] {
      assert ("0" + s)[..|"0" + s| - 1] == "0" + s[..|s| - 1];
      LeadingZero(s[..|s| - 1]);
    }
  }

  /** String.prototype.padStart(2, '0'). */
  function Pad2(s: string): (r: string)
    ensures |s| >= 2 ==> r == s
    ensures |s| < 2 ==> |r| == 2
  {
    if |s| == 0 then "00" else if |s| == 1 then "0" + s else s
  }

  /** A one- or two-digit number padded to two characters reads back. */
  lemma Pad2RoundTrip(n: nat)
    requires n < 100
    ensures var r := Pad2(NatToString(n));
      |r| == 2 && (forall i :: 0 <= i < 2 ==> IsDigit(r[i])) && DigitsValue(r) == n
  {
    NatToStringRoundTrip(n);
    if n < 10 {
      LeadingZero(NatToString(n));
    }
  }

  /** String.prototype.split with a one-character separator. */
  function Split(s: string, sep: char): (r: seq<string>)
    ensures |r| >= 1
    ensures forall i :: 0 <= i < |r| ==> sep !in r[i]
  {
    if s == [] then [""]
    else
      var rest := Split(s[1..], sep);
      if s[0] == sep then [""] + rest else [[s[0]] + rest[0]] + rest[1..]
  }

  /** Splitting pieces joined by the separator gives the pieces back. */
  lemma {:induction false} SplitJoin(a: string, sep: char, b: string)
    requires sep !in a
    ensures Split(a + [sep] + b, sep) == [a] + Split(b, sep)
  {
    var s := a + [sep] + b;
    if a == [] {
      assert s[0] == sep && s[1..] == b;
    } else {
      assert s[0] == a[0] != sep;
      assert s[1..] == a[1..] + [sep] + b;
      SplitJoin(a[1..], sep, b);
      assert [a[0]] + a[1..] == a;
    }
  }

  /** A text without the separator is one piece. */
  lemma {:induction false} SplitNone(a: string, sep: char)
    requires sep !in a
    ensures Split(a, sep) == [a]
  {
    if a != [] {
      assert a[0] != sep;
      SplitNone(a[1..], sep);
      assert [a[0]] + a[1..] == a;
    }
  }
}
