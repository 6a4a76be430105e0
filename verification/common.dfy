/** Shared vocabulary of the model: optional values, order-preserving
    filters, the string helpers the portal's JavaScript relies on
    (`startsWith`, `includes`, ASCII `toLowerCase`/`toUpperCase`,
    `replace` of the first occurrence) and the decimal rendering of
    `Date.now()` that the stores use as record ids. */
module Common {

  /** A value that may be absent: JavaScript's `undefined`/`null`. */
  datatype Option<+T> = None | Some(value: T)

  /** `a` is obtained from `b` by deleting elements, keeping the order of the rest. */
  predicate IsSubsequence<T(==)>(a: seq<T>, b: seq<T>)
    decreases |b|
  {
    a == [] || (b != [] && ((a[0] == b[0] && IsSubsequence(a[1..], b[1..])) || IsSubsequence(a, b[1..])))
  }

  /** `Array.prototype.filter`: the elements of `xs` satisfying `p`, in order. */
  function Filter<T(==,!new)>(xs: seq<T>, p: T -> bool): (r: seq<T>)
    ensures |r| <= |xs|
    ensures forall x :: x in r <==> x in xs && p(x)
    ensures IsSubsequence(r, xs)
  {
    if xs == [] then []
    else if p(xs[0]) then [xs[0]] + Filter(xs[1..], p)
    else Filter(xs[1..], p)
  }

  /** `filter` keeps every occurrence of a satisfying element and drops every
      occurrence of the others. */
  lemma {:induction false} FilterMultiplicity<T(!new)>(xs: seq<T>, p: T -> bool)
    ensures forall x :: multiset(Filter(xs, p))[x] == if p(x) then multiset(xs)[x] else 0
    decreases |xs|
  {
    if xs != [] {
      FilterMultiplicity(xs[1..], p);
      assert xs == [xs[0]] + xs[1..];
    }
  }

  /** The number of elements of `xs` satisfying `p` (`filter(p).length`). */
  function Count<T(==,!new)>(xs: seq<T>, p: T -> bool): nat
  {
    |Filter(xs, p)|
  }

  /** The positions of `xs` holding an element that satisfies `p`. */
  function Positions<T>(xs: seq<T>, p: T -> bool): set<nat>
  {
    set i: nat | i < |xs| && p(xs[i])
  }

  /** `Count` is the number of positions whose element satisfies `p`:
      every such element is counted once, duplicates included. */
  lemma {:induction false} CountIsPositions<T(!new)>(xs: seq<T>, p: T -> bool)
    ensures Count(xs, p) == |Positions(xs, p)|
    decreases |xs|
  {
    if xs != [] {
      var n := |xs| - 1;
      CountIsPositions(xs[..n], p);
      assert xs == xs[..n] + [xs[n]];
      FilterAppend(xs[..n], [xs[n]], p);
      PositionsSnoc(xs, p);
    }
  }

  /** The positions of a non-empty sequence: those of its prefix, plus the
      last one when its element satisfies `p`. */
  lemma PositionsSnoc<T>(xs: seq<T>, p: T -> bool)
    requires xs != []
    ensures |Positions(xs, p)| == |Positions(xs[..|xs| - 1], p)| + (if p(xs[|xs| - 1]) then 1 else 0)
  {
    var n := |xs| - 1;
    var init := Positions(xs[..n], p);
    assert Positions(xs, p) == init + (if p(xs[n]) then {n} else {});
    assert n !in init;
  }

  /** Filtering distributes over concatenation. */
  lemma {:induction false} FilterAppend<T(!new)>(a: seq<T>, b: seq<T>, p: T -> bool)
    ensures Filter(a + b, p) == Filter(a, p) + Filter(b, p)
    decreases |a|
  {
    if a == [] {
      assert a + b == b;
    } else {
      assert (a + b)[1..] == a[1..] + b;
      FilterAppend(a[1..], b, p);
    }
  }

  /** Removing the element at `i` lowers the count by one exactly when that
      element satisfies the predicate. */
  lemma CountRemove<T(!new)>(b: seq<T>, i: nat, p: T -> bool)
    requires i < |b|
    ensures Count(b, p) == Count(b[..i] + b[i + 1..], p) + (if p(b[i]) then 1 else 0)
  {
    assert b == b[..i] + ([b[i]] + b[i + 1..]);
    FilterAppend(b[..i], [b[i]] + b[i + 1..], p);
    FilterAppend([b[i]], b[i + 1..], p);
    FilterAppend(b[..i], b[i + 1..], p);
  }

  /** Reordering a sequence does not change how many of its elements satisfy
      a predicate. */
  lemma {:induction false} CountPermutation<T(!new)>(a: seq<T>, b: seq<T>, p: T -> bool)
    requires multiset(a) == multiset(b)
    ensures Count(a, p) == Count(b, p)
    decreases |a|
  {
    if a == [] {
      assert |multiset(b)| == 0;
    } else {
      var x := a[0];
      assert x in multiset(b);
      var i :| 0 <= i < |b| && b[i] == x;
      var rest := b[..i] + b[i + 1..];
      assert b == b[..i] + [x] + b[i + 1..];
      assert multiset(rest) == multiset(b) - multiset{x};
      assert a == [x] + a[1..];
      assert multiset(a[1..]) == multiset(a) - multiset{x};
      CountPermutation(a[1..], rest, p);
      CountRemove(b, i, p);
      assert Count(a, p) == Count(a[1..], p) + (if p(x) then 1 else 0);
    }
  }

  /** Filtering with a predicate that holds everywhere keeps the whole sequence. */
  lemma {:induction false} FilterAll<T(!new)>(xs: seq<T>, p: T -> bool)
    requires forall x :: x in xs ==> p(x)
    ensures Filter(xs, p) == xs
    decreases |xs|
  {
    if xs != [] {
      assert forall x :: x in xs[1..] ==> x in xs;
      FilterAll(xs[1..], p);
    }
  }

  /** Filtering with a predicate that holds nowhere gives the empty sequence. */
  lemma {:induction false} FilterNone<T(!new)>(xs: seq<T>, p: T -> bool)
    requires forall x :: x in xs ==> !p(x)
    ensures Filter(xs, p) == []
    decreases |xs|
  {
    if xs != [] {
      assert forall x :: x in xs[1..] ==> x in xs;
      FilterNone(xs[1..], p);
    }
  }

  /** Two filters in a row are one filter with the conjoined predicate. */
  lemma {:induction false} FilterFilter<T(!new)>(xs: seq<T>, p: T -> bool, q: T -> bool, pq: T -> bool)
    requires forall x :: pq(x) == (p(x) && q(x))
    ensures Filter(Filter(xs, p), q) == Filter(xs, pq)
    decreases |xs|
  {
    if xs != [] {
      FilterFilter(xs[1..], p, q, pq);
      if p(xs[0]) {
        assert Filter(xs, p) == [xs[0]] + Filter(xs[1..], p);
        assert ([xs[0]] + Filter(xs[1..], p))[1..] == Filter(xs[1..], p);
      }
    }
  }

  /** Filtering with predicates that agree on the elements gives the same result. */
  lemma {:induction false} FilterCongruent<T(!new)>(xs: seq<T>, p: T -> bool, q: T -> bool)
    requires forall x :: x in xs ==> p(x) == q(x)
    ensures Filter(xs, p) == Filter(xs, q)
    decreases |xs|
  {
    if xs != [] {
      assert forall x :: x in xs[1..] ==> x in xs;
      FilterCongruent(xs[1..], p, q);
    }
  }

  /** `Array.prototype.map` with a conditional update: the elements satisfying
      `p` are replaced by `f` of themselves, the others are kept. */
  function MapWhere<T>(xs: seq<T>, p: T -> bool, f: T -> T): (r: seq<T>)
    ensures |r| == |xs|
    ensures forall i :: 0 <= i < |xs| ==> r[i] == (if p(xs[i]) then f(xs[i]) else xs[i])
  {
    seq(|xs|, i requires 0 <= i < |xs| => if p(xs[i]) then f(xs[i]) else xs[i])
  }

  /** Rewriting the head of `xs` and then the rest is rewriting all of `xs`. */
  lemma MapWhereCons<T>(xs: seq<T>, p: T -> bool, f: T -> T)
    requires xs != []
    ensures MapWhere(xs, p, f) == [if p(xs[0]) then f(xs[0]) else xs[0]] + MapWhere(xs[1..], p, f)
  {
  }

  /** Filtering after a rewrite that turns every rewritten element into a
      non-match is filtering first and then dropping the rewritten ones. */
  lemma {:induction false} FilterMapWhere<T(!new)>(xs: seq<T>, p: T -> bool, q: T -> bool, notQ: T -> bool, f: T -> T)
    requires forall x :: q(x) ==> !p(f(x))
    requires forall x :: notQ(x) == !q(x)
    ensures Filter(MapWhere(xs, q, f), p) == Filter(Filter(xs, p), notQ)
    decreases |xs|
  {
    if xs != [] {
      MapWhereCons(xs, q, f);
      FilterMapWhere(xs[1..], p, q, notQ, f);
      assert MapWhere(xs, q, f)[1..] == MapWhere(xs[1..], q, f);
      if p(xs[0]) {
        assert Filter(xs, p) == [xs[0]] + Filter(xs[1..], p);
        assert ([xs[0]] + Filter(xs[1..], p))[1..] == Filter(xs[1..], p);
      }
    }
  }

  /** `Array.prototype.find`: the first element satisfying `p`, if any. */
  function Find<T(==,!new)>(xs: seq<T>, p: T -> bool): (r: Option<T>)
    ensures r.None? <==> forall x :: x in xs ==> !p(x)
    ensures r.Some? ==> exists k :: 0 <= k < |xs| && xs[k] == r.value && p(xs[k]) &&
                                    forall j :: 0 <= j < k ==> !p(xs[j])
    decreases |xs|
  {
    if xs == [] then None
    else if p(xs[0]) then Some(xs[0])
    else
      var r := Find(xs[1..], p);
      assert forall x :: x in xs ==> x == xs[0] || x in xs[1..];
      if r.Some? then
        var k :| 0 <= k < |xs[1..]| && xs[1..][k] == r.value && p(xs[1..][k]) &&
                 forall j :: 0 <= j < k ==> !p(xs[1..][j]);
        assert xs[k + 1] == r.value;
        assert forall j :: 1 <= j < k + 1 ==> xs[j] == xs[1..][j - 1];
        r
      else r
  }

  /** The value an object spread `{ ...kept, ...patch }` leaves in a field the
      patch may supply. */
  function Pick<T>(supplied: Option<T>, kept: T): T
  {
    if supplied.Some? then supplied.value else kept
  }

  /** The same for an optional field. */
  function PickOptional<T>(supplied: Option<T>, kept: Option<T>): Option<T>
  {
    if supplied.Some? then supplied else kept
  }

  /** `String.prototype.startsWith`. */
  predicate StartsWith(s: string, prefix: string)
  {
    |prefix| <= |s| && s[..|prefix|] == prefix
  }

  /** `String.prototype.includes`: `needle` occurs somewhere in `hay`
      (the empty needle occurs everywhere). */
  predicate Contains(hay: string, needle: string)
    decreases |hay|
  {
    StartsWith(hay, needle) || (|hay| > 0 && Contains(hay[1..], needle))
  }

  /** `needle` occurs in `hay` starting at position `k`. */
  predicate OccursAt(hay: string, needle: string, k: int)
  {
    0 <= k <= |hay| - |needle| && hay[k..k + |needle|] == needle
  }

  /** `Contains` agrees with the positional definition of an occurrence. */
  lemma {:induction false} ContainsAt(hay: string, needle: string)
    ensures Contains(hay, needle) <==> exists k :: OccursAt(hay, needle, k)
    decreases |hay|
  {
    if StartsWith(hay, needle) {
      assert OccursAt(hay, needle, 0);
    }
    if exists k :: OccursAt(hay, needle, k) {
      var k :| OccursAt(hay, needle, k);
      if k > 0 {
        assert OccursAt(hay[1..], needle, k - 1);
        ContainsAt(hay[1..], needle);
      } else {
        assert StartsWith(hay, needle);
      }
    }
    if |hay| > 0 && Contains(hay[1..], needle) {
      ContainsAt(hay[1..], needle);
      var k :| OccursAt(hay[1..], needle, k);
      assert OccursAt(hay, needle, k + 1);
    }
  }

  /** ASCII lower-casing of one character. */
  function LowerChar(c: char): char
  {
    if 'A' <= c <= 'Z' then (c as int - 'A' as int + 'a' as int) as char else c
  }

  /** ASCII upper-casing of one character. */
  function UpperChar(c: char): char
  {
    if 'a' <= c <= 'z' then (c as int - 'a' as int + 'A' as int) as char else c
  }

  /** `String.prototype.toLowerCase`, restricted to ASCII letters. */
  function ToLower(s: string): (r: string)
    ensures |r| == |s|
    ensures forall i :: 0 <= i < |s| ==> r[i] == LowerChar(s[i])
  {
    seq(|s|, i requires 0 <= i < |s| => LowerChar(s[i]))
  }

  /** `String.prototype.toUpperCase`, restricted to ASCII letters. */
  function ToUpper(s: string): (r: string)
    ensures |r| == |s|
    ensures forall i :: 0 <= i < |s| ==> r[i] == UpperChar(s[i])
  {
    seq(|s|, i requires 0 <= i < |s| => UpperChar(s[i]))
  }

  /** The case-insensitive search used by every list page:
      `text.toLowerCase().includes(query.toLowerCase())`. */
  predicate MatchesQuery(text: string, query: string)
  {
    Contains(ToLower(text), ToLower(query))
  }

  /** The empty query matches every text. */
  lemma EmptyQueryMatches(text: string)
    ensures MatchesQuery(text, "")
  {
    assert StartsWith(ToLower(text), ToLower(""));
  }

  /** Index of the first occurrence of `c` in `s`, if any. */
  function IndexOf(s: string, c: char): (r: Option<nat>)
    ensures r.Some? ==> r.value < |s| && s[r.value] == c && forall j :: 0 <= j < r.value ==> s[j] != c
    ensures r.None? ==> forall j :: 0 <= j < |s| ==> s[j] != c
  {
    if s == [] then None
    else if s[0] == c then Some(0)
    else match IndexOf(s[1..], c)
      case None => None
      case Some(k) => Some(k + 1)
  }

  /** `s.replace(from, to)` with a one-character string pattern: only the
      first occurrence is replaced. */
  function ReplaceFirst(s: string, from: char, to: char): (r: string)
    ensures |r| == |s|
    ensures match IndexOf(s, from)
      case None => r == s
      case Some(k) => r == s[k := to]
  {
    match IndexOf(s, from)
    case None => s
    case Some(k) => s[k := to]
  }

  /** A decimal digit character. */
  predicate IsDigit(c: char)
  {
    '0' <= c <= '9'
  }

  function DigitChar(d: nat): (c: char)
    requires d < 10
    ensures IsDigit(c) && c as int - '0' as int == d
  {
    (d + '0' as int) as char
  }

  /** `n.toString()` for a non-negative integer: its decimal digits. */
  function DecimalString(n: nat): (r: string)
    ensures |r| >= 1
    ensures forall i :: 0 <= i < |r| ==> IsDigit(r[i])
  {
    if n < 10 then [DigitChar(n)] else DecimalString(n / 10) + [DigitChar(n % 10)]
  }

  function DigitValue(c: char): nat
    requires IsDigit(c)
  {
    c as int - '0' as int
  }

  /** The value of a string of decimal digits. */
  function DecimalValue(s: string): nat
    requires forall i :: 0 <= i < |s| ==> IsDigit(s[i])
  {
    if s == [] then 0 else 10 * DecimalValue(s[..|s| - 1]) + DigitValue(s[|s| - 1])
  }

  /** Reading back the decimal rendering gives the number: distinct clock
      readings give distinct ids. */
  lemma {:induction false} DecimalRoundTrip(n: nat)
    ensures DecimalValue(DecimalString(n)) == n
  {
    if n >= 10 {
      var s := DecimalString(n);
      assert s[..|s| - 1] == DecimalString(n / 10);
      DecimalRoundTrip(n / 10);
    }
  }

  /** A decimal rendering never starts with a letter, so it never carries a
      textual prefix such as `draft-`. */
  lemma DecimalHasNoLetterPrefix(n: nat, prefix: string)
    requires |prefix| > 0 && !IsDigit(prefix[0])
    ensures !StartsWith(DecimalString(n), prefix)
  {
    var s := DecimalString(n);
    assert IsDigit(s[0]);
    if |prefix| <= |s| {
      assert s[..|prefix|][0] == s[0];
    }
  }
}
