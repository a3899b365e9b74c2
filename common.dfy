/** Small vocabulary shared by the server and client models: optional
    values, the JavaScript string operations the code relies on, filtering
    and counting, integer percentages, decimal rendering and a stable sort. */
module Common {

  datatype Option<T> = None | Some(value: T) {
    function GetOr(default: T): T {
      match this
      case Some(v) => v
      case None => default
    }
  }

  /** A handler's reply: the JSON payload, or an HTTP error status with its message. */
  datatype Response<T> = Ok(value: T) | Fail(status: nat, message: string)

  /** A JavaScript string value that is truthy: present and non-empty. */
  predicate Truthy(s: Option<string>) { s.Some? && s.value != "" }

  /** `a || b` on optional strings. */
  function OrElse(a: Option<string>, b: string): (r: string)
    ensures Truthy(a) ==> r == a.value
    ensures !Truthy(a) ==> r == b
  {
    if Truthy(a) then a.value else b
  }

  /** Database identifiers of users (`_id`). */
  type UserId = nat

  /** A file as the browser reports it: name, size in bytes and MIME type. */
  datatype FileInfo = FileInfo(name: string, size: nat, mimeType: string)

  // ---------------------------------------------------------------------
  // Characters and strings

  /** The characters JavaScript's `\s` and `String.prototype.trim` treat as
      white space (WhiteSpace and LineTerminator of ECMAScript). */
  predicate IsSpace(c: char) {
    c == ' ' || c == '\t' || c == '\n' || c == '\r' || c == '\U{000B}' || c == '\U{000C}'
    || c == '\U{00A0}' || c == '\U{1680}' || ('\U{2000}' <= c <= '\U{200A}')
    || c == '\U{2028}' || c == '\U{2029}' || c == '\U{202F}' || c == '\U{205F}'
    || c == '\U{3000}' || c == '\U{FEFF}'
  }

  predicate IsUpper(c: char) { 'A' <= c <= 'Z' }
  predicate IsLower(c: char) { 'a' <= c <= 'z' }
  predicate IsDigit(c: char) { '0' <= c <= '9' }

  function LowerChar(c: char): (r: char)
    ensures !IsUpper(r)
    ensures IsUpper(c) || r == c
  {
    if IsUpper(c) then (c as int + 32) as char else c
  }

  function UpperChar(c: char): (r: char)
    ensures !IsLower(r)
    ensures IsLower(c) || r == c
  {
    if IsLower(c) then (c as int - 32) as char else c
  }

  /** `toLowerCase`, on the ASCII letters. */
  function ToLower(s: string): (r: string)
    ensures |r| == |s|
    ensures forall i :: 0 <= i < |s| ==> r[i] == LowerChar(s[i])
  {
    if s == [] then [] else [LowerChar(s[0])] + ToLower(s[1..])
  }

  /** `toUpperCase`, on the ASCII letters. */
  function ToUpper(s: string): (r: string)
    ensures |r| == |s|
    ensures forall i :: 0 <= i < |s| ==> r[i] == UpperChar(s[i])
  {
    if s == [] then [] else [UpperChar(s[0])] + ToUpper(s[1..])
  }

  /** s without its leading white space. */
  function TrimStart(s: string): (r: string)
    ensures r == [] || !IsSpace(r[0])
    ensures |r| <= |s| && r == s[|s| - |r|..] && forall i :: 0 <= i < |s| - |r| ==> IsSpace(s[i])
  {
    if s != [] && IsSpace(s[0]) then
      var r := TrimStart(s[1..]);
      assert r == s[|s| - |r|..];
      r
    else
      s
  }

  /** s without its trailing white space. */
  function TrimEnd(s: string): (r: string)
    ensures r == [] || !IsSpace(r[|r| - 1])
    ensures |r| <= |s| && r == s[..|r|] && forall i :: |r| <= i < |s| ==> IsSpace(s[i])
  {
    if s != [] && IsSpace(s[|s| - 1]) then
      var r := TrimEnd(s[..|s| - 1]);
      assert r == s[..|r|];
      r
    else
      s
  }

  /** `String.prototype.trim`: s with the white space at both ends removed,
      and nothing else. */
  function Trim(s: string): (r: string)
    ensures r == [] || (!IsSpace(r[0]) && !IsSpace(r[|r| - 1]))
    ensures exists a, b :: 0 <= a <= b <= |s| && r == s[a..b]
                           && (forall i :: 0 <= i < a ==> IsSpace(s[i])) && (forall i :: b <= i < |s| ==> IsSpace(s[i]))
  {
    var t := TrimStart(s);
    var r := TrimEnd(t);
    StripBothEnds(s, IsSpace, |s| - |t|, |r|);
    r
  }

  /** Dropping a elements that satisfy p from the front and then all but k
      of the rest, which satisfy p too, leaves the slice s[a..a + k]. */
  lemma StripBothEnds<T>(s: seq<T>, p: T -> bool, a: nat, k: nat)
    requires a + k <= |s|
    requires forall i :: 0 <= i < a ==> p(s[i])
    requires forall i :: k <= i < |s[a..]| ==> p(s[a..][i])
    ensures s[a..][..k] == s[a..a + k]
    ensures exists a', b :: 0 <= a' <= b <= |s| && s[a..][..k] == s[a'..b]
                            && (forall i :: 0 <= i < a' ==> p(s[i])) && (forall i :: b <= i < |s| ==> p(s[i]))
  {
    forall i | a + k <= i < |s| ensures p(s[i]) {
      assert s[a..][i - a] == s[i];
    }
    assert s[a..][..k] == s[a..a + k];
  }

  predicate AllSpace(s: string) {
    forall i :: 0 <= i < |s| ==> IsSpace(s[i])
  }

  lemma {:induction false} TrimStartEmpty(s: string)
    ensures TrimStart(s) == [] <==> AllSpace(s)
  {
    if s != [] && IsSpace(s[0]) {
      TrimStartEmpty(s[1..]);
      assert AllSpace(s[1..]) <==> AllSpace(s);
    }
  }

  lemma {:induction false} TrimEndEmpty(s: string)
    ensures TrimEnd(s) == [] <==> AllSpace(s)
  {
    if s != [] && IsSpace(s[|s| - 1]) {
      TrimEndEmpty(s[..|s| - 1]);
      assert AllSpace(s[..|s| - 1]) <==> AllSpace(s);
    }
  }

  /** The trimmed string is empty exactly when the string is all white space. */
  lemma TrimEmptyIffAllSpace(s: string)
    ensures Trim(s) == [] <==> AllSpace(s)
  {
    TrimStartEmpty(s);
    TrimEndEmpty(TrimStart(s));
  }

  /** `s.includes(t)`: t occurs in s as a contiguous block. */
  function Contains(s: string, t: string): bool
  {
    if t <= s then true
    else if s == [] then false
    else Contains(s[1..], t)
  }

  ghost predicate OccursAt(s: string, t: string, i: int) {
    0 <= i && i + |t| <= |s| && s[i..i + |t|] == t
  }

  lemma {:induction false} ContainsIff(s: string, t: string)
    ensures Contains(s, t) <==> exists i :: OccursAt(s, t, i)
  {
    if t <= s {
      assert s[0..|t|] == t;
      assert OccursAt(s, t, 0);
    } else if s == [] {
      // here no index can hold an occurrence: t would be empty, a prefix of s
    } else {
      ContainsIff(s[1..], t);
      if exists i :: OccursAt(s[1..], t, i) {
        var i :| OccursAt(s[1..], t, i);
        SliceOfTail(s, i, i + |t|);
        assert OccursAt(s, t, i + 1);
      }
      if exists i :: OccursAt(s, t, i) {
        var i :| OccursAt(s, t, i);
        // i == 0 would make t a prefix of s
        if i != 0 {
          SliceOfTail(s, i - 1, i - 1 + |t|);
          assert OccursAt(s[1..], t, i - 1);
        }
      }
    }
  }

  /** A slice of the tail is the slice of the whole one position on. */
  lemma SliceOfTail<T>(s: seq<T>, i: int, j: int)
    requires 0 <= i <= j < |s|
    ensures s[1..][i..j] == s[i + 1..j + 1]
  {
  }

  /** Every string contains the empty string. */
  lemma ContainsEmpty(s: string)
    ensures Contains(s, "")
  {
  }

  /** A block found inside a suffix is also found in the whole string. */
  lemma {:induction false} ContainsInSuffix(s: string, t: string, k: nat)
    requires k <= |s| && Contains(s[k..], t)
    ensures Contains(s, t)
  {
    ContainsIff(s[k..], t);
    var i :| OccursAt(s[k..], t, i);
    assert s[k..][i..i + |t|] == s[k + i..k + i + |t|];
    assert OccursAt(s, t, k + i);
    ContainsIff(s, t);
  }

  /** The block t at the front of `t + u` is found. */
  lemma ContainsPrefix(t: string, u: string)
    ensures Contains(t + u, t)
  {
    assert t <= t + u;
  }

  // ---------------------------------------------------------------------
  // Filtering and counting (`array.filter(p)` and `.filter(p).length`)

  /** The elements of s that satisfy p, in their original order. The
      contract pins membership; multiplicity is FilterMultiplicity and
      order is FilterIsSubsequence. */
  function Filter<T>(s: seq<T>, p: T -> bool): (r: seq<T>)
    ensures |r| <= |s|
    ensures forall i :: 0 <= i < |r| ==> r[i] in s && p(r[i])
    ensures forall i :: 0 <= i < |s| && p(s[i]) ==> s[i] in r
  {
    if s == [] then []
    else (if p(s[0]) then [s[0]] else []) + Filter(s[1..], p)
  }

  /** Each satisfying value is kept as often as it occurs, and nothing else is kept. */
  lemma {:induction false} FilterMultiplicity<T>(s: seq<T>, p: T -> bool)
    ensures forall x :: multiset(Filter(s, p))[x] == if p(x) then multiset(s)[x] else 0
  {
    if s != [] {
      var head := if p(s[0]) then [s[0]] else [];
      FilterMultiplicity(s[1..], p);
      assert s == [s[0]] + s[1..];
      assert multiset(Filter(s, p)) == multiset(head) + multiset(Filter(s[1..], p));
    }
  }

  /** So the filtered values are a sub-multiset of the input. */
  lemma FilterSubMultiset<T>(s: seq<T>, p: T -> bool)
    ensures multiset(Filter(s, p)) <= multiset(s)
  {
    FilterMultiplicity(s, p);
  }

  /** a can be obtained from b by deleting elements: same order. */
  ghost predicate IsSubsequence<T>(a: seq<T>, b: seq<T>)
    decreases |b|
  {
    a == [] || (b != [] && ((a[0] == b[0] && IsSubsequence(a[1..], b[1..])) || IsSubsequence(a, b[1..])))
  }

  lemma {:induction false} FilterIsSubsequence<T>(s: seq<T>, p: T -> bool)
    ensures IsSubsequence(Filter(s, p), s)
  {
    if s != [] {
      FilterIsSubsequence(s[1..], p);
      var r := Filter(s, p);
      if p(s[0]) {
        assert r[0] == s[0] && r[1..] == Filter(s[1..], p);
      } else {
        assert r == Filter(s[1..], p);
      }
    }
  }

  /** Filtering with a predicate every element satisfies changes nothing. */
  lemma {:induction false} FilterAll<T>(s: seq<T>, p: T -> bool)
    requires forall x :: x in s ==> p(x)
    ensures Filter(s, p) == s
  {
    if s != [] {
      assert s[0] in s;
      forall x | x in s[1..] ensures p(x) {
        assert x in s;
      }
      FilterAll(s[1..], p);
      assert Filter(s, p) == [s[0]] + Filter(s[1..], p);
      assert s == [s[0]] + s[1..];
    }
  }

  /** Filtering with a predicate no element satisfies leaves nothing. */
  lemma {:induction false} FilterNone<T>(s: seq<T>, p: T -> bool)
    requires forall x :: x in s ==> !p(x)
    ensures Filter(s, p) == []
  {
    if s != [] {
      assert s[0] in s;
      assert forall x :: x in s[1..] ==> x in s;
      FilterNone(s[1..], p);
    }
  }

  /** Filtering drops exactly position i when s[i] is the only element failing p. */
  lemma {:induction false} FilterDropsOne<T>(s: seq<T>, i: nat, p: T -> bool)
    requires i < |s| && !p(s[i])
    requires forall k :: 0 <= k < |s| && k != i ==> p(s[k])
    ensures Filter(s, p) == s[..i] + s[i + 1..]
  {
    if i == 0 {
      forall x | x in s[1..] ensures p(x) {
        var k :| 0 <= k < |s[1..]| && s[1..][k] == x;
        assert s[k + 1] == x;
      }
      FilterAll(s[1..], p);
    } else {
      FilterDropsOne(s[1..], i - 1, p);
      assert s[..i] + s[i + 1..] == [s[0]] + (s[1..][..i - 1] + s[1..][i..]);
    }
  }

  lemma {:induction false} FilterAppend<T>(a: seq<T>, b: seq<T>, p: T -> bool)
    ensures Filter(a + b, p) == Filter(a, p) + Filter(b, p)
  {
    if a == [] {
      assert a + b == b;
    } else {
      assert (a + b)[0] == a[0] && (a + b)[1..] == a[1..] + b;
      FilterAppend(a[1..], b, p);
    }
  }

  /** `array.findIndex(p)`: the position of the first element satisfying p,
      or None when there is none. */
  function FindFirst<T>(s: seq<T>, p: T -> bool): (r: Option<nat>)
    ensures r.Some? ==> r.value < |s| && p(s[r.value]) && forall k :: 0 <= k < r.value ==> !p(s[k])
    ensures r.None? ==> forall k :: 0 <= k < |s| ==> !p(s[k])
  {
    if s == [] then None
    else if p(s[0]) then Some(0)
    else match FindFirst(s[1..], p)
      case None => None
      case Some(k) => Some(k + 1)
  }

  /** The number of elements of s that satisfy p. */
  function Count<T>(s: seq<T>, p: T -> bool): nat {
    |Filter(s, p)|
  }

  /** The count of a sequence with a first element. */
  lemma CountCons<T>(x: T, s: seq<T>, p: T -> bool)
    ensures Count([x] + s, p) == (if p(x) then 1 else 0) + Count(s, p)
  {
    assert ([x] + s)[1..] == s;
  }

  lemma {:induction false} CountAppend<T>(a: seq<T>, b: seq<T>, p: T -> bool)
    ensures Count(a + b, p) == Count(a, p) + Count(b, p)
  {
    FilterAppend(a, b, p);
  }

  /** Three counts for pairwise disjoint predicates add up to at most the
      length, with equality when every element satisfies one of them. */
  lemma {:induction false} CountThree<T>(s: seq<T>, p: T -> bool, q: T -> bool, r: T -> bool)
    requires forall x :: x in s ==> !(p(x) && q(x)) && !(p(x) && r(x)) && !(q(x) && r(x))
    ensures Count(s, p) + Count(s, q) + Count(s, r) <= |s|
    ensures (forall x :: x in s ==> p(x) || q(x) || r(x)) ==>
              Count(s, p) + Count(s, q) + Count(s, r) == |s|
  {
    if s != [] {
      assert s[0] in s;
      assert forall x :: x in s[1..] ==> x in s;
      CountThree(s[1..], p, q, r);
    }
  }

  /** Two counts for disjoint predicates add up to at most the length, with
      equality when every element satisfies one of them. */
  lemma {:induction false} CountTwo<T>(s: seq<T>, p: T -> bool, q: T -> bool)
    requires forall x :: x in s ==> !(p(x) && q(x))
    ensures Count(s, p) + Count(s, q) <= |s|
    ensures (forall x :: x in s ==> p(x) || q(x)) ==> Count(s, p) + Count(s, q) == |s|
  {
    if s != [] {
      assert s[0] in s;
      assert forall x :: x in s[1..] ==> x in s;
      CountTwo(s[1..], p, q);
    }
  }

  /** A count is at most the count of any weaker predicate. */
  lemma {:induction false} CountMono<T>(s: seq<T>, p: T -> bool, q: T -> bool)
    requires forall x :: x in s && p(x) ==> q(x)
    ensures Count(s, p) <= Count(s, q)
  {
    if s != [] {
      assert s[0] in s;
      assert forall x :: x in s[1..] ==> x in s;
      CountMono(s[1..], p, q);
    }
  }

  /** An element failing p makes the filtered list shorter. */
  lemma {:induction false} FilterDropsSome<T>(s: seq<T>, k: nat, p: T -> bool)
    requires k < |s| && !p(s[k])
    ensures |Filter(s, p)| < |s|
  {
    if k > 0 {
      assert s[1..][k - 1] == s[k];
      FilterDropsSome(s[1..], k - 1, p);
    }
  }

  /** Predicates that agree on every element select the same elements. */
  lemma {:induction false} FilterSame<T>(s: seq<T>, p: T -> bool, q: T -> bool)
    requires forall x :: x in s ==> p(x) == q(x)
    ensures Filter(s, p) == Filter(s, q)
  {
    if s != [] {
      assert s[0] in s;
      assert forall x :: x in s[1..] ==> x in s;
      FilterSame(s[1..], p, q);
    }
  }

  /** Two lists of equal length whose elements pass p and q at the same
      positions have equal counts. */
  lemma {:induction false} CountAcross<A, B>(a: seq<A>, b: seq<B>, p: A -> bool, q: B -> bool)
    requires |a| == |b|
    requires forall k :: 0 <= k < |a| ==> p(a[k]) == q(b[k])
    ensures Count(a, p) == Count(b, q)
  {
    if a != [] {
      assert p(a[0]) == q(b[0]);
      assert forall k :: 0 <= k < |a[1..]| ==> a[1..][k] == a[k + 1] && b[1..][k] == b[k + 1];
      CountAcross(a[1..], b[1..], p, q);
    }
  }

  /** Three disjoint predicates that each imply q count at most q's elements. */
  lemma {:induction false} CountThreeWithin<T>(s: seq<T>, p: T -> bool, q: T -> bool, r: T -> bool, w: T -> bool)
    requires forall x :: x in s ==> !(p(x) && q(x)) && !(p(x) && r(x)) && !(q(x) && r(x))
    requires forall x :: x in s && (p(x) || q(x) || r(x)) ==> w(x)
    ensures Count(s, p) + Count(s, q) + Count(s, r) <= Count(s, w)
  {
    if s != [] {
      assert s[0] in s;
      assert forall x :: x in s[1..] ==> x in s;
      CountThreeWithin(s[1..], p, q, r, w);
    }
  }

  // ---------------------------------------------------------------------
  // Integer percentages

  /** `Math.round(num / den)` on non-negative integers: the nearest integer
      to num/den, halves rounded up. */
  function RoundHalfUp(num: nat, den: nat): (r: nat)
    requires den > 0
    ensures 2 * num - den < 2 * den * r <= 2 * num + den
  {
    var r := (2 * num + den) / (2 * den);
    assert 2 * den * r <= 2 * num + den < 2 * den * (r + 1);
    r
  }

  /** `Math.round(c / n * 100)` when n > 0, and 0 for n = 0. */
  function Percent(c: nat, n: nat): (p: nat)
  {
    if n > 0 then RoundHalfUp(100 * c, n) else 0
  }

  /** A share of at most the whole is a percentage between 0 and 100, which
      is 0 for none and 100 for all. */
  lemma MulLe(k: nat, a: int, b: int)
    requires a <= b
    ensures k * a <= k * b
  {
  }

  lemma PercentBounds(c: nat, n: nat)
    requires c <= n
    ensures 0 <= Percent(c, n) <= 100
    ensures c == 0 ==> Percent(c, n) == 0
    ensures n > 0 && c == n ==> Percent(c, n) == 100
  {
    if n > 0 {
      var p := RoundHalfUp(100 * c, n);
      assert 2 * n * p <= 200 * c + n;
      MulLe(200, c, n);
      if p > 100 {
        MulLe(2 * n, 101, p);
        assert false;
      }
      if c == 0 && p > 0 {
        MulLe(2 * n, 1, p);
        assert false;
      }
      if c == n && p < 100 {
        MulLe(2 * n, p, 99);
        assert false;
      }
    }
  }

  // ---------------------------------------------------------------------
  // Decimal rendering (template literals of integers)

  function DigitChar(d: nat): (c: char)
    requires d < 10
    ensures IsDigit(c)
  {
    ('0' as int + d) as char
  }

  /** The decimal digits of n, as `${n}` renders it. */
  function NatToString(n: nat): (s: string)
    ensures |s| >= 1
    ensures forall i :: 0 <= i < |s| ==> IsDigit(s[i])
    decreases n
  {
    if n < 10 then [DigitChar(n)] else NatToString(n / 10) + [DigitChar(n % 10)]
  }

  /** The value of a string of decimal digits. */
  function DecimalValue(s: string): nat
    requires forall i :: 0 <= i < |s| ==> IsDigit(s[i])
  {
    if s == [] then 0
    else
      assert IsDigit(s[|s| - 1]);
      10 * DecimalValue(s[..|s| - 1]) + (s[|s| - 1] as int - '0' as int)
  }

  /** Rendering a number and reading it back gives the number. */
  lemma {:induction false} DecimalRoundTrip(n: nat)
    ensures DecimalValue(NatToString(n)) == n
    decreases n
  {
    if n >= 10 {
      var s := NatToString(n);
      assert s[..|s| - 1] == NatToString(n / 10);
      DecimalRoundTrip(n / 10);
    }
  }

  // ---------------------------------------------------------------------
  // Slices

  function Min(a: int, b: int): int { if a <= b then a else b }
  function Max(a: int, b: int): int { if a >= b then a else b }

  /** `s.slice(0, k)` for a non-negative k. */
  function Take<T>(s: seq<T>, k: nat): (r: seq<T>)
    ensures |r| == Min(k, |s|)
    ensures r <= s
  {
    if k <= |s| then s[..k] else s
  }

  /** `items.filter((_, i) => i !== index)`: the element at index, if any, removed. */
  function RemoveAt<T>(s: seq<T>, index: int): (r: seq<T>)
    ensures 0 <= index < |s| ==> |r| == |s| - 1
    ensures 0 <= index < |s| ==> forall j :: 0 <= j < |r| ==> r[j] == if j < index then s[j] else s[j + 1]
    ensures !(0 <= index < |s|) ==> r == s
  {
    if 0 <= index < |s| then s[..index] + s[index + 1..] else s
  }

  // ---------------------------------------------------------------------
  // The `errors` objects of the forms

  /** `if (check fails) newErrors[key] = message`. */
  function WithError<K>(m: map<K, string>, k: K, e: Option<string>): map<K, string> {
    if e.Some? then m[k := e.value] else m
  }

  /** `if (errors[name]) errors[name] = ''`: a set message of that key is
      blanked, so it stops showing; no key is added or dropped. */
  function ClearError<K>(errors: map<K, string>, k: K): (r: map<K, string>)
    ensures r.Keys == errors.Keys
    ensures k in r ==> r[k] == ""
    ensures forall j :: j in errors && j != k ==> r[j] == errors[j]
  {
    if k in errors && errors[k] != "" then errors[k := ""] else errors
  }
}
