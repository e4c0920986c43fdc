/** JavaScript values as the credential service sees them, and the few
    JavaScript operators the core applies to them: property lookup, `??`,
    `||`, `===`, `Array.prototype.includes` and `String.prototype.trim`. */
module Values {

  datatype Option<T> = None | Some(value: T)

  /** A JSON-like JavaScript value. `Undefined` stands for a property that is
      not there; `Num` abstracts JavaScript numbers to integers. */
  datatype Json =
    | Undefined
    | Null
    | Bool(b: bool)
    | Num(n: int)
    | Str(s: string)
    | Arr(items: seq<Json>)

  /** A document or a request body: the own properties of a plain object. */
  type Document = map<string, Json>

  /** `obj.key`: the property's value, or undefined when it is absent. */
  function Get(d: Document, key: string): Json {
    if key in d then d[key] else Undefined
  }

  /** JavaScript truthiness. */
  predicate Truthy(v: Json) {
    match v
    case Undefined => false
    case Null => false
    case Bool(b) => b
    case Num(n) => n != 0
    case Str(s) => s != ""
    case Arr(_) => true
  }

  /** `v == null` in JavaScript: null or undefined. */
  predicate IsNullish(v: Json) {
    v.Undefined? || v.Null?
  }

  /** `a ?? b` */
  function Coalesce(a: Json, b: Json): Json {
    if IsNullish(a) then b else a
  }

  /** `a || b` */
  function Or(a: Json, b: Json): Json {
    if Truthy(a) then a else b
  }

  /** `a === b`. Two arrays are distinct objects, so `===` never holds
      between them. */
  predicate StrictEquals(a: Json, b: Json) {
    a == b && !a.Arr?
  }

  /** `xs.includes(x)` (SameValueZero, which agrees with `===` here). */
  predicate Includes(xs: seq<Json>, x: Json) {
    exists i :: 0 <= i < |xs| && StrictEquals(xs[i], x)
  }

  /** The characters `String.prototype.trim` removes: WhiteSpace and
      LineTerminator of ECMAScript. */
  predicate IsSpace(c: char) {
    var n := c as int;
    n == 0x09 || n == 0x0A || n == 0x0B || n == 0x0C || n == 0x0D || n == 0x20
    || n == 0xA0 || n == 0x1680 || (0x2000 <= n <= 0x200A) || n == 0x2028
    || n == 0x2029 || n == 0x202F || n == 0x205F || n == 0x3000 || n == 0xFEFF
  }

  predicate AllSpace(s: string) {
    forall k :: 0 <= k < |s| ==> IsSpace(s[k])
  }

  /** Leading white space removed. */
  function TrimStart(s: string): string {
    if s != [] && IsSpace(s[0]) then TrimStart(s[1..]) else s
  }

  /** Trailing white space removed. */
  function TrimEnd(s: string): string {
    if s != [] && IsSpace(s[|s| - 1]) then TrimEnd(s[..|s| - 1]) else s
  }

  /** `TrimStart` cuts a prefix of white space, and what it keeps does not
      start with white space. */
  lemma {:induction false} TrimStartSpec(s: string)
    ensures |TrimStart(s)| <= |s| && TrimStart(s) == s[|s| - |TrimStart(s)|..]
    ensures AllSpace(s[..|s| - |TrimStart(s)|])
    ensures TrimStart(s) != [] ==> !IsSpace(TrimStart(s)[0])
  {
    if s != [] && IsSpace(s[0]) {
      TrimStartSpec(s[1..]);
      var r := TrimStart(s[1..]);
      assert s[1..][..|s| - 1 - |r|] == s[1..|s| - |r|];
      assert s[..|s| - |r|] == [s[0]] + s[1..|s| - |r|];
    }
  }

  /** `TrimEnd` cuts a suffix of white space, and what it keeps does not
      end with white space. */
  lemma {:induction false} TrimEndSpec(s: string)
    ensures |TrimEnd(s)| <= |s| && TrimEnd(s) == s[..|TrimEnd(s)|]
    ensures AllSpace(s[|TrimEnd(s)|..])
    ensures TrimEnd(s) != [] ==> !IsSpace(TrimEnd(s)[|TrimEnd(s)| - 1])
  {
    if s != [] && IsSpace(s[|s| - 1]) {
      TrimEndSpec(s[..|s| - 1]);
      var r := TrimEnd(s[..|s| - 1]);
      assert s[..|s| - 1][|r|..] + [s[|s| - 1]] == s[|r|..];
    }
  }

  /** `s.trim()` */
  function Trim(s: string): string {
    TrimEnd(TrimStart(s))
  }

  /** `trim` keeps the longest infix of `s` that neither starts nor ends
      with white space, and everything it cuts away is white space. */
  lemma TrimSpec(s: string)
    ensures |Trim(s)| <= |s|
    ensures TrimmedInfix(s, Trim(s), |s| - |TrimStart(s)|)
    ensures IsTrimmed(Trim(s))
  {
    var t := TrimStart(s);
    var r := TrimEnd(t);
    var i := |s| - |t|;
    TrimStartSpec(s);
    TrimEndSpec(t);
    assert t == s[i..] && AllSpace(s[..i]);
    assert r == t[..|r|] && AllSpace(t[|r|..]);
    assert r == s[i..i + |r|];
    assert s[i + |r|..] == t[|r|..];
    assert TrimmedInfix(s, r, i);
    TrimmedEnds(t);
  }

  /** `trim` leaves nothing exactly when `s` is all white space. */
  lemma TrimEmpty(s: string)
    ensures Trim(s) == [] <==> AllSpace(s)
  {
    var t := TrimStart(s);
    var i := |s| - |t|;
    TrimStartSpec(s);
    TrimEndSpec(t);
    if Trim(s) == [] {
      assert AllSpace(t[0..]);
      assert t == s[i..];
      AllSpaceJoin(s, i);
    } else {
      assert t != [] && !IsSpace(t[0]) && t[0] == s[i];
    }
  }

  /** Cutting trailing white space from a string that does not start with
      white space leaves a string that neither starts nor ends with it. */
  lemma TrimmedEnds(t: string)
    requires t != [] ==> !IsSpace(t[0])
    ensures IsTrimmed(TrimEnd(t))
  {
    var r := TrimEnd(t);
    TrimEndSpec(t);
    if r != [] {
      assert r[0] == t[0];
    }
  }

  /** `r` is `s` with white space `s[..i]` cut from the front and white space
      cut from the back. */
  predicate TrimmedInfix(s: string, r: string, i: int) {
    0 <= i <= |s| - |r| && r == s[i..i + |r|] && AllSpace(s[..i]) && AllSpace(s[i + |r|..])
  }

  lemma AllSpaceJoin(s: string, i: int)
    requires 0 <= i <= |s| && AllSpace(s[..i]) && AllSpace(s[i..])
    ensures AllSpace(s)
  {
    forall k | 0 <= k < |s| ensures IsSpace(s[k]) {
      if k < i { assert s[k] == s[..i][k]; } else { assert s[k] == s[i..][k - i]; }
    }
  }

  /** A string `trim` leaves as it is. */
  predicate IsTrimmed(s: string) {
    s == [] || (!IsSpace(s[0]) && !IsSpace(s[|s| - 1]))
  }

  /** Trimming a string that has nothing to trim changes nothing; in
      particular `trim` is idempotent. */
  lemma {:induction false} TrimOfTrimmed(s: string)
    requires IsTrimmed(s)
    ensures Trim(s) == s
  {
    if s != [] {
      assert TrimStart(s) == s;
      assert TrimEnd(s) == s;
    }
  }

  lemma TrimIdempotent(s: string)
    ensures Trim(Trim(s)) == Trim(s)
  {
    TrimSpec(s);
    TrimOfTrimmed(Trim(s));
  }

  // ---------------------------------------------------------------------
  // String(n)
  // ---------------------------------------------------------------------

  /** The decimal digits of `n`, most significant first. */
  function Digits(n: nat): string
    decreases n
  {
    if n < 10 then ["0123456789"[n]] else Digits(n / 10) + ["0123456789"[n % 10]]
  }

  /** `String(n)` for an integer: a minus sign when negative, then the
      digits. */
  function NumberText(n: int): string {
    if n < 0 then "-" + Digits(-n) else Digits(n)
  }

  lemma {:induction false} DigitsAreDigits(n: nat)
    ensures Digits(n) != []
    ensures forall k :: 0 <= k < |Digits(n)| ==> '0' <= Digits(n)[k] <= '9'
    decreases n
  {
    if n >= 10 {
      DigitsAreDigits(n / 10);
    }
  }

  /** The text of a number is non-empty and has nothing to trim. */
  lemma NumberTextTrimmed(n: int)
    ensures NumberText(n) != [] && IsTrimmed(NumberText(n))
    ensures Trim(NumberText(n)) == NumberText(n)
  {
    DigitsAreDigits(if n < 0 then -n else n);
    TrimOfTrimmed(NumberText(n));
  }

  // ---------------------------------------------------------------------
  // Array.prototype.filter / map / flatMap and [...new Set(xs)]
  // ---------------------------------------------------------------------

  /** `xs.filter(p)` */
  function Filter<T(!new)>(xs: seq<T>, p: T -> bool): (r: seq<T>)
    ensures |r| <= |xs|
    ensures forall x :: x in r <==> x in xs && p(x)
    decreases |xs|
  {
    if xs == [] then [] else (if p(xs[0]) then [xs[0]] else []) + Filter(xs[1..], p)
  }

  /** The filter keeps nothing when no element passes. */
  lemma {:induction false} FilterNone<T(!new)>(xs: seq<T>, p: T -> bool)
    requires forall x :: x in xs ==> !p(x)
    ensures Filter(xs, p) == []
    decreases |xs|
  {
    if xs != [] {
      assert forall x :: x in xs[1..] ==> x in xs;
      FilterNone(xs[1..], p);
    }
  }

  /** The filter keeps every element exactly when every element passes. */
  lemma {:induction false} FilterAll<T(!new)>(xs: seq<T>, p: T -> bool)
    ensures |Filter(xs, p)| == |xs| <==> forall i :: 0 <= i < |xs| ==> p(xs[i])
    decreases |xs|
  {
    if xs != [] {
      FilterAll(xs[1..], p);
      assert forall i :: 1 <= i < |xs| ==> xs[i] == xs[1..][i - 1];
      assert forall i :: 0 <= i < |xs| - 1 ==> xs[1..][i] == xs[i + 1];
    }
  }

  /** `xs.map(f)` */
  function Map<T, U>(xs: seq<T>, f: T -> U): (r: seq<U>)
    ensures |r| == |xs|
    ensures forall i :: 0 <= i < |xs| ==> r[i] == f(xs[i])
  {
    seq(|xs|, i requires 0 <= i < |xs| => f(xs[i]))
  }

  /** `xs.flatMap(f)` */
  function FlatMap<T, U>(xs: seq<T>, f: T -> seq<U>): seq<U>
    decreases |xs|
  {
    if xs == [] then [] else f(xs[0]) + FlatMap(xs[1..], f)
  }

  /** `flatMap` with a callback that always returns one element is `map`. */
  lemma {:induction false} FlatMapSingletons<T, U>(xs: seq<T>, f: T -> seq<U>, g: T -> U)
    requires forall x :: f(x) == [g(x)]
    ensures FlatMap(xs, f) == Map(xs, g)
    decreases |xs|
  {
    if xs != [] {
      FlatMapSingletons(xs[1..], f, g);
    }
  }

  /** Two filters in a row are one filter by the conjunction. */
  lemma {:induction false} FilterFilter<T(!new)>(xs: seq<T>, p: T -> bool, q: T -> bool, pq: T -> bool)
    requires forall x :: pq(x) == (p(x) && q(x))
    ensures Filter(Filter(xs, p), q) == Filter(xs, pq)
    decreases |xs|
  {
    if xs != [] {
      FilterFilter(xs[1..], p, q, pq);
      var rest := Filter(xs[1..], p);
      if p(xs[0]) {
        assert Filter(xs, p) == [xs[0]] + rest;
        assert ([xs[0]] + rest)[1..] == rest;
      } else {
        assert Filter(xs, p) == rest;
      }
    }
  }

  /** Filtering mapped values is mapping the values that pass the filter
      they stand for. */
  lemma {:induction false} FilterMap<T(!new), U(!new)>(xs: seq<T>, f: T -> U, p: U -> bool, q: T -> bool)
    requires forall x :: p(f(x)) == q(x)
    ensures Filter(Map(xs, f), p) == Map(Filter(xs, q), f)
    decreases |xs|
  {
    if xs != [] {
      FilterMap(xs[1..], f, p, q);
      var ys := Map(xs, f);
      assert ys[0] == f(xs[0]);
      assert ys[1..] == Map(xs[1..], f);
      var rest := Filter(xs[1..], q);
      if q(xs[0]) {
        assert Filter(ys, p) == [f(xs[0])] + Map(rest, f);
        assert Filter(xs, q) == [xs[0]] + rest;
        MapCons(xs[0], rest, f);
      } else {
        assert Filter(ys, p) == Map(rest, f);
        assert Filter(xs, q) == rest;
      }
    }
  }

  lemma MapCons<T, U>(x: T, rest: seq<T>, f: T -> U)
    ensures Map([x] + rest, f) == [f(x)] + Map(rest, f)
  {
  }

  /** Appending one element filters to the old result plus that element
      when it passes. */
  lemma {:induction false} FilterSnoc<T(!new)>(xs: seq<T>, x: T, p: T -> bool)
    ensures Filter(xs + [x], p) == Filter(xs, p) + (if p(x) then [x] else [])
    decreases |xs|
  {
    if xs != [] {
      assert (xs + [x])[1..] == xs[1..] + [x];
      FilterSnoc(xs[1..], x, p);
    }
  }

  predicate IsArray(v: Json) { v.Arr? }

  /** `[...new Set(xs)]` under SameValueZero: a repeated primitive value is
      kept once, at its first occurrence; an array is an object of its own,
      so no two array occurrences are the same element and each is kept. */
  function SetSpread(xs: seq<Json>): (r: seq<Json>)
    ensures forall x :: x in r <==> x in xs
    ensures forall i, j :: 0 <= i < j < |r| ==> !StrictEquals(r[i], r[j])
    decreases |xs|
  {
    if xs == [] then []
    else
      var r := SetSpread(xs[..|xs| - 1]);
      var x := xs[|xs| - 1];
      assert forall y :: y in xs <==> y in xs[..|xs| - 1] || y == x;
      if !x.Arr? && x in r then r else r + [x]
  }

  /** Every array occurrence of `xs` is in `new Set(xs)`, in order. */
  lemma {:induction false} SetSpreadKeepsArrays(xs: seq<Json>)
    ensures Filter(SetSpread(xs), IsArray) == Filter(xs, IsArray)
    decreases |xs|
  {
    if xs != [] {
      var init, x := xs[..|xs| - 1], xs[|xs| - 1];
      assert xs == init + [x];
      SetSpreadKeepsArrays(init);
      FilterSnoc(init, x, IsArray);
      if x.Arr? || x !in SetSpread(init) {
        FilterSnoc(SetSpread(init), x, IsArray);
      }
    }
  }

  /** The size of `new Set(xs)`: one per distinct primitive value, plus one
      per array occurrence. */
  lemma {:induction false} SetSpreadSize(xs: seq<Json>)
    ensures |SetSpread(xs)| == |set x | x in xs && !x.Arr?| + |Filter(xs, IsArray)|
    decreases |xs|
  {
    if xs != [] {
      var init, x := xs[..|xs| - 1], xs[|xs| - 1];
      assert xs == init + [x];
      SetSpreadSize(init);
      FilterSnoc(init, x, IsArray);
      ElementsOfSnoc(xs, init, x);
      var before := set y | y in init && !y.Arr?;
      var after := set y | y in xs && !y.Arr?;
      if x.Arr? {
        assert after == before;
      } else if x in SetSpread(init) {
        assert x in before;
        assert after == before;
      } else {
        assert x !in before;
        assert after == before + {x};
      }
    }
  }

  /** A sequence has as many distinct values as elements exactly when no
      value repeats. */
  lemma {:induction false} DistinctCount<T(!new)>(xs: seq<T>)
    ensures |set x | x in xs| <= |xs|
    ensures |set x | x in xs| == |xs| <==> forall i, j :: 0 <= i < j < |xs| ==> xs[i] != xs[j]
    decreases |xs|
  {
    if xs != [] {
      var init, x := xs[..|xs| - 1], xs[|xs| - 1];
      assert xs == init + [x];
      DistinctCount(init);
      ElementsOfSnoc(xs, init, x);
      if x in init {
        var i :| 0 <= i < |init| && init[i] == x;
        assert xs[i] == xs[|xs| - 1];
        assert (set y | y in init) + {x} == (set y | y in init);
      } else {
        assert x !in (set y | y in init);
        forall i, j | 0 <= i < j < |xs| && (forall a, b :: 0 <= a < b < |init| ==> init[a] != init[b])
          ensures xs[i] != xs[j]
        {
          if j < |init| {
            assert xs[i] == init[i] && xs[j] == init[j];
          } else {
            assert xs[i] == init[i] && init[i] in init;
          }
        }
        assert (forall i, j :: 0 <= i < j < |xs| ==> xs[i] != xs[j]) ==>
          forall a, b :: 0 <= a < b < |init| ==> init[a] != init[b] by {
          forall a, b | 0 <= a < b < |init| ensures init[a] == xs[a] && init[b] == xs[b] { }
        }
      }
    }
  }

  lemma ElementsOfSnoc<T(!new)>(xs: seq<T>, init: seq<T>, x: T)
    requires xs == init + [x]
    ensures (set y | y in xs) == (set y | y in init) + {x}
  {
  }
}
