/** Shared vocabulary: options, floats as reals with explicit special values, orders, sorting. */
module Prelude {

  datatype Option<+T> = None | Some(value: T)

  datatype Result<+T, +E> = Ok(value: T) | Err(error: E)

  /** An f64 without rounding: a real, or one of the special values. */
  datatype Float = NegInfinity | Finite(value: real) | Infinity | NaN {

    /** `is_finite() && self >= 0.0` */
    predicate NonNegative() {
      Finite? && value >= 0.0
    }

    /** IEEE `<`: false as soon as one side is NaN. */
    predicate Less(other: Float) {
      !NaN? && !other.NaN? && Rank() <= other.Rank() && (Rank() == other.Rank() ==> Finite? && value < other.value)
    }

    /** IEEE `==`: NaN differs from itself. */
    predicate Equals(other: Float) {
      !NaN? && this == other
    }

    function Rank(): int {
      match this
      case NegInfinity => 0
      case Finite(_) => 1
      case Infinity => 2
      case NaN => 3
    }
  }

  function Min(a: real, b: real): real { if a <= b then a else b }

  function Max(a: real, b: real): real { if a >= b then a else b }

  function Clamp(x: real, lo: real, hi: real): real { Max(lo, Min(x, hi)) }

  /** The identifiers that planning and admission accept. */
  predicate ValidIdentifier(value: string) {
    0 < |value| <= 128 &&
    forall c :: c in value ==> 'a' <= c <= 'z' || 'A' <= c <= 'Z' || '0' <= c <= '9' || c == '_' || c == '-' || c == '.'
  }

  /** The characters of an identifier. */
  lemma IdentifierOfOne(c: char)
    ensures ValidIdentifier([c]) <==> 'a' <= c <= 'z' || 'A' <= c <= 'Z' || '0' <= c <= '9' || c in {'_', '-', '.'}
    ensures !ValidIdentifier("")
  {
    assert c in [c];
  }

  /** A text of at least two characters is an identifier exactly when both parts of any split are, up to 128
      characters. */
  lemma IdentifierOfParts(a: string, b: string)
    requires a != "" && b != ""
    ensures ValidIdentifier(a + b) <==> ValidIdentifier(a) && ValidIdentifier(b) && |a| + |b| <= 128
  {
    assert forall c :: c in a + b <==> c in a || c in b;
  }

  // ----- comparison results, as `std::cmp::Ordering` -----

  datatype Ordering = LT | EQ | GT {
    function Then(next: Ordering): Ordering {
      if EQ? then next else this
    }

    function Reverse(): Ordering {
      match this
      case LT => GT
      case EQ => EQ
      case GT => LT
    }
  }

  function CompareInt(a: int, b: int): Ordering {
    if a < b then LT else if a > b then GT else EQ
  }

  /** `f64::total_cmp`, with the one NaN above every other value. */
  function CompareFloat(a: Float, b: Float): Ordering {
    if a.Rank() != b.Rank() then CompareInt(a.Rank(), b.Rank())
    else if a.Finite? then (if a.value < b.value then LT else if a.value > b.value then GT else EQ)
    else EQ
  }

  /** Lexicographic comparison of strings. */
  function CompareString(a: string, b: string): Ordering {
    if |a| == 0 || |b| == 0 then CompareInt(|a|, |b|)
    else if a[0] != b[0] then CompareInt(a[0] as int, b[0] as int)
    else CompareString(a[1..], b[1..])
  }

  /** Two values compare equal only if they are the same; swapping reverses; LT is transitive. */
  ghost predicate TotalOrder<T(!new)>(cmp: (T, T) -> Ordering) {
    && (forall a, b :: cmp(a, b) == EQ <==> a == b)
    && (forall a, b :: cmp(b, a) == cmp(a, b).Reverse())
    && (forall a, b, c :: cmp(a, b) == LT && cmp(b, c) == LT ==> cmp(a, c) == LT)
  }

  lemma {:induction false} CompareStringEq(a: string, b: string)
    ensures CompareString(a, b) == EQ <==> a == b
    ensures CompareString(b, a) == CompareString(a, b).Reverse()
  {
    if |a| > 0 && |b| > 0 && a[0] == b[0] {
      CompareStringEq(a[1..], b[1..]);
      assert a == [a[0]] + a[1..] && b == [b[0]] + b[1..];
    }
  }

  lemma {:induction false} CompareStringTransitive(a: string, b: string, c: string)
    requires CompareString(a, b) == LT && CompareString(b, c) == LT
    ensures CompareString(a, c) == LT
  {
    if |a| > 0 && a[0] == b[0] == c[0] {
      CompareStringTransitive(a[1..], b[1..], c[1..]);
    }
  }

  /** Strings are totally ordered, so names can break every tie. */
  lemma StringOrder()
    ensures TotalOrder(CompareString)
  {
    forall a, b
      ensures CompareString(a, b) == EQ <==> a == b
      ensures CompareString(b, a) == CompareString(a, b).Reverse()
    {
      CompareStringEq(a, b);
    }
    forall a, b, c | CompareString(a, b) == LT && CompareString(b, c) == LT
      ensures CompareString(a, c) == LT
    {
      CompareStringTransitive(a, b, c);
    }
  }

  /** The texts agree before `i`, where `a` is smaller. */
  ghost predicate SmallerAt(a: string, b: string, i: nat) {
    i < |a| && i < |b| && a[i] < b[i] && forall j :: 0 <= j < i ==> a[j] == b[j]
  }

  lemma SmallerTail(a: string, b: string)
    requires |a| > 0 && |b| > 0 && a[0] == b[0]
    ensures (exists i: nat :: SmallerAt(a, b, i)) <==> exists i: nat :: SmallerAt(a[1..], b[1..], i)
    ensures a < b <==> a[1..] < b[1..]
  {
    assert a == [a[0]] + a[1..] && b == [b[0]] + b[1..];
    if i: nat :| SmallerAt(a, b, i) {
      assert i > 0;
      assert SmallerAt(a[1..], b[1..], i - 1);
    }
    if i: nat :| SmallerAt(a[1..], b[1..], i) {
      assert forall j :: 0 < j < i + 1 ==> a[j] == a[1..][j - 1] && b[j] == b[1..][j - 1];
      assert SmallerAt(a, b, i + 1);
    }
  }

  /** `a` comes first exactly when it is a proper prefix of `b` or smaller at the first difference. */
  lemma {:induction false} CompareStringMeaning(a: string, b: string)
    ensures CompareString(a, b) == LT <==> a < b || exists i: nat :: SmallerAt(a, b, i)
  {
    if |a| > 0 && |b| > 0 {
      if a[0] == b[0] {
        SmallerTail(a, b);
        CompareStringMeaning(a[1..], b[1..]);
      } else if a[0] < b[0] {
        assert SmallerAt(a, b, 0);
      }
    }
  }

  /** Numbers by value, the infinities around them, NaN last. */
  lemma CompareFloatMeaning(a: real, b: real)
    ensures CompareFloat(Finite(a), Finite(b)) == LT <==> a < b
    ensures CompareFloat(NegInfinity, Finite(a)) == LT && CompareFloat(Finite(a), Infinity) == LT
    ensures CompareFloat(Infinity, NaN) == LT
  {
  }

  // ----- `slice::sort_by` -----

  ghost predicate Sorted<T>(cmp: (T, T) -> Ordering, s: seq<T>) {
    forall i, j :: 0 <= i < j < |s| ==> cmp(s[i], s[j]) != GT
  }

  function Insert<T>(cmp: (T, T) -> Ordering, x: T, s: seq<T>): (r: seq<T>)
    ensures multiset(r) == multiset(s) + multiset{x} && |r| == |s| + 1
  {
    if s == [] then [x]
    else if cmp(x, s[0]) != GT then [x] + s
    else
      assert s == [s[0]] + s[1..];
      [s[0]] + Insert(cmp, x, s[1..])
  }

  /** The standard library's stable sort, as a function of its comparison. */
  function Sort<T>(cmp: (T, T) -> Ordering, s: seq<T>): (r: seq<T>)
    ensures multiset(r) == multiset(s) && |r| == |s|
  {
    if s == [] then []
    else
      assert s == [s[0]] + s[1..];
      Insert(cmp, s[0], Sort(cmp, s[1..]))
  }

  lemma {:induction false} InsertSorted<T(!new)>(cmp: (T, T) -> Ordering, x: T, s: seq<T>)
    requires TotalOrder(cmp) && Sorted(cmp, s)
    ensures Sorted(cmp, Insert(cmp, x, s))
  {
    var r := Insert(cmp, x, s);
    if s == [] {
    } else if cmp(x, s[0]) != GT {
      forall j | 0 <= j < |s| ensures cmp(x, s[j]) != GT {
      }
    } else {
      var tail := Insert(cmp, x, s[1..]);
      InsertSorted(cmp, x, s[1..]);
      forall j | 0 <= j < |tail| ensures cmp(s[0], tail[j]) != GT {
        assert tail[j] in multiset(tail);
        assert tail[j] == x || tail[j] in s[1..];
      }
    }
  }

  lemma {:induction false} SortSorted<T(!new)>(cmp: (T, T) -> Ordering, s: seq<T>)
    requires TotalOrder(cmp)
    ensures Sorted(cmp, Sort(cmp, s))
  {
    if s != [] {
      SortSorted(cmp, s[1..]);
      InsertSorted(cmp, s[0], Sort(cmp, s[1..]));
    }
  }

  lemma SortedHead<T(!new)>(cmp: (T, T) -> Ordering, a: seq<T>, b: seq<T>)
    requires TotalOrder(cmp) && Sorted(cmp, a) && Sorted(cmp, b) && multiset(a) == multiset(b) && |a| > 0 && |b| > 0
    ensures a[0] == b[0]
  {
    assert a[0] in multiset(b) && b[0] in multiset(a);
    var i :| 0 <= i < |b| && b[i] == a[0];
    var j :| 0 <= j < |a| && a[j] == b[0];
    assert cmp(b[0], b[i]) != GT && cmp(a[0], a[j]) != GT;
    assert cmp(a[0], b[0]) == EQ;
  }

  lemma SameTail<T>(a: seq<T>, b: seq<T>)
    requires |a| > 0 && |b| > 0 && a[0] == b[0] && multiset(a) == multiset(b)
    ensures multiset(a[1..]) == multiset(b[1..])
  {
    assert a == [a[0]] + a[1..] && b == [b[0]] + b[1..];
    assert multiset(a[1..]) == multiset(a) - multiset{a[0]} == multiset(b) - multiset{b[0]};
  }

  /** A sorted arrangement is unique, so sorting forgets the input order. */
  lemma {:induction false} SortedUnique<T(!new)>(cmp: (T, T) -> Ordering, a: seq<T>, b: seq<T>)
    requires TotalOrder(cmp) && Sorted(cmp, a) && Sorted(cmp, b) && multiset(a) == multiset(b)
    ensures a == b
  {
    hide TotalOrder;
    assert |multiset(a)| == |a| && |multiset(b)| == |b|;
    if a != [] {
      SortedHead(cmp, a, b);
      SameTail(a, b);
      SortedUnique(cmp, a[1..], b[1..]);
      assert a == [a[0]] + a[1..] && b == [b[0]] + b[1..];
    }
  }

  lemma SortForgetsOrder<T(!new)>(cmp: (T, T) -> Ordering, a: seq<T>, b: seq<T>)
    requires TotalOrder(cmp) && multiset(a) == multiset(b)
    ensures Sort(cmp, a) == Sort(cmp, b)
  {
    SortSorted(cmp, a);
    SortSorted(cmp, b);
    SortedUnique(cmp, Sort(cmp, a), Sort(cmp, b));
  }

  // ----- composing comparisons -----

  /** A comparison that may tie different values, but consistently. */
  ghost predicate WeakOrder<T(!new)>(cmp: (T, T) -> Ordering) {
    && (forall a, b :: cmp(b, a) == cmp(a, b).Reverse())
    && (forall a, b, c :: cmp(a, b) != GT && cmp(b, c) != GT ==>
          cmp(a, c) != GT && (cmp(a, c) == EQ ==> cmp(a, b) == EQ && cmp(b, c) == EQ))
  }

  /** Comparing by `f` and breaking ties by `g`. */
  lemma ThenWeak<T(!new)>(f: (T, T) -> Ordering, g: (T, T) -> Ordering, h: (T, T) -> Ordering)
    requires WeakOrder(f) && WeakOrder(g) && forall a, b :: h(a, b) == f(a, b).Then(g(a, b))
    ensures WeakOrder(h)
  {
    forall a, b, c | h(a, b) != GT && h(b, c) != GT
      ensures h(a, c) != GT && (h(a, c) == EQ ==> h(a, b) == EQ && h(b, c) == EQ)
    {
      assert f(a, c) != GT;
      if f(a, c) == EQ {
        assert g(a, c) != GT;
      }
    }
  }

  /** Comparing the images under `key`. */
  lemma KeyWeak<T(!new), K(!new)>(cmp: (K, K) -> Ordering, key: T -> K, h: (T, T) -> Ordering)
    requires WeakOrder(cmp) && forall a, b :: h(a, b) == cmp(key(a), key(b))
    ensures WeakOrder(h)
  {
  }

  lemma TotalIsWeak<T(!new)>(cmp: (T, T) -> Ordering)
    requires TotalOrder(cmp)
    ensures WeakOrder(cmp)
  {
  }

  lemma WeakIsTotal<T(!new)>(cmp: (T, T) -> Ordering)
    requires WeakOrder(cmp) && forall a, b :: cmp(a, b) == EQ <==> a == b
    ensures TotalOrder(cmp)
  {
  }

  lemma FloatOrder()
    ensures TotalOrder(CompareFloat)
  {
  }

  // ----- selecting and transforming a list in one pass -----

  function AsSeq<U>(o: Option<U>): seq<U> {
    match o case Some(u) => [u] case None => []
  }

  function FilterMap<T, U>(f: T -> Option<U>, s: seq<T>): seq<U> {
    if s == [] then [] else FilterMap(f, s[..|s| - 1]) + AsSeq(f(s[|s| - 1]))
  }

  lemma {:induction false} FilterMapSplit<T, U>(f: T -> Option<U>, a: seq<T>, b: seq<T>)
    ensures FilterMap(f, a + b) == FilterMap(f, a) + FilterMap(f, b)
  {
    if b == [] {
      assert a + b == a;
    } else {
      assert (a + b)[..|a + b| - 1] == a + b[..|b| - 1];
      FilterMapSplit(f, a, b[..|b| - 1]);
    }
  }

  lemma {:induction false} FilterMapMember<T, U>(f: T -> Option<U>, s: seq<T>, u: U)
    ensures u in FilterMap(f, s) <==> exists t :: t in s && f(t) == Some(u)
  {
    if s != [] {
      FilterMapMember(f, s[..|s| - 1], u);
      var last := s[|s| - 1];
      assert s == s[..|s| - 1] + [last];
      if f(last) == Some(u) {
        assert last in s;
      }
    }
  }

  lemma FilterMapSnoc<T, U>(f: T -> Option<U>, s: seq<T>, t: T)
    ensures FilterMap(f, s + [t]) == FilterMap(f, s) + AsSeq(f(t))
  {
    assert (s + [t])[..|s|] == s;
  }

  lemma FilterMapNone<T, U>(f: T -> Option<U>)
    ensures FilterMap(f, []) == []
  {
  }

  lemma FilterMapOne<T, U>(f: T -> Option<U>, t: T)
    ensures FilterMap(f, [t]) == AsSeq(f(t))
  {
    assert [t][..0] == [];
  }

  /** Taking one element out of the list takes its image out of the result. */
  lemma FilterMapExtract<T, U>(f: T -> Option<U>, s: seq<T>, i: nat)
    requires i < |s|
    ensures multiset(FilterMap(f, s)) == multiset(FilterMap(f, s[..i] + s[i + 1..])) + multiset(AsSeq(f(s[i])))
  {
    hide FilterMap, AsSeq;
    var front, x, back := s[..i], [s[i]], s[i + 1..];
    assert s == front + x + back;
    FilterMapSplit(f, front + x, back);
    FilterMapSplit(f, front, x);
    FilterMapSplit(f, front, back);
    FilterMapOne(f, s[i]);
  }

  /** What is selected, with multiplicity, does not depend on the order of the list. */
  lemma {:induction false} FilterMapForgetsOrder<T, U>(f: T -> Option<U>, a: seq<T>, b: seq<T>)
    requires multiset(a) == multiset(b)
    ensures multiset(FilterMap(f, a)) == multiset(FilterMap(f, b))
    decreases |a|
  {
    hide FilterMap, AsSeq;
    assert |multiset(a)| == |a| && |multiset(b)| == |b|;
    if a == [] {
      assert a == b;
    } else {
      assert a[0] in multiset(b);
      var i :| 0 <= i < |b| && b[i] == a[0];
      var b' := b[..i] + b[i + 1..];
      RemoveSame(a, b, i);
      FilterMapForgetsOrder(f, a[1..], b');
      FilterMapExtract(f, b, i);
      FilterMapExtract(f, a, 0);
      assert a[..0] + a[1..] == a[1..];
    }
  }

  lemma RemoveSame<T>(a: seq<T>, b: seq<T>, i: nat)
    requires |a| > 0 && i < |b| && a[0] == b[i] && multiset(a) == multiset(b)
    ensures multiset(a[1..]) == multiset(b[..i] + b[i + 1..])
  {
    assert a == [a[0]] + a[1..] && b == b[..i] + [b[i]] + b[i + 1..];
    assert multiset(a[1..]) == multiset(a) - multiset{a[0]};
  }

  /** Some enumeration of a set, as a hash map iterates. */
  ghost function Listed<T>(s: set<T>): (r: seq<T>)
    ensures multiset(r) == multiset(s)
  {
    if s == {} then []
    else
      var x :| x in s;
      assert s == {x} + (s - {x});
      [x] + Listed(s - {x})
  }

  /** Strictly in order, so each text at most once. */
  ghost predicate Rising(s: seq<string>) {
    forall i, j :: 0 <= i < j < |s| ==> CompareString(s[i], s[j]) == LT
  }

  lemma OnceEach<T>(s: seq<T>, members: set<T>, i: nat, j: nat)
    requires multiset(s) == multiset(members) && i < j < |s|
    ensures s[i] != s[j]
  {
    assert s == s[..i] + [s[i]] + s[i + 1..j] + [s[j]] + s[j + 1..];
    assert multiset(members)[s[i]] <= 1;
  }

  lemma KeysRise(keys: set<string>)
    ensures Rising(Sort(CompareString, Listed(keys)))
    ensures forall key :: key in Sort(CompareString, Listed(keys)) <==> key in keys
  {
    hide Sort, Listed;
    var sorted := Sort(CompareString, Listed(keys));
    StringOrder();
    SortSorted(CompareString, Listed(keys));
    hide CompareString;
    forall i, j | 0 <= i < j < |sorted| ensures sorted[i] != sorted[j] {
      OnceEach(sorted, keys, i, j);
    }
    assert forall key :: key in sorted <==> key in multiset(sorted);
  }

  /** The keys of a set in order, as a tree map iterates. */
  method SortedKeys(keys: set<string>) returns (r: seq<string>)
    ensures r == Sort(CompareString, Listed(keys))
  {
    var found: seq<string> := [];
    var rest := keys;
    while rest != {}
      invariant rest <= keys && multiset(found) == multiset(keys - rest)
      decreases rest
    {
      var key :| key in rest;
      assert keys - (rest - {key}) == (keys - rest) + {key};
      rest := rest - {key};
      found := found + [key];
    }
    assert keys - {} == keys;
    StringOrder();
    SortForgetsOrder(CompareString, found, Listed(keys));
    r := Sort(CompareString, found);
  }
}
