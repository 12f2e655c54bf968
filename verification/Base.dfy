/** Datatypes and sequence sums shared by the other modules. */
module Base {

  datatype Option<+T> = None | Some(value: T)

  datatype Result<+T, +E> = Ok(value: T) | Err(error: E)

  // ---- Totals over a sequence ----------------------------------------------------

  function Total<T>(s: seq<T>, weight: T -> int): int {
    if s == [] then 0 else Total(s[..|s| - 1], weight) + weight(s[|s| - 1])
  }

  lemma TotalAppend<T>(s: seq<T>, x: T, weight: T -> int)
    ensures Total(s + [x], weight) == Total(s, weight) + weight(x)
  {
    assert (s + [x])[..|s|] == s;
  }

  lemma {:induction false} TotalConcat<T>(a: seq<T>, b: seq<T>, weight: T -> int)
    ensures Total(a + b, weight) == Total(a, weight) + Total(b, weight)
  {
    if b == [] {
      assert a + b == a;
    } else {
      var last := |b| - 1;
      assert (a + b)[..|a + b| - 1] == a + b[..last];
      TotalConcat(a, b[..last], weight);
    }
  }

  lemma {:induction false} TotalUpdate<T>(s: seq<T>, i: nat, x: T, weight: T -> int)
    requires i < |s|
    ensures Total(s[i := x], weight) == Total(s, weight) - weight(s[i]) + weight(x)
  {
    var last := |s| - 1;
    if i == last {
      assert s[i := x][..last] == s[..last];
    } else {
      assert s[i := x][..last] == s[..last][i := x];
      TotalUpdate(s[..last], i, x, weight);
    }
  }

  /** A total lies between the bounds its weights lie between. */
  lemma {:induction false} TotalBounds<T>(s: seq<T>, weight: T -> int, low: int, high: int)
    requires forall i :: 0 <= i < |s| ==> low <= weight(s[i]) <= high
    ensures |s| * low <= Total(s, weight) <= |s| * high
  {
    if s != [] {
      var front := s[..|s| - 1];
      assert forall i :: 0 <= i < |front| ==> front[i] == s[i];
      TotalBounds(front, weight, low, high);
      assert |s| * low == |front| * low + low && |s| * high == |front| * high + high;
    }
  }

  lemma Cut<T>(b: seq<T>, i: nat)
    requires i < |b|
    ensures b == b[..i] + [b[i]] + b[i + 1..]
  {
  }

  lemma TotalWithout<T>(b: seq<T>, i: nat, weight: T -> int)
    requires i < |b|
    ensures Total(b, weight) == Total(b[..i] + b[i + 1..], weight) + weight(b[i])
  {
    var front, back := b[..i], b[i + 1..];
    TotalConcat(front, back, weight);
    TotalConcat(front + [b[i]], back, weight);
    TotalAppend(front, b[i], weight);
    Cut(b, i);
  }

  /** Taking one element out of two permutations of each other leaves permutations. */
  lemma CutMultiset<T>(b: seq<T>, i: nat)
    requires i < |b|
    ensures multiset(b) == multiset(b[..i] + b[i + 1..]) + multiset{b[i]}
  {
    Cut(b, i);
  }

  lemma TakeOut<T>(a: seq<T>, b: seq<T>, i: nat)
    requires a != [] && multiset(a) == multiset(b) && i < |b| && b[i] == a[|a| - 1]
    ensures multiset(a[..|a| - 1]) == multiset(b[..i] + b[i + 1..])
  {
    var last := |a| - 1;
    CutMultiset(b, i);
    CutMultiset(a, last);
    assert a[..last] + a[last + 1..] == a[..last];
    assert multiset(a[..last]) == multiset(a) - multiset{b[i]};
    assert multiset(b[..i] + b[i + 1..]) == multiset(b) - multiset{b[i]};
  }

  /** A total does not depend on the order of the elements. */
  lemma {:induction false} TotalOfPermutation<T>(a: seq<T>, b: seq<T>, weight: T -> int)
    requires multiset(a) == multiset(b)
    ensures Total(a, weight) == Total(b, weight)
  {
    assert |multiset(a)| == |a| && |multiset(b)| == |b|;
    if a != [] {
      var last := |a| - 1;
      assert a[last] in multiset(b);
      var i :| 0 <= i < |b| && b[i] == a[last];
      TakeOut(a, b, i);
      TotalOfPermutation(a[..last], b[..i] + b[i + 1..], weight);
      TotalWithout(b, i, weight);
    }
  }

  // ---- Keeping what is found -------------------------------------------------------

  /** What `f` finds in each element, in order; elements it finds nothing in are skipped. */
  function Collect<T, U>(s: seq<T>, f: T -> Option<U>): seq<U> {
    if s == [] then []
    else
      var front, found := Collect(s[..|s| - 1], f), f(s[|s| - 1]);
      if found.None? then front else front + [found.value]
  }

  lemma {:induction false} CollectConcat<T, U>(a: seq<T>, b: seq<T>, f: T -> Option<U>)
    ensures Collect(a + b, f) == Collect(a, f) + Collect(b, f)
  {
    if b == [] {
      assert a + b == a;
    } else {
      var last := |b| - 1;
      assert (a + b)[..|a + b| - 1] == a + b[..last];
      CollectConcat(a, b[..last], f);
    }
  }

  lemma CollectSnoc<T, U>(s: seq<T>, x: T, f: T -> Option<U>)
    ensures Collect(s + [x], f) == if f(x).None? then Collect(s, f) else Collect(s, f) + [f(x).value]
  {
    assert (s + [x])[..|s|] == s;
  }

  function Found<T, U>(x: T, f: T -> Option<U>): multiset<U> {
    if f(x).None? then multiset{} else multiset{f(x).value}
  }

  lemma CollectWithout<T, U>(b: seq<T>, i: nat, f: T -> Option<U>)
    requires i < |b|
    ensures multiset(Collect(b, f)) == multiset(Collect(b[..i] + b[i + 1..], f)) + Found(b[i], f)
  {
    var front, back := b[..i], b[i + 1..];
    Cut(b, i);
    CollectConcat(front, back, f);
    CollectConcat(front + [b[i]], back, f);
    CollectSnoc(front, b[i], f);
  }

  /** What is found in a permutation is a permutation of what is found. */
  lemma {:induction false} CollectOfPermutation<T, U>(a: seq<T>, b: seq<T>, f: T -> Option<U>)
    requires multiset(a) == multiset(b)
    ensures multiset(Collect(a, f)) == multiset(Collect(b, f))
  {
    assert |multiset(a)| == |a| && |multiset(b)| == |b|;
    if a != [] {
      var last := |a| - 1;
      assert a[last] in multiset(b);
      var i :| 0 <= i < |b| && b[i] == a[last];
      TakeOut(a, b, i);
      CollectOfPermutation(a[..last], b[..i] + b[i + 1..], f);
      CollectWithout(b, i, f);
    }
  }

  lemma {:induction false} CollectEach<T, U>(own: seq<T>, f: T -> Option<U>, found: seq<U>)
    requires |own| == |found| && forall k :: 0 <= k < |own| ==> f(own[k]) == Some(found[k])
    ensures Collect(own, f) == found
  {
    if own != [] {
      var last := |own| - 1;
      CollectEach(own[..last], f, found[..last]);
      assert found == found[..last] + [found[last]];
    }
  }

  /** One more element of `s`, and the whole of it. */
  lemma CollectNext<T, U>(s: seq<T>, i: nat, f: T -> Option<U>)
    requires i < |s|
    ensures Collect(s[..i + 1], f) == if f(s[i]).None? then Collect(s[..i], f) else Collect(s[..i], f) + [f(s[i]).value]
    ensures i + 1 == |s| ==> s[..i + 1] == s
  {
    assert s[..i + 1] == s[..i] + [s[i]];
    CollectSnoc(s[..i], s[i], f);
  }

  /** The elements of `own` in order, each after the ones of its gap. */
  function Woven<T>(own: seq<T>, gaps: seq<seq<T>>): seq<T>
    requires |gaps| == |own|
  {
    if own == [] then []
    else
      var last := |own| - 1;
      Woven(own[..last], gaps[..last]) + gaps[last] + [own[last]]
  }

  /** What is found in each gap. */
  function CollectAll<T, U>(gaps: seq<seq<T>>, f: T -> Option<U>): (r: seq<seq<U>>)
    ensures |r| == |gaps|
  {
    seq(|gaps|, k requires 0 <= k < |gaps| => Collect(gaps[k], f))
  }

  /** Finding in a woven sequence weaves what is found. */
  lemma {:induction false} CollectWoven<T, U>(own: seq<T>, gaps: seq<seq<T>>, f: T -> Option<U>, found: seq<U>)
    requires |gaps| == |own| == |found|
    requires forall k :: 0 <= k < |own| ==> f(own[k]) == Some(found[k])
    ensures Collect(Woven(own, gaps), f) == Woven(found, CollectAll(gaps, f))
  {
    if own != [] {
      var last := |own| - 1;
      var before := Woven(own[..last], gaps[..last]);
      CollectWoven(own[..last], gaps[..last], f, found[..last]);
      assert CollectAll(gaps, f)[..last] == CollectAll(gaps[..last], f);
      CollectConcat(before, gaps[last], f);
      CollectSnoc(before + gaps[last], own[last], f);
    }
  }

  function Mapped<T, U>(s: seq<T>, f: T -> U): seq<U> {
    if s == [] then [] else Mapped(s[..|s| - 1], f) + [f(s[|s| - 1])]
  }

  lemma MappedSnoc<T, U>(s: seq<T>, x: T, f: T -> U)
    ensures Mapped(s + [x], f) == Mapped(s, f) + [f(x)]
  {
    assert (s + [x])[..|s|] == s;
  }

  lemma {:induction false} MappedAt<T, U>(s: seq<T>, f: T -> U)
    ensures |Mapped(s, f)| == |s| && forall k :: 0 <= k < |s| ==> Mapped(s, f)[k] == f(s[k])
  {
    if s != [] { MappedAt(s[..|s| - 1], f); }
  }

  lemma {:induction false} TotalMapped<T, U>(s: seq<T>, f: T -> U, weight: U -> int, direct: T -> int)
    requires forall k :: 0 <= k < |s| ==> weight(f(s[k])) == direct(s[k])
    ensures Total(Mapped(s, f), weight) == Total(s, direct)
  {
    if s != [] {
      TotalMapped(s[..|s| - 1], f, weight, direct);
      TotalAppend(Mapped(s[..|s| - 1], f), f(s[|s| - 1]), weight);
    }
  }

  lemma {:induction false} CollectMapped<T, U, V>(s: seq<T>, f: T -> U, g: U -> Option<V>, h: T -> Option<V>)
    requires forall k :: 0 <= k < |s| ==> h(s[k]) == g(f(s[k]))
    ensures Collect(Mapped(s, f), g) == Collect(s, h)
  {
    if s != [] {
      CollectMapped(s[..|s| - 1], f, g, h);
      CollectSnoc(Mapped(s[..|s| - 1], f), f(s[|s| - 1]), g);
    }
  }

  lemma {:induction false} MappedConcat<T, U>(a: seq<T>, b: seq<T>, f: T -> U)
    ensures Mapped(a + b, f) == Mapped(a, f) + Mapped(b, f)
  {
    if b == [] {
      assert a + b == a;
    } else {
      var last := |b| - 1;
      assert (a + b)[..|a + b| - 1] == a + b[..last];
      MappedConcat(a, b[..last], f);
    }
  }

  /** Finding in two stages yields what finding in one does, as far as `view` shows. */
  predicate StagesAgree<T, U, V, W(==)>(x: T, f: T -> Option<U>, g: U -> Option<V>, h: T -> Option<V>, view: V -> W) {
    if f(x).None? then h(x).None?
    else
      var staged := g(f(x).value);
      staged.Some? == h(x).Some? && (staged.Some? ==> view(staged.value) == view(h(x).value))
  }

  lemma {:induction false} CollectInStages<T, U, V, W>(s: seq<T>, f: T -> Option<U>, g: U -> Option<V>, h: T -> Option<V>, view: V -> W)
    requires forall i :: 0 <= i < |s| ==> StagesAgree(s[i], f, g, h, view)
    ensures Mapped(Collect(Collect(s, f), g), view) == Mapped(Collect(s, h), view)
  {
    if s != [] {
      var front, x := s[..|s| - 1], s[|s| - 1];
      CollectInStages(front, f, g, h, view);
      assert StagesAgree(x, f, g, h, view);
      if f(x).Some? {
        CollectSnoc(Collect(front, f), f(x).value, g);
        var staged := g(f(x).value);
        if staged.Some? {
          MappedSnoc(Collect(Collect(front, f), g), staged.value, view);
          MappedSnoc(Collect(front, h), h(x).value, view);
        }
      }
    }
  }

  function Value(x: int): int { x }

  function Sum(s: seq<int>): int { Total(s, Value) }

  lemma SumCons(x: int, s: seq<int>)
    ensures Sum([x] + s) == x + Sum(s)
  {
    assert [] + [x] == [x];
    TotalAppend([], x, Value);
    TotalConcat([x], s, Value);
  }

  // ---- Arithmetic -------------------------------------------------------------------

  function Pow(base: nat, exponent: nat): (r: nat)
    ensures base > 0 ==> r > 0
  {
    if exponent == 0 then 1 else
      var rest := Pow(base, exponent - 1);
      assert base > 0 ==> base * rest > 0;
      base * rest
  }

  lemma MulAssociates(a: int, b: int, c: int)
    ensures a * (b * c) == (a * b) * c
  {
  }

  lemma {:induction false} PowAdd(base: nat, m: nat, n: nat)
    ensures Pow(base, m + n) == Pow(base, m) * Pow(base, n)
  {
    if m > 0 {
      PowAdd(base, m - 1, n);
      MulAssociates(base, Pow(base, m - 1), Pow(base, n));
    }
  }

  lemma DivMod(a: nat, d: nat)
    requires d > 0
    ensures a == (a / d) * d + a % d && a / d >= 0 && 0 <= a % d < d
    ensures a / d == 0 ==> a % d == a
  {
  }

  function AtMost(position: nat, bound: nat): (r: nat)
    ensures r <= position && r <= bound && (position <= bound ==> r == position)
  {
    if position > bound then bound else position
  }

  lemma MulAtLeast(k: int, d: int)
    requires k >= 1 && d > 0
    ensures k * d >= d
  {
    assert (k - 1) * d >= 0;
  }

  /** Quotient and remainder by a positive divisor are unique. */
  lemma DivModUnique(a: int, d: int, q: int, r: int)
    requires d > 0 && 0 <= r < d && a == q * d + r
    ensures a / d == q && a % d == r
  {
    var k := q - a / d;
    var r' := a % d;
    assert k * d == r' - r by {
      assert a == (a / d) * d + r';
      assert k * d == q * d - (a / d) * d;
    }
    if k >= 1 {
      MulAtLeast(k, d);
    } else if k <= -1 {
      MulAtLeast(-k, d);
    } else {
      assert k * d == 0;
    }
  }

  lemma ModShift(a: int, d: int, k: int)
    requires d > 0
    ensures (a - k * d) % d == a % d
  {
    assert a == (a / d) * d + a % d;
    assert (a / d - k) * d == (a / d) * d - k * d;
    DivModUnique(a - k * d, d, a / d - k, a % d);
  }
}
