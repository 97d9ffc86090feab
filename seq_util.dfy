/** Array idioms the journal code is built from, as sequence functions: `filter`,
    `includes`-guarded `push`, `new Set(...)` de-duplication, and the
    remove-or-append toggle used for tag and mood selections. */
module SeqUtil {

  ghost predicate NoDuplicates<T>(s: seq<T>)
  {
    forall i, j :: 0 <= i < j < |s| ==> s[i] != s[j]
  }

  /** `a` is `b` with some elements left out, the rest in their original order. */
  predicate IsSubsequence<T(==)>(a: seq<T>, b: seq<T>)
    decreases |b|
  {
    if a == [] then true
    else if b == [] then false
    else (a[0] == b[0] && IsSubsequence(a[1..], b[1..])) || IsSubsequence(a, b[1..])
  }

  /** Array `filter`: the elements satisfying `p`, each as often as in `s`, in order. */
  function Keep<T(!new)>(s: seq<T>, p: T -> bool): (r: seq<T>)
    ensures |r| <= |s|
    ensures forall x :: multiset(r)[x] == if p(x) then multiset(s)[x] else 0
    decreases |s|
  {
    if s == [] then []
    else
      assert s == [s[0]] + s[1..];
      if p(s[0]) then [s[0]] + Keep(s[1..], p) else Keep(s[1..], p)
  }

  /** On a list of at most one element, `Keep` keeps it exactly when it passes. */
  lemma KeepShort<T(!new)>(s: seq<T>, p: T -> bool)
    requires |s| <= 1
    ensures Keep(s, p) == if s != [] && p(s[0]) then s else []
  {
    if s != [] {
      assert s[1..] == [];
    }
  }

  lemma {:induction false} KeepIsSubsequence<T(!new)>(s: seq<T>, p: T -> bool)
    ensures IsSubsequence(Keep(s, p), s)
    decreases |s|
  {
    if s != [] {
      KeepIsSubsequence(s[1..], p);
    }
  }

  lemma {:induction false} KeepMembership<T(!new)>(s: seq<T>, p: T -> bool, x: T)
    ensures x in Keep(s, p) <==> x in s && p(x)
  {
    assert x in Keep(s, p) <==> multiset(Keep(s, p))[x] > 0;
    assert x in s <==> multiset(s)[x] > 0;
  }

  lemma {:induction false} KeepConcat<T(!new)>(a: seq<T>, b: seq<T>, p: T -> bool)
    ensures Keep(a + b, p) == Keep(a, p) + Keep(b, p)
    decreases |a|
  {
    if a == [] {
      assert a + b == b;
    } else {
      assert (a + b)[1..] == a[1..] + b;
      KeepConcat(a[1..], b, p);
      if p(a[0]) {
        calc {
          Keep(a + b, p);
          [a[0]] + Keep(a[1..] + b, p);
          [a[0]] + (Keep(a[1..], p) + Keep(b, p));
          ([a[0]] + Keep(a[1..], p)) + Keep(b, p);
        }
      }
    }
  }

  lemma {:induction false} KeepAll<T(!new)>(s: seq<T>, p: T -> bool)
    requires forall i :: 0 <= i < |s| ==> p(s[i])
    ensures Keep(s, p) == s
    decreases |s|
  {
    if s != [] {
      KeepAll(s[1..], p);
    }
  }

  /** The list without any copy of `x`, the rest in order. */
  function RemoveAll<T(==,!new)>(s: seq<T>, x: T): (r: seq<T>)
  {
    Keep(s, y => y != x)
  }

  lemma RemoveAllAbsent<T(!new)>(s: seq<T>, x: T)
    requires x !in s
    ensures RemoveAll(s, x) == s
  {
    KeepAll(s, y => y != x);
  }

  lemma RemoveAllAppended<T(!new)>(s: seq<T>, x: T)
    requires x !in s
    ensures RemoveAll(s + [x], x) == s
  {
    KeepConcat(s, [x], y => y != x);
    RemoveAllAbsent(s, x);
  }

  lemma {:induction false} RemoveAllKeepsNoDuplicates<T(!new)>(s: seq<T>, x: T)
    requires NoDuplicates(s)
    ensures NoDuplicates(RemoveAll(s, x))
    decreases |s|
  {
    if s != [] {
      assert s == [s[0]] + s[1..];
      KeepConcat([s[0]], s[1..], y => y != x);
      var rest := RemoveAll(s[1..], x);
      RemoveAllKeepsNoDuplicates(s[1..], x);
      KeepMembership(s[1..], y => y != x, s[0]);
      assert s[0] !in rest;
    }
  }

  /** The selection toggle of `toggleTag` and `toggleMoodFilter`: a selected item is
      removed, an unselected one is appended. */
  function Toggle<T(==,!new)>(s: seq<T>, x: T): (r: seq<T>)
  {
    if x in s then RemoveAll(s, x) else s + [x]
  }

  /** Toggling removes every copy of a selected item and keeps the others in order,
      and appends an unselected one at the end. */
  lemma ToggleEffect<T(!new)>(s: seq<T>, x: T)
    ensures x in s ==> IsSubsequence(Toggle(s, x), s)
    ensures x in s ==> forall y :: multiset(Toggle(s, x))[y] == if y == x then 0 else multiset(s)[y]
    ensures x !in s ==> Toggle(s, x) == s + [x]
    ensures forall y :: y in Toggle(s, x) <==> if y == x then x !in s else y in s
  {
    if x in s {
      KeepIsSubsequence(s, y => y != x);
    }
    forall y
      ensures y in Toggle(s, x) <==> if y == x then x !in s else y in s
    {
      if x in s {
        KeepMembership(s, z => z != x, y);
      }
    }
  }

  /** Toggling an unselected item twice restores the selection exactly. */
  lemma ToggleTwiceFromAbsent<T(!new)>(s: seq<T>, x: T)
    requires x !in s
    ensures Toggle(Toggle(s, x), x) == s
  {
    RemoveAllAppended(s, x);
  }

  /** Toggling a selected item twice moves it to the end: on a duplicate-free selection
      the elements are the same, only the position of `x` may change. */
  lemma ToggleTwiceFromPresent<T(!new)>(s: seq<T>, x: T)
    requires x in s
    ensures Toggle(Toggle(s, x), x) == RemoveAll(s, x) + [x]
    ensures NoDuplicates(s) ==> multiset(Toggle(Toggle(s, x), x)) == multiset(s)
  {
    var r := RemoveAll(s, x);
    KeepMembership(s, y => y != x, x);
    assert x !in r;
    if NoDuplicates(s) {
      assert multiset(s)[x] == 1 by { OccursOnce(s, x); }
      forall y
        ensures multiset(r + [x])[y] == multiset(s)[y]
      {
      }
      assert multiset(r + [x]) == multiset(s);
    }
  }

  lemma {:induction false} OccursOnce<T>(s: seq<T>, x: T)
    requires NoDuplicates(s) && x in s
    ensures multiset(s)[x] == 1
    decreases |s|
  {
    assert s == [s[0]] + s[1..];
    if s[0] == x {
      assert x !in s[1..];
    } else {
      OccursOnce(s[1..], x);
    }
  }

  lemma ToggleKeepsNoDuplicates<T(!new)>(s: seq<T>, x: T)
    requires NoDuplicates(s)
    ensures NoDuplicates(Toggle(s, x))
  {
    if x in s {
      RemoveAllKeepsNoDuplicates(s, x);
    }
  }

  /** Each element of `xs` in turn is pushed onto `acc` unless `acc` already includes it
      (the guarded push of the tag and mood reduces); from `acc == []` it is also the
      de-duplication done through a `Set`. */
  function AppendAbsent<T(==)>(acc: seq<T>, xs: seq<T>): seq<T>
    decreases |xs|
  {
    if xs == [] then acc
    else
      var r := AppendAbsent(acc, xs[..|xs| - 1]);
      if xs[|xs| - 1] in r then r else r + [xs[|xs| - 1]]
  }

  /** The loop behind `AppendAbsent`. */
  method PushAbsent<T(==)>(acc: seq<T>, xs: seq<T>) returns (r: seq<T>)
    ensures r == AppendAbsent(acc, xs)
  {
    r := acc;
    for j := 0 to |xs|
      invariant r == AppendAbsent(acc, xs[..j])
    {
      assert xs[..j + 1][..j] == xs[..j];
      if !(xs[j] in r) {
        r := r + [xs[j]];
      }
    }
    assert xs[..|xs|] == xs;
  }

  /** The original elements stay a prefix; the result holds exactly the elements of
      both; duplicate-freedom is kept. */
  lemma {:induction false} AppendAbsentProperties<T>(acc: seq<T>, xs: seq<T>)
    ensures |acc| <= |AppendAbsent(acc, xs)| && AppendAbsent(acc, xs)[..|acc|] == acc
    ensures forall x :: x in AppendAbsent(acc, xs) <==> x in acc || x in xs
    ensures NoDuplicates(acc) ==> NoDuplicates(AppendAbsent(acc, xs))
    decreases |xs|
  {
    if xs != [] {
      var init := xs[..|xs| - 1];
      AppendAbsentProperties(acc, init);
      assert xs == init + [xs[|xs| - 1]];
      var r := AppendAbsent(acc, init);
      if xs[|xs| - 1] !in r {
        assert (r + [xs[|xs| - 1]])[..|acc|] == r[..|acc|];
      }
    }
  }

  lemma {:induction false} AppendAbsentConcat<T>(acc: seq<T>, xs: seq<T>, ys: seq<T>)
    ensures AppendAbsent(acc, xs + ys) == AppendAbsent(AppendAbsent(acc, xs), ys)
    decreases |ys|
  {
    if ys == [] {
      assert xs + ys == xs;
    } else {
      assert (xs + ys)[..|xs + ys| - 1] == xs + ys[..|ys| - 1];
      AppendAbsentConcat(acc, xs, ys[..|ys| - 1]);
    }
  }

  /** De-duplicating a duplicate-free sequence changes nothing. */
  lemma {:induction false} AppendAbsentOfDistinct<T>(xs: seq<T>)
    requires NoDuplicates(xs)
    ensures AppendAbsent([], xs) == xs
    decreases |xs|
  {
    if xs != [] {
      var init := xs[..|xs| - 1];
      AppendAbsentOfDistinct(init);
      assert xs == init + [xs[|xs| - 1]];
      assert xs[|xs| - 1] !in init;
    }
  }

  /** Position of the first occurrence of `x` in `s`. */
  function FirstIndex<T(==)>(s: seq<T>, x: T): (k: nat)
    requires x in s
    ensures k < |s| && s[k] == x && x !in s[..k]
  {
    if s[0] == x then 0
    else
      assert s == [s[0]] + s[1..];
      var k := FirstIndex(s[1..], x);
      assert s[..k + 1] == [s[0]] + s[1..][..k];
      k + 1
  }

  lemma {:induction false} FirstIndexOfPrefix<T>(s: seq<T>, t: seq<T>, x: T)
    requires x in s
    ensures x in s + t && FirstIndex(s + t, x) == FirstIndex(s, x)
    decreases |s|
  {
    assert (s + t)[0] == s[0];
    if s[0] != x {
      assert s == [s[0]] + s[1..];
      assert (s + t)[1..] == s[1..] + t;
      FirstIndexOfPrefix(s[1..], t, x);
    }
  }

  /** The elements of `r` come from `xs`, in the order of their first occurrence there. */
  ghost predicate InFirstOccurrenceOrder<T>(r: seq<T>, xs: seq<T>)
  {
    && (forall x :: x in r ==> x in xs)
    && forall i, j :: 0 <= i < j < |r| ==> FirstIndex(xs, r[i]) < FirstIndex(xs, r[j])
  }

  lemma OrderSurvivesLongerSource<T>(r: seq<T>, init: seq<T>, last: T)
    requires InFirstOccurrenceOrder(r, init)
    ensures InFirstOccurrenceOrder(r, init + [last])
  {
    forall x | x in r
      ensures FirstIndex(init + [last], x) == FirstIndex(init, x)
    {
      FirstIndexOfPrefix(init, [last], x);
    }
    forall i, j | 0 <= i < j < |r|
      ensures FirstIndex(init + [last], r[i]) < FirstIndex(init + [last], r[j])
    {
      assert r[i] in r && r[j] in r;
    }
  }

  lemma OrderSurvivesNewLast<T>(r: seq<T>, init: seq<T>, last: T)
    requires InFirstOccurrenceOrder(r, init + [last])
    requires forall x :: x in r ==> x in init
    requires last !in init
    ensures InFirstOccurrenceOrder(r + [last], init + [last])
  {
    var xs := init + [last];
    assert FirstIndex(xs, last) == |xs| - 1 by {
      assert xs[|xs| - 1] == last && last !in xs[..|xs| - 1];
    }
    var r' := r + [last];
    forall i, j | 0 <= i < j < |r'|
      ensures FirstIndex(xs, r'[i]) < FirstIndex(xs, r'[j])
    {
      assert r'[i] == r[i] && r[i] in r;
      if j < |r| {
        assert r'[j] == r[j];
      }
    }
  }

  /** De-duplicating keeps elements in the order of their first occurrence. */
  lemma {:induction false} AppendAbsentFirstOccurrenceOrder<T>(xs: seq<T>)
    ensures InFirstOccurrenceOrder(AppendAbsent([], xs), xs)
    decreases |xs|
  {
    if xs != [] {
      var init, last := xs[..|xs| - 1], xs[|xs| - 1];
      assert xs == init + [last];
      AppendAbsentFirstOccurrenceOrder(init);
      var r := AppendAbsent([], init);
      AppendAbsentProperties([], init);
      OrderSurvivesLongerSource(r, init, last);
      if last !in r {
        OrderSurvivesNewLast(r, init, last);
      }
    }
  }
}
