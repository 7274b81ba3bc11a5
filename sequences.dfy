/**
 * The two sequence operations the server applies to its connection list:
 * erasing the first entry equal to a value (a `std::vector` search loop
 * followed by `erase`), and, as the reference it is compared with, filtering
 * out a set of values.
 */
module Sequences {

  /** No value occurs twice. */
  predicate NoDup<T(==,!new)>(s: seq<T>)
  {
    forall i, j :: 0 <= i < j < |s| ==> s[i] != s[j]
  }

  /** `s` with its first entry equal to `x` erased; `s` itself when `x` does not occur. */
  function RemoveFirst<T(==,!new)>(s: seq<T>, x: T): (r: seq<T>)
    ensures x !in s ==> r == s
    ensures x in s ==> |r| == |s| - 1
    ensures forall y :: y in s && y != x ==> y in r
    ensures forall y :: y in r ==> y in s
  {
    if s == [] then []
    else if s[0] == x then s[1..]
    else [s[0]] + RemoveFirst(s[1..], x)
  }

  /** The index of the first entry of `s` equal to `x`. */
  function FirstIndex<T(==,!new)>(s: seq<T>, x: T): (j: nat)
    requires x in s
    ensures j < |s| && s[j] == x
    ensures forall k :: 0 <= k < j ==> s[k] != x
  {
    if s[0] == x then 0 else 1 + FirstIndex(s[1..], x)
  }

  /** The entries of `s` that are not in `gone`, in their original order. */
  function Without<T(==,!new)>(s: seq<T>, gone: set<T>): (r: seq<T>)
    ensures forall y :: y in r <==> y in s && y !in gone
    ensures |r| <= |s|
  {
    if s == [] then []
    else (if s[0] in gone then [] else [s[0]]) + Without(s[1..], gone)
  }

  lemma NoDupCons<T(!new)>(s: seq<T>)
    requires s != []
    ensures NoDup(s) <==> s[0] !in s[1..] && NoDup(s[1..])
  {
    if NoDup(s) {
      forall i, j | 0 <= i < j < |s[1..]| ensures s[1..][i] != s[1..][j] {
        assert s[1..][i] == s[i + 1] && s[1..][j] == s[j + 1];
      }
      forall j | 0 <= j < |s[1..]| ensures s[1..][j] != s[0] {
        assert s[1..][j] == s[j + 1];
      }
    }
    if s[0] !in s[1..] && NoDup(s[1..]) {
      forall i, j | 0 <= i < j < |s| ensures s[i] != s[j] {
        assert s[j] == s[1..][j - 1];
        if i > 0 {
          assert s[i] == s[1..][i - 1];
        }
      }
    }
  }

  lemma NoDupAppend<T(!new)>(a: seq<T>, b: seq<T>)
    requires NoDup(a) && NoDup(b)
    requires forall y :: y in a ==> y !in b
    ensures NoDup(a + b)
  {
    forall i, j | 0 <= i < j < |a + b| ensures (a + b)[i] != (a + b)[j] {
      if j < |a| {
        assert (a + b)[i] == a[i] && (a + b)[j] == a[j];
      } else if i >= |a| {
        assert (a + b)[i] == b[i - |a|] && (a + b)[j] == b[j - |a|];
      } else {
        assert (a + b)[i] == a[i] && (a + b)[j] == b[j - |a|];
        assert a[i] in a && b[j - |a|] in b;
      }
    }
  }

  lemma NoDupPrefix<T(!new)>(a: seq<T>, b: seq<T>)
    requires NoDup(a + b)
    ensures NoDup(a) && NoDup(b)
    ensures forall y :: y in a ==> y !in b
  {
    forall i, j | 0 <= i < j < |a| ensures a[i] != a[j] {
      assert (a + b)[i] == a[i] && (a + b)[j] == a[j];
    }
    forall i, j | 0 <= i < j < |b| ensures b[i] != b[j] {
      assert (a + b)[|a| + i] == b[i] && (a + b)[|a| + j] == b[j];
    }
    forall i, j | 0 <= i < |a| && 0 <= j < |b| ensures a[i] != b[j] {
      assert (a + b)[i] == a[i] && (a + b)[|a| + j] == b[j];
    }
  }

  lemma {:induction false} WithoutAppend<T(!new)>(a: seq<T>, b: seq<T>, gone: set<T>)
    ensures Without(a + b, gone) == Without(a, gone) + Without(b, gone)
  {
    if a == [] {
      assert a + b == b;
    } else {
      assert (a + b)[0] == a[0] && (a + b)[1..] == a[1..] + b;
      WithoutAppend(a[1..], b, gone);
    }
  }

  lemma {:induction false} WithoutTwice<T(!new)>(s: seq<T>, g1: set<T>, g2: set<T>)
    ensures Without(Without(s, g1), g2) == Without(s, g1 + g2)
  {
    if s != [] {
      var head := if s[0] in g1 then [] else [s[0]];
      WithoutAppend(head, Without(s[1..], g1), g2);
      WithoutTwice(s[1..], g1, g2);
      if s[0] !in g1 {
        assert Without(head, g2) == Without([s[0]][1..], g2) + (if s[0] in g2 then [] else [s[0]]);
        assert [s[0]][1..] == [];
      }
    }
  }

  lemma {:induction false} WithoutNothing<T(!new)>(s: seq<T>, gone: set<T>)
    requires forall y :: y in s ==> y !in gone
    ensures Without(s, gone) == s
  {
    if s != [] {
      assert forall y :: y in s[1..] ==> y in s;
      WithoutNothing(s[1..], gone);
    }
  }

  lemma {:induction false} WithoutNoDup<T(!new)>(s: seq<T>, gone: set<T>)
    requires NoDup(s)
    ensures NoDup(Without(s, gone))
  {
    if s != [] {
      NoDupCons(s);
      WithoutNoDup(s[1..], gone);
      var head := if s[0] in gone then [] else [s[0]];
      NoDupAppend(head, Without(s[1..], gone));
    }
  }

  /** Keeping everything but a value that lies behind the head keeps the head in front. */
  lemma WithoutKeepsHead<T(!new)>(s: seq<T>, gone: set<T>)
    requires s != [] && s[0] !in gone
    ensures Without(s, gone) != [] && Without(s, gone)[0] == s[0]
  {
  }

  /** Erasing the first match found by a left-to-right search cuts out exactly that index. */
  lemma {:induction false} RemoveFirstAt<T(!new)>(s: seq<T>, x: T, j: nat)
    requires j < |s| && s[j] == x
    requires forall k :: 0 <= k < j ==> s[k] != x
    ensures RemoveFirst(s, x) == s[..j] + s[j + 1..]
  {
    if j > 0 {
      var t := s[1..];
      assert forall k :: 0 <= k < j - 1 ==> t[k] == s[k + 1];
      RemoveFirstAt(t, x, j - 1);
      calc {
        RemoveFirst(s, x);
        [s[0]] + RemoveFirst(t, x);
        [s[0]] + (t[..j - 1] + t[j..]);
        { assert t[..j - 1] == s[1..j] && t[j..] == s[j + 1..]; }
        [s[0]] + (s[1..j] + s[j + 1..]);
        { assert [s[0]] + s[1..j] == s[..j]; }
        s[..j] + s[j + 1..];
      }
    } else {
      assert s[..0] + s[1..] == s[1..];
    }
  }

  /** On a list without duplicates, erasing the first match erases every match. */
  lemma {:induction false} RemoveFirstUnique<T(!new)>(s: seq<T>, x: T)
    requires NoDup(s)
    ensures RemoveFirst(s, x) == Without(s, {x})
    ensures NoDup(RemoveFirst(s, x))
  {
    if s != [] {
      NoDupCons(s);
      if s[0] == x {
        WithoutNothing(s[1..], {x});
      } else {
        RemoveFirstUnique(s[1..], x);
      }
    }
    WithoutNoDup(s, {x});
  }

  /** Erasing the same value a second time changes nothing when there were no duplicates. */
  lemma RemoveTwice<T(!new)>(s: seq<T>, x: T)
    requires NoDup(s)
    ensures RemoveFirst(RemoveFirst(s, x), x) == RemoveFirst(s, x)
  {
  }
}
