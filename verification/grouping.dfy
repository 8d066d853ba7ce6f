/**
 * Grouping a sequence by a key: the set of keys it uses, the elements whose
 * key already occurred earlier ("repeats"), and injectivity of the key.
 * The duplicate sweep keys leads by search and phone; row identity keys them
 * by id.
 */
module Grouping {

  /** The set of keys the elements of `s` use. */
  function Image<T(==), K(==)>(s: seq<T>, key: T -> K): set<K>
  {
    set x | x in s :: key(x)
  }

  /** No two positions of `s` share a key. */
  ghost predicate Injective<T, K>(s: seq<T>, key: T -> K)
  {
    forall i, j :: 0 <= i < j < |s| ==> key(s[i]) != key(s[j])
  }

  /** Some earlier position of `s` has the same key as position `j`. */
  ghost predicate IsRepeatAt<T, K>(s: seq<T>, key: T -> K, j: int)
    requires 0 <= j < |s|
  {
    exists i :: 0 <= i < j && key(s[i]) == key(s[j])
  }

  /**
   * The elements of `s`, in order, whose key already occurred at an earlier
   * position: scanning left to right and remembering the keys seen, these
   * are the ones found already remembered.
   */
  function Repeats<T(==), K(==)>(s: seq<T>, key: T -> K): seq<T>
    decreases |s|
  {
    if |s| == 0 then []
    else
      var init := s[..|s| - 1];
      Repeats(init, key) + (if key(s[|s| - 1]) in Image(init, key) then [s[|s| - 1]] else [])
  }

  lemma ImageSnoc<T, K>(s: seq<T>, key: T -> K)
    requires |s| > 0
    ensures Image(s, key) == Image(s[..|s| - 1], key) + {key(s[|s| - 1])}
  {
    assert s == s[..|s| - 1] + [s[|s| - 1]];
  }

  /** Every element is either the first of its key or a repeat: |repeats| + |keys| = |s|. */
  lemma {:induction false} RepeatsCount<T, K>(s: seq<T>, key: T -> K)
    ensures |Repeats(s, key)| + |Image(s, key)| == |s|
    decreases |s|
  {
    if |s| > 0 {
      var init := s[..|s| - 1];
      RepeatsCount(init, key);
      ImageSnoc(s, key);
      if key(s[|s| - 1]) !in Image(init, key) {
        assert |Image(s, key)| == |Image(init, key)| + 1;
      } else {
        assert Image(s, key) == Image(init, key);
      }
    }
  }

  /** A position whose key occurred earlier contributes its element to the repeats. */
  lemma {:induction false} RepeatAtIsRepeat<T, K>(s: seq<T>, key: T -> K, j: int)
    requires 0 <= j < |s| && IsRepeatAt(s, key, j)
    ensures s[j] in Repeats(s, key)
    decreases |s|
  {
    var init := s[..|s| - 1];
    var i :| 0 <= i < j && key(s[i]) == key(s[j]);
    if j == |s| - 1 {
      assert init[i] == s[i];
      assert key(s[j]) in Image(init, key);
    } else {
      assert init[i] == s[i] && init[j] == s[j];
      RepeatAtIsRepeat(init, key, j);
    }
  }

  /** Every repeat is an element at a position whose key occurred earlier. */
  lemma {:induction false} RepeatComesFromRepeatAt<T, K>(s: seq<T>, key: T -> K, x: T)
    requires x in Repeats(s, key)
    ensures exists j :: 0 <= j < |s| && s[j] == x && IsRepeatAt(s, key, j)
    decreases |s|
  {
    var init := s[..|s| - 1];
    if x in Repeats(init, key) {
      RepeatComesFromRepeatAt(init, key, x);
      var j :| 0 <= j < |init| && init[j] == x && IsRepeatAt(init, key, j);
      var i :| 0 <= i < j && key(init[i]) == key(init[j]);
      assert s[i] == init[i] && s[j] == init[j];
      assert IsRepeatAt(s, key, j);
    } else {
      var last := |s| - 1;
      assert x == s[last] && key(s[last]) in Image(init, key);
      var y :| y in init && key(y) == key(s[last]);
      var i :| 0 <= i < |init| && init[i] == y;
      assert s[i] == y;
      assert IsRepeatAt(s, key, last);
    }
  }

  /** A sequence has no repeats exactly when its key is injective on it. */
  lemma NoRepeatsIffInjective<T, K>(s: seq<T>, key: T -> K)
    ensures Repeats(s, key) == [] <==> Injective(s, key)
  {
    if Repeats(s, key) == [] {
      forall i, j | 0 <= i < j < |s|
        ensures key(s[i]) != key(s[j])
      {
        if key(s[i]) == key(s[j]) {
          assert IsRepeatAt(s, key, j);
          RepeatAtIsRepeat(s, key, j);
        }
      }
    } else {
      RepeatComesFromRepeatAt(s, key, Repeats(s, key)[0]);
    }
  }

  /** The key is injective on `s` exactly when `s` uses as many keys as it has elements. */
  lemma InjectiveIffImageSize<T, K>(s: seq<T>, key: T -> K)
    ensures Injective(s, key) <==> |Image(s, key)| == |s|
  {
    RepeatsCount(s, key);
    NoRepeatsIffInjective(s, key);
  }

  /** Every key used in `s` is first used at a position that is not a repeat. */
  lemma {:induction false} FirstOccurrence<T, K>(s: seq<T>, key: T -> K, j: int)
    requires 0 <= j < |s|
    ensures exists i :: 0 <= i <= j && key(s[i]) == key(s[j]) && !IsRepeatAt(s, key, i)
    decreases j
  {
    if IsRepeatAt(s, key, j) {
      var i :| 0 <= i < j && key(s[i]) == key(s[j]);
      FirstOccurrence(s, key, i);
    }
  }

  /** Two orderings of the same elements use the same keys, and injectivity transfers between them. */
  lemma PermutationKeys<T, K>(a: seq<T>, b: seq<T>, key: T -> K)
    requires multiset(a) == multiset(b)
    ensures |a| == |b|
    ensures Image(a, key) == Image(b, key)
    ensures Injective(a, key) <==> Injective(b, key)
  {
    assert |a| == |multiset(a)| == |multiset(b)| == |b|;
    forall x | x in a ensures x in b {
      assert x in multiset(a);
    }
    forall x | x in b ensures x in a {
      assert x in multiset(b);
    }
    InjectiveIffImageSize(a, key);
    InjectiveIffImageSize(b, key);
  }
}
