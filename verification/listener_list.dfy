/**
 * The listener list kept by a game event, as a value: a sequence of listener
 * identities with the two mutations the event applies to it, "add if absent"
 * (a Contains check followed by List.Add) and "remove if present" (a Contains
 * check followed by List.Remove, which drops the first occurrence).
 */
module ListenerList {

  /** No listener occurs twice. */
  ghost predicate NoDuplicates<X>(s: seq<X>) {
    forall i, j :: 0 <= i < j < |s| ==> s[i] != s[j]
  }

  /** The list after registering `x`: appended at the end unless already present. */
  function Add<X(==)>(s: seq<X>, x: X): (r: seq<X>)
    ensures x in r
    ensures forall y :: y in s ==> y in r
    ensures NoDuplicates(s) ==> NoDuplicates(r)
  {
    if x in s then s else s + [x]
  }

  /** The list after List.Remove(x): the first occurrence of `x` is dropped, if any. */
  function Remove<X(==)>(s: seq<X>, x: X): (r: seq<X>)
    ensures x !in s ==> r == s
    ensures x in s ==> |r| == |s| - 1
  {
    if s == [] then []
    else if s[0] == x then
      assert s == [s[0]] + s[1..];
      s[1..]
    else
      assert s == [s[0]] + s[1..];
      [s[0]] + Remove(s[1..], x)
  }

  /** Removal drops exactly one copy of a present listener and nothing else. */
  lemma {:induction false} RemoveMultiset<X>(s: seq<X>, x: X)
    ensures multiset(Remove(s, x)) == multiset(s) - multiset{x}
  {
    if s != [] {
      assert s == [s[0]] + s[1..];
      if s[0] != x {
        RemoveMultiset(s[1..], x);
      }
    }
  }

  /** Position of the first occurrence of `x` in `s`. */
  function IndexOf<X(==)>(s: seq<X>, x: X): (i: nat)
    requires x in s
    ensures i < |s| && s[i] == x
    ensures forall k :: 0 <= k < i ==> s[k] != x
  {
    if s[0] == x then 0 else 1 + IndexOf(s[1..], x)
  }

  /**
   * Removing a present listener cuts exactly its first occurrence out of the
   * list: everything before it and everything after it keeps its relative order.
   */
  lemma {:induction false} RemoveCutsFirstOccurrence<X>(s: seq<X>, x: X)
    requires x in s
    ensures Remove(s, x) == s[..IndexOf(s, x)] + s[IndexOf(s, x) + 1..]
  {
    RemoveCutsAt(s, x, IndexOf(s, x));
  }

  /** Removal at a given first occurrence, by induction on the position. */
  lemma {:induction false} RemoveCutsAt<X>(s: seq<X>, x: X, i: nat)
    requires i < |s| && s[i] == x
    requires forall k :: 0 <= k < i ==> s[k] != x
    ensures Remove(s, x) == s[..i] + s[i + 1..]
  {
    if i == 0 {
      assert s[..0] + s[1..] == s[1..];
    } else {
      var tail := s[1..];
      assert forall k :: 0 <= k < i - 1 ==> tail[k] == s[k + 1];
      RemoveCutsAt(tail, x, i - 1);
      assert [s[0]] + tail[..i - 1] == s[..i];
      assert tail[i..] == s[i + 1..];
    }
  }

  /** Removing keeps the list free of duplicates, and the removed listener is gone. */
  lemma {:induction false} RemoveKeepsNoDuplicates<X>(s: seq<X>, x: X)
    requires NoDuplicates(s)
    ensures NoDuplicates(Remove(s, x))
    ensures x !in Remove(s, x)
  {
    if s != [] {
      assert NoDuplicates(s[1..]) by {
        forall i, j | 0 <= i < j < |s[1..]| ensures s[1..][i] != s[1..][j] {
          assert s[1..][i] == s[i + 1] && s[1..][j] == s[j + 1];
        }
      }
      if s[0] == x {
        forall k | 0 <= k < |s[1..]| ensures s[1..][k] != x {
          assert s[1..][k] == s[k + 1];
        }
      } else {
        RemoveKeepsNoDuplicates(s[1..], x);
        var rest := Remove(s[1..], x);
        assert s[0] !in s[1..] by {
          forall k | 0 <= k < |s[1..]| ensures s[1..][k] != s[0] {
            assert s[1..][k] == s[k + 1];
          }
        }
        assert s[0] !in rest by {
          RemoveMultiset(s[1..], x);
          assert multiset(s[1..])[s[0]] == 0;
          assert multiset(rest)[s[0]] == 0;
        }
        var r := [s[0]] + rest;
        forall i, j | 0 <= i < j < |r| ensures r[i] != r[j] {
          if i == 0 {
            assert r[j] == rest[j - 1];
          } else {
            assert r[i] == rest[i - 1] && r[j] == rest[j - 1];
          }
        }
      }
    }
  }

  /** Registering a listener that was not present and then unregistering it gives back the original list. */
  lemma {:induction false} AddThenRemove<X>(s: seq<X>, x: X)
    requires x !in s
    ensures Remove(Add(s, x), x) == s
  {
    if s == [] {
      assert Add(s, x) == [x];
    } else {
      assert (s + [x])[0] == s[0];
      assert (s + [x])[1..] == s[1..] + [x];
      AddThenRemove(s[1..], x);
      assert Add(s[1..], x) == s[1..] + [x];
      assert s == [s[0]] + s[1..];
    }
  }

  /** Registering twice is the same as registering once, and the listener then occurs exactly once. */
  lemma {:induction false} AddIdempotent<X>(s: seq<X>, x: X)
    requires NoDuplicates(s)
    ensures Add(Add(s, x), x) == Add(s, x)
    ensures multiset(Add(s, x))[x] == 1
  {
    if x !in s {
      assert multiset(s)[x] == 0;
      assert multiset(s + [x]) == multiset(s) + multiset{x};
    } else {
      var i := IndexOf(s, x);
      RemoveCutsFirstOccurrence(s, x);
      RemoveKeepsNoDuplicates(s, x);
      var r := Remove(s, x);
      RemoveMultiset(s, x);
      assert multiset(r)[x] == 0;
    }
  }
}
