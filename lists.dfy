/** The array operations the screens use: `filter` by index and by value, and the
    spread-and-slice replacement of one element. */
module Lists {

  ghost predicate NoDuplicates<T>(s: seq<T>) {
    forall i, j :: 0 <= i < j < |s| ==> s[i] != s[j]
  }

  /** Appending a value that is not yet present keeps a sequence duplicate-free. */
  lemma AppendFreshNoDuplicates<T>(s: seq<T>, x: T)
    requires NoDuplicates(s) && x !in s
    ensures NoDuplicates(s + [x])
  {
    forall i, j | 0 <= i < j < |s + [x]| ensures (s + [x])[i] != (s + [x])[j] {
      assert (s + [x])[i] == s[i];
      if j < |s| {
        assert (s + [x])[j] == s[j];
      }
    }
  }

  /** `s.filter((_, i) => i !== index)`: visits every position and keeps all but `index`. */
  function WithoutIndex<T>(s: seq<T>, index: int): seq<T>
    decreases |s|
  {
    if |s| == 0 then []
    else (if index == 0 then [] else [s[0]]) + WithoutIndex(s[1..], index - 1)
  }

  /** The filter removes exactly the element at `index` when it exists and nothing otherwise. */
  lemma {:induction false} WithoutIndexSlices<T>(s: seq<T>, index: int)
    ensures 0 <= index < |s| ==> WithoutIndex(s, index) == s[..index] + s[index + 1..]
    ensures index < 0 || |s| <= index ==> WithoutIndex(s, index) == s
    decreases |s|
  {
    if |s| > 0 {
      WithoutIndexSlices(s[1..], index - 1);
      if 0 < index < |s| {
        assert s[..index] == [s[0]] + s[1..][..index - 1];
        assert s[index + 1..] == s[1..][index..];
      } else if index != 0 {
        assert s == [s[0]] + s[1..];
      }
    }
  }

  /** `s.filter((d) => d !== x)`: drops every occurrence of `x`, keeping the rest in order. */
  function Without<T(==)>(s: seq<T>, x: T): (r: seq<T>)
    decreases |s|
  {
    if |s| == 0 then []
    else (if s[0] == x then [] else [s[0]]) + Without(s[1..], x)
  }

  lemma {:induction false} WithoutMembers<T>(s: seq<T>, x: T)
    ensures forall y :: y in Without(s, x) <==> y in s && y != x
    decreases |s|
  {
    if |s| > 0 {
      WithoutMembers(s[1..], x);
      assert s == [s[0]] + s[1..];
    }
  }

  /** Filtering by value drops every occurrence of the value and keeps every other element as
      many times as it occurred. */
  lemma {:induction false} WithoutCounts<T>(s: seq<T>, x: T)
    ensures multiset(Without(s, x)) == multiset(s)[x := 0]
    decreases |s|
  {
    if |s| > 0 {
      WithoutCounts(s[1..], x);
      assert s == [s[0]] + s[1..];
    }
  }

  /** Filtering a concatenation filters each part, keeping the parts in order. */
  lemma {:induction false} WithoutConcat<T>(a: seq<T>, b: seq<T>, x: T)
    ensures Without(a + b, x) == Without(a, x) + Without(b, x)
    decreases |a|
  {
    if |a| == 0 {
      assert a + b == b;
    } else {
      assert (a + b)[1..] == a[1..] + b;
      WithoutConcat(a[1..], b, x);
    }
  }

  /** In a duplicate-free sequence, filtering out the element at position `k` removes exactly that
      position, keeping the rest in order. */
  lemma WithoutUnique<T>(s: seq<T>, k: int)
    requires NoDuplicates(s) && 0 <= k < |s|
    ensures Without(s, s[k]) == s[..k] + s[k + 1..]
  {
    NotBeforeNorAfter(s, k);
    WithoutAtPosition(s, k);
  }

  /** In a duplicate-free sequence the element at `k` occurs neither before nor after `k`. */
  lemma NotBeforeNorAfter<T>(s: seq<T>, k: int)
    requires NoDuplicates(s) && 0 <= k < |s|
    ensures s[k] !in s[..k] && s[k] !in s[k + 1..]
  {
    var before, after := s[..k], s[k + 1..];
    forall i | 0 <= i < |before| ensures before[i] != s[k] {
      assert before[i] == s[i];
    }
    forall i | 0 <= i < |after| ensures after[i] != s[k] {
      assert after[i] == s[k + 1 + i];
    }
  }

  /** Filtering out a value that occurs only at position `k` removes that position alone. */
  lemma WithoutAtPosition<T>(s: seq<T>, k: int)
    requires 0 <= k < |s| && s[k] !in s[..k] && s[k] !in s[k + 1..]
    ensures Without(s, s[k]) == s[..k] + s[k + 1..]
  {
    var before, rest, after := s[..k], s[k..], s[k + 1..];
    assert s == before + rest;
    WithoutConcat(before, rest, s[k]);
    assert rest[0] == s[k] && rest[1..] == after;
    WithoutAbsent(before, s[k]);
    WithoutAbsent(after, s[k]);
  }

  /** Filtering out a value that does not occur leaves the sequence as it was. */
  lemma {:induction false} WithoutAbsent<T>(s: seq<T>, x: T)
    requires x !in s
    ensures Without(s, x) == s
    decreases |s|
  {
    if |s| > 0 {
      WithoutAbsent(s[1..], x);
      assert s == [s[0]] + s[1..];
    }
  }

  /** Filtering out a value appended at the end of a sequence that does not hold it gives back that sequence. */
  lemma {:induction false} WithoutAppended<T>(s: seq<T>, x: T)
    requires x !in s
    ensures Without(s + [x], x) == s
    decreases |s|
  {
    if |s| == 0 {
    } else {
      assert (s + [x])[1..] == s[1..] + [x];
      WithoutAppended(s[1..], x);
      assert s == [s[0]] + s[1..];
    }
  }

  /** Filtering keeps a duplicate-free sequence duplicate-free. */
  lemma {:induction false} WithoutNoDuplicates<T>(s: seq<T>, x: T)
    requires NoDuplicates(s)
    ensures NoDuplicates(Without(s, x))
    decreases |s|
  {
    if |s| > 0 {
      WithoutNoDuplicates(s[1..], x);
      WithoutMembers(s[1..], x);
      assert s[0] !in s[1..] by {
        forall k | 0 <= k < |s[1..]| ensures s[1..][k] != s[0] { assert s[1..][k] == s[k + 1]; }
      }
      var rest := Without(s[1..], x);
      var head: seq<T> := if s[0] == x then [] else [s[0]];
      forall i, j | 0 <= i < j < |head + rest| ensures (head + rest)[i] != (head + rest)[j] {
        if |head| == 1 && i == 0 {
          assert (head + rest)[j] == rest[j - 1];
          assert rest[j - 1] in rest;
        } else {
          assert (head + rest)[i] == rest[i - |head|] && (head + rest)[j] == rest[j - |head|];
        }
      }
    }
  }

  /** `[...s.slice(0, index), x, ...s.slice(index + 1)]`, with JavaScript's clamping of
      slice bounds that lie past the end. */
  function Splice<T>(s: seq<T>, index: nat, x: T): seq<T> {
    var lo := if index <= |s| then index else |s|;
    var hi := if index + 1 <= |s| then index + 1 else |s|;
    s[..lo] + [x] + s[hi..]
  }

  /** In range, the splice replaces one element and keeps the length; past the end it appends. */
  lemma SpliceEffect<T>(s: seq<T>, index: nat, x: T)
    ensures index < |s| ==> Splice(s, index, x) == s[index := x]
    ensures |s| <= index ==> Splice(s, index, x) == s + [x]
  {
    if index < |s| {
      assert s[..index] + [x] + s[index + 1..] == s[index := x];
    } else {
      assert s[..|s|] == s;
    }
  }
}
