/** The few `str` operations the FEN reader and the PGN writer rely on:
    finding a character, `str.split(sep, maxsplit)` and its inverse
    `sep.join(parts)`. */
module Text {
  import opened Wrappers

  /** The position of the first `c` in `s` (`str.find`, without the -1). */
  function FirstIndex(s: string, c: char): (r: Option<nat>)
    ensures r.Some? ==> r.value < |s| && s[r.value] == c && forall k :: 0 <= k < r.value ==> s[k] != c
    ensures r.None? ==> forall k :: 0 <= k < |s| ==> s[k] != c
    decreases |s|
  {
    if s == [] then None
    else if s[0] == c then Some(0)
    else
      match FirstIndex(s[1..], c)
      case None => None
      case Some(k) => Some(k + 1)
  }

  /** The number of occurrences of `c` in `s` (`str.count`). */
  function Count(s: string, c: char): nat
    decreases |s|
  {
    if s == [] then 0 else (if s[0] == c then 1 else 0) + Count(s[1..], c)
  }

  lemma {:induction false} CountConcat(a: string, b: string, c: char)
    ensures Count(a + b, c) == Count(a, c) + Count(b, c)
    decreases |a|
  {
    if a != [] {
      assert (a + b)[1..] == a[1..] + b;
      CountConcat(a[1..], b, c);
    } else {
      assert a + b == b;
    }
  }

  lemma {:induction false} CountAbsent(s: string, c: char)
    requires forall k :: 0 <= k < |s| ==> s[k] != c
    ensures Count(s, c) == 0
    decreases |s|
  {
    if s != [] {
      assert forall k :: 0 <= k < |s| - 1 ==> s[1..][k] == s[k + 1];
      CountAbsent(s[1..], c);
    }
  }

  /** `s.split(sep, n)`: cut at the first `n` occurrences of `sep`; the last
      part keeps the rest of the text, separators included. */
  function SplitN(s: string, sep: char, n: nat): (r: seq<string>)
    ensures 1 <= |r| <= n + 1
    ensures forall i :: 0 <= i < |r| - 1 ==> sep !in r[i]
    ensures |r| <= n ==> sep !in r[|r| - 1]
    decreases |s|
  {
    if n == 0 then [s]
    else
      match FirstIndex(s, sep)
      case None => [s]
      case Some(k) => [s[..k]] + SplitN(s[k + 1..], sep, n - 1)
  }

  /** `sep.join(parts)`. */
  function Join(parts: seq<string>, sep: char): string
    requires |parts| >= 1
    decreases |parts|
  {
    if |parts| == 1 then parts[0] else parts[0] + [sep] + Join(parts[1..], sep)
  }

  lemma JoinCons(head: string, rest: seq<string>, sep: char)
    requires |rest| >= 1
    ensures Join([head] + rest, sep) == head + [sep] + Join(rest, sep)
  {
    assert ([head] + rest)[1..] == rest;
  }

  /** Splitting at the first separator. */
  lemma SplitFirst(s: string, sep: char, n: nat, k: nat)
    requires n > 0 && FirstIndex(s, sep) == Some(k)
    ensures SplitN(s, sep, n) == [s[..k]] + SplitN(s[k + 1..], sep, n - 1)
    ensures s == s[..k] + [sep] + s[k + 1..]
  {
    assert s[k] == sep;
    assert s == s[..k] + [s[k]] + s[k + 1..];
  }

  /** Joining the parts with the separator gives the text back. */
  lemma {:induction false} SplitJoin(s: string, sep: char, n: nat)
    ensures Join(SplitN(s, sep, n), sep) == s
    decreases |s|
  {
    if n > 0 && FirstIndex(s, sep).Some? {
      var k := FirstIndex(s, sep).value;
      SplitFirst(s, sep, n, k);
      var tail := s[k + 1..];
      var rest := SplitN(tail, sep, n - 1);
      assert |tail| < |s|;
      SplitJoin(tail, sep, n - 1);
      calc {
        Join(SplitN(s, sep, n), sep);
        == // SplitFirst
        Join([s[..k]] + rest, sep);
        == { JoinCons(s[..k], rest, sep); }
        s[..k] + [sep] + Join(rest, sep);
        ==
        s[..k] + [sep] + tail;
      }
    } else {
      assert SplitN(s, sep, n) == [s];
    }
  }

  /** There are `n + 1` parts exactly when the text holds at least `n` separators. */
  lemma {:induction false} SplitCount(s: string, sep: char, n: nat)
    ensures |SplitN(s, sep, n)| == (if Count(s, sep) < n then Count(s, sep) else n) + 1
    decreases |s|
  {
    if FirstIndex(s, sep).None? {
      CountAbsent(s, sep);
    } else {
      var k := FirstIndex(s, sep).value;
      var tail := s[k + 1..];
      CountAfterFirst(s, sep, k);
      if n > 0 {
        SplitFirst(s, sep, n, k);
        SplitCount(tail, sep, n - 1);
      }
    }
  }

  lemma CountAfterFirst(s: string, sep: char, k: nat)
    requires FirstIndex(s, sep) == Some(k)
    ensures Count(s, sep) == Count(s[k + 1..], sep) + 1
  {
    var tail := s[k + 1..];
    assert s == s[..k] + ([sep] + tail);
    CountConcat(s[..k], [sep] + tail, sep);
    assert forall j :: 0 <= j < k ==> s[..k][j] == s[j];
    CountAbsent(s[..k], sep);
    assert ([sep] + tail)[1..] == tail;
  }
}
