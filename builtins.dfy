/** The parts of Python's `str` and `list` behaviour that the modelled code
    relies on: whitespace stripping, upper-casing, `split`, slicing with
    out-of-range bounds, `find`, negative indexing, `list.insert`, `del` and
    `list.index`.  Characters are modelled over ASCII. */
module Builtins {
  import opened Failures

  /** `str.isspace()` restricted to ASCII: blank, the control characters
      TAB to CR, and the four separators FS, GS, RS and US. */
  predicate IsSpace(c: char)
  {
    c == ' ' || 9 <= c as int <= 13 || 28 <= c as int <= 31
  }

  predicate NoSpace(s: string)
  {
    forall i :: 0 <= i < |s| ==> !IsSpace(s[i])
  }

  /** `s.lstrip()`. */
  function LStrip(s: string): (r: string)
    ensures |r| <= |s| && r == s[|s| - |r|..]
    ensures forall i :: 0 <= i < |s| - |r| ==> IsSpace(s[i])
    ensures r != [] ==> !IsSpace(r[0])
  {
    if s != [] && IsSpace(s[0]) then LStrip(s[1..]) else s
  }

  /** `s.rstrip()`. */
  function RStrip(s: string): (r: string)
    ensures |r| <= |s| && r == s[..|r|]
    ensures forall i :: |r| <= i < |s| ==> IsSpace(s[i])
    ensures r != [] ==> !IsSpace(r[|r| - 1])
  {
    if s != [] && IsSpace(s[|s| - 1]) then RStrip(s[..|s| - 1]) else s
  }

  function UpperChar(c: char): char
  {
    if 'a' <= c <= 'z' then (c as int - 32) as char else c
  }

  /** `s.upper()` on ASCII text: lower-case letters become capitals and
      nothing else changes. */
  function Upper(s: string): (r: string)
    ensures |r| == |s|
    ensures forall i :: 0 <= i < |s| ==> r[i] == UpperChar(s[i])
  {
    seq(|s|, i requires 0 <= i < |s| => UpperChar(s[i]))
  }

  lemma UpperIdempotent(s: string)
    ensures Upper(Upper(s)) == Upper(s)
  {
  }

  /** Upper-casing works character by character, so a piece of text that
      upper-casing leaves alone is left alone too. */
  lemma UpperSlice(s: string, i: nat, j: nat)
    requires Upper(s) == s && i <= j <= |s|
    ensures Upper(s[i..j]) == s[i..j]
  {
    forall k | 0 <= k < j - i
      ensures Upper(s[i..j])[k] == s[i..j][k]
    {
      assert Upper(s)[i + k] == UpperChar(s[i + k]);
    }
  }

  lemma UpperConcat(a: string, b: string)
    ensures Upper(a + b) == Upper(a) + Upper(b)
  {
    assert forall k :: 0 <= k < |a| + |b| ==> Upper(a + b)[k] == (Upper(a) + Upper(b))[k];
  }

  /** The words of upper-case text are upper-case. */
  lemma {:induction false} WordsUpper(s: string)
    requires Upper(s) == s
    ensures forall w :: w in Words(s) ==> Upper(w) == w
    decreases |s|
  {
    var t := LStrip(s);
    UpperSlice(s, |s| - |t|, |s|);
    if t != [] {
      var n := WordLength(t);
      UpperSlice(t, 0, n);
      UpperSlice(t, n, |t|);
      WordsUpper(t[n..]);
      assert Words(s) == [t[..n]] + Words(t[n..]);
    }
  }

  lemma UpperKeepsSpaces(s: string)
    ensures forall i :: 0 <= i < |s| ==> (IsSpace(Upper(s)[i]) <==> IsSpace(s[i]))
  {
  }

  /** `s[i:j]` for non-negative bounds: bounds past the end are cut back and
      an inverted range is empty. */
  function Slice(s: string, i: nat, j: nat): (r: string)
    ensures |r| <= |s|
    ensures i <= j <= |s| ==> r == s[i..j]
    ensures j <= i || |s| <= i ==> r == []
  {
    var lo := if i < |s| then i else |s|;
    var hi := if j < |s| then j else |s|;
    if lo <= hi then s[lo..hi] else []
  }

  /** `s[i:]` for a non-negative bound. */
  function SliceFrom(s: string, i: nat): (r: string)
    ensures i <= |s| ==> r == s[i..]
    ensures |s| <= i ==> r == []
  {
    if i < |s| then s[i..] else []
  }

  /** `t` occurs in `s` starting at position `k`. */
  predicate OccursAt(s: string, t: string, k: int)
  {
    0 <= k && k + |t| <= |s| && s[k..k + |t|] == t
  }

  /** `s.find(t)`: the first position where `t` occurs in `s`, or -1. */
  function Find(s: string, t: string): (r: int)
    ensures r == -1 || OccursAt(s, t, r)
    ensures forall k :: 0 <= k && (r == -1 || k < r) ==> !OccursAt(s, t, k)
  {
    FindFrom(s, t, 0)
  }

  function FindFrom(s: string, t: string, k: nat): (r: int)
    ensures r == -1 || (k <= r && OccursAt(s, t, r))
    ensures forall m :: k <= m && (r == -1 || m < r) ==> !OccursAt(s, t, m)
    decreases |s| + 1 - k
  {
    if k + |t| > |s| then -1
    else if s[k..k + |t|] == t then k
    else FindFrom(s, t, k + 1)
  }

  /** The length of the leading run of non-blank characters of `s`. */
  function WordLength(s: string): (n: nat)
    ensures n <= |s|
    ensures forall i :: 0 <= i < n ==> !IsSpace(s[i])
    ensures n < |s| ==> IsSpace(s[n])
  {
    if s == [] || IsSpace(s[0]) then 0 else 1 + WordLength(s[1..])
  }

  /** `s.split()`: the maximal runs of non-blank characters, in order. */
  function Words(s: string): (r: seq<string>)
    ensures forall w :: w in r ==> w != [] && NoSpace(w)
    decreases |s|
  {
    var t := LStrip(s);
    if t == [] then []
    else
      var n := WordLength(t);
      [t[..n]] + Words(t[n..])
  }

  /** `s.split(" ")[0]`: everything before the first blank (tabs do not
      separate here). */
  function FirstField(s: string): (r: string)
    ensures |r| <= |s| && r == s[..|r|]
    ensures ' ' !in r
    ensures |r| < |s| ==> s[|r|] == ' '
  {
    if s == [] || s[0] == ' ' then [] else [s[0]] + FirstField(s[1..])
  }

  /** Python's `s[i]` on a sequence, negative positions counting from the end. */
  function At<T>(s: seq<T>, i: int): (r: Result<T>)
    ensures r.Ok? <==> -|s| <= i < |s|
    ensures 0 <= i < |s| ==> r == Ok(s[i])
    ensures -|s| <= i < 0 ==> r == Ok(s[|s| + i])
    ensures r.Err? ==> r.failure == IndexError
  {
    if 0 <= i < |s| then Ok(s[i])
    else if -|s| <= i < 0 then Ok(s[|s| + i])
    else Err(IndexError)
  }

  /** Python's `s[i] = x`. */
  function SetAt<T>(s: seq<T>, i: int, x: T): (r: Result<seq<T>>)
    ensures r.Ok? <==> -|s| <= i < |s|
    ensures 0 <= i < |s| ==> r == Ok(s[i := x])
    ensures -|s| <= i < 0 ==> r == Ok(s[|s| + i := x])
    ensures r.Err? ==> r.failure == IndexError
  {
    if 0 <= i < |s| then Ok(s[i := x])
    else if -|s| <= i < 0 then Ok(s[|s| + i := x])
    else Err(IndexError)
  }

  /** The position at which `list.insert(i, x)` places `x`: out-of-range
      positions are clamped to the ends of the list. */
  function InsertPosition(n: nat, i: int): (p: nat)
    ensures p <= n
    ensures 0 <= i <= n ==> p == i
    ensures n <= i ==> p == n
    ensures i < 0 ==> p == if n + i < 0 then 0 else n + i
  {
    if i < 0 then (if n + i < 0 then 0 else n + i)
    else if i < n then i else n
  }

  /** `list.insert(i, x)`, which never raises. */
  function Insert<T>(s: seq<T>, i: int, x: T): (r: seq<T>)
    ensures |r| == |s| + 1
    ensures r[InsertPosition(|s|, i)] == x
    ensures r[..InsertPosition(|s|, i)] == s[..InsertPosition(|s|, i)]
    ensures r[InsertPosition(|s|, i) + 1..] == s[InsertPosition(|s|, i)..]
  {
    var p := InsertPosition(|s|, i);
    s[..p] + [x] + s[p..]
  }

  /** `del s[i]`. */
  function Delete<T>(s: seq<T>, i: int): (r: Result<seq<T>>)
    ensures r.Ok? <==> -|s| <= i < |s|
    ensures 0 <= i < |s| ==> r == Ok(s[..i] + s[i + 1..])
    ensures -|s| <= i < 0 ==> r == Ok(s[..|s| + i] + s[|s| + i + 1..])
    ensures r.Err? ==> r.failure == IndexError
  {
    if 0 <= i < |s| then Ok(s[..i] + s[i + 1..])
    else if -|s| <= i < 0 then Ok(s[..|s| + i] + s[|s| + i + 1..])
    else Err(IndexError)
  }

  /** `s.index(x)`: the first position of `x`, or `ValueError`. */
  function IndexOf<T(==)>(s: seq<T>, x: T): (r: Result<nat>)
    ensures r.Ok? <==> x in s
    ensures r.Ok? ==> r.value < |s| && s[r.value] == x && x !in s[..r.value]
    ensures r.Err? ==> r.failure == ValueError
  {
    if s == [] then Err(ValueError)
    else if s[0] == x then Ok(0)
    else match IndexOf(s[1..], x)
      case Ok(k) => (assert s[..k + 1] == [s[0]] + s[1..][..k]; Ok(k + 1))
      case Err(e) => Err(e)
  }

  /** `s.count(x)`. */
  function Count<T(==)>(s: seq<T>, x: T): (n: nat)
    ensures n <= |s|
    ensures n == 0 <==> x !in s
    ensures n == multiset(s)[x]
  {
    if s == [] then 0
    else
      assert s == [s[0]] + s[1..];
      (if s[0] == x then 1 else 0) + Count(s[1..], x)
  }

  /** `s.remove(x)`: deletes the first occurrence of `x`, or `ValueError`. */
  function Remove<T(==)>(s: seq<T>, x: T): (r: Result<seq<T>>)
    ensures r.Ok? <==> x in s
    ensures r.Ok? ==> r.value == s[..IndexOf(s, x).value] + s[IndexOf(s, x).value + 1..]
    ensures r.Ok? ==> multiset(r.value) == multiset(s) - multiset{x}
    ensures r.Err? ==> r.failure == ValueError
  {
    match IndexOf(s, x)
    case Err(e) => Err(e)
    case Ok(i) =>
      assert s == s[..i] + [x] + s[i + 1..];
      Ok(s[..i] + s[i + 1..])
  }

  /** Elements occur at most once. */
  predicate Unique<T(==)>(s: seq<T>)
  {
    forall i, j :: 0 <= i < j < |s| ==> s[i] != s[j]
  }

  lemma InsertMultiset<T>(s: seq<T>, i: int, x: T)
    ensures multiset(Insert(s, i, x)) == multiset(s) + multiset{x}
  {
    var p := InsertPosition(|s|, i);
    assert s == s[..p] + s[p..];
  }
  /** Removing an element of a list without repeats leaves a list without
      repeats that holds every other element. */
  lemma RemoveUnique<T>(s: seq<T>, x: T)
    requires Unique(s) && x in s
    ensures Remove(s, x).Ok? && Unique(Remove(s, x).value)
    ensures forall y :: y in Remove(s, x).value <==> y in s && y != x
  {
    var i := IndexOf(s, x).value;
    var r := Remove(s, x).value;
    assert r == s[..i] + s[i + 1..];
    assert forall m :: 0 <= m < |r| ==> r[m] == (if m < i then s[m] else s[m + 1]);
    forall y
      ensures y in r <==> y in s && y != x
    {
      if y in s && y != x {
        var m :| 0 <= m < |s| && s[m] == y;
        assert m != i;
        if m < i {
          assert r[m] == y;
        } else {
          assert r[m - 1] == y;
        }
      }
    }
  }
}
