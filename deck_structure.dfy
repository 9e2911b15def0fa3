/** Structure detection over the lines of a `.dat` input deck: where the
    chapters, programs and system directives start and end, and what
    `_build_structure` makes of them, stated on values. */
module DeckStructure {
  import opened Failures
  import opened Builtins
  import opened Sorting
  import opened Directive
  import opened Program

  /** A (first line, last line) pair; the last chapter's span ends one past
      the last line. */
  type Span = (nat, nat)

  /** `line.lstrip()[3:10] == "CHAPTER"`. */
  predicate IsChapterHeader(line: string)
  {
    Slice(LStrip(line), 3, 10) == "CHAPTER"
  }

  /** `line.lstrip()[1:5] == "PROG"`. */
  predicate IsProgStart(line: string)
  {
    Slice(LStrip(line), 1, 5) == "PROG"
  }

  /** `line.lstrip().split(" ")[0] == "END"`. */
  predicate IsEnd(line: string)
  {
    FirstField(LStrip(line)) == "END"
  }

  /** A line cannot both open a program and close one. */
  lemma ProgIsNotEnd(line: string)
    ensures !(IsProgStart(line) && IsEnd(line))
  {
    var t := LStrip(line);
    if IsEnd(line) {
      var f := FirstField(t);
      assert f == "END";
      assert t[1] == f[1] == 'N';
      if 5 <= |t| {
        assert Slice(t, 1, 5)[0] == 'N';
      }
    }
  }

  function Id(x: nat): int
  {
    x
  }

  function Start(s: Span): int
  {
    s.0
  }

  /** `[(xs[i], xs[i + 1]) for i in range(0, len(xs), 2)]`: an odd-length
      list runs off its end. */
  function Pairs(xs: seq<nat>): (r: Result<seq<Span>>)
    ensures r.Ok? <==> |xs| % 2 == 0
    ensures r.Ok? ==> |r.value| * 2 == |xs| &&
                      forall i :: 0 <= i < |r.value| ==> r.value[i] == (xs[2 * i], xs[2 * i + 1])
    ensures r.Err? ==> r.failure == IndexError
  {
    if xs == [] then Ok([])
    else if |xs| == 1 then Err(IndexError)
    else
      match Pairs(xs[2..])
      case Err(e) => Err(e)
      case Ok(rest) => Ok([(xs[0], xs[1])] + rest)
  }

  lemma {:induction false} PairsAppend(xs: seq<nat>, a: nat, b: nat)
    requires |xs| % 2 == 0
    ensures Pairs(xs + [a, b]) == Ok(Pairs(xs).value + [(a, b)])
    decreases |xs|
  {
    var ys := xs + [a, b];
    if xs == [] {
      assert ys == [a, b] && ys[2..] == [] && Pairs(ys[2..]) == Ok([]);
      assert Pairs(ys) == Ok([(a, b)] + []);
      assert Pairs(xs) == Ok([]);
      assert [(a, b)] + [] == [] + [(a, b)];
    } else {
      assert ys[2..] == xs[2..] + [a, b];
      PairsAppend(xs[2..], a, b);
      var rest := Pairs(xs[2..]).value;
      assert Pairs(ys) == Ok([(xs[0], xs[1])] + (rest + [(a, b)]));
      assert Pairs(xs) == Ok([(xs[0], xs[1])] + rest);
      assert [(xs[0], xs[1])] + (rest + [(a, b)]) == ([(xs[0], xs[1])] + rest) + [(a, b)];
    }
  }

  // ------------------------------------------------------------ chapters

  /** The indexes of the flagged lines among the first `k`, in increasing
      order (`MarkedAscending`). */
  function Marked(flags: seq<bool>, k: nat): seq<nat>
    requires k <= |flags|
  {
    if k == 0 then []
    else Marked(flags, k - 1) + (if flags[k - 1] then [k - 1] else [])
  }

  /** Only flagged lines below `k` are marked, in strictly increasing order. */
  lemma {:induction false} MarkedAscending(flags: seq<bool>, k: nat)
    requires k <= |flags|
    ensures forall i :: 0 <= i < |Marked(flags, k)| ==> Marked(flags, k)[i] < k && flags[Marked(flags, k)[i]]
    ensures forall i, j :: 0 <= i < j < |Marked(flags, k)| ==> Marked(flags, k)[i] < Marked(flags, k)[j]
  {
    if k > 0 {
      MarkedAscending(flags, k - 1);
      var prev := Marked(flags, k - 1);
      var r := Marked(flags, k);
      if flags[k - 1] {
        assert r == prev + [k - 1];
        assert forall i :: 0 <= i < |prev| ==> r[i] == prev[i];
        assert r[|prev|] == k - 1;
      } else {
        assert r == prev;
      }
    }
  }

  /** Every flagged line below `k` is marked, at position `i`. */
  lemma {:induction false} MarkedComplete(flags: seq<bool>, k: nat, m: nat) returns (i: nat)
    requires m < k <= |flags| && flags[m]
    ensures i < |Marked(flags, k)| && Marked(flags, k)[i] == m
  {
    if m < k - 1 {
      i := MarkedComplete(flags, k - 1, m);
    } else {
      i := |Marked(flags, k - 1)|;
    }
  }

  /** Which lines are chapter headers. */
  function HeaderFlags(content: seq<string>): (r: seq<bool>)
    ensures |r| == |content| && forall i :: 0 <= i < |content| ==> r[i] == IsChapterHeader(content[i])
  {
    seq(|content|, i requires 0 <= i < |content| => IsChapterHeader(content[i]))
  }

  /** The index list the loop of `_count_chapters` builds over the first `k`
      lines: every header and, after the first header, the line before it. */
  function ChapterMarks(flags: seq<bool>, k: nat): seq<nat>
    requires k <= |flags|
  {
    if k == 0 then []
    else if !flags[k - 1] then ChapterMarks(flags, k - 1)
    else if Marked(flags, k - 1) == [] then ChapterMarks(flags, k - 1) + [k - 1]
    else ChapterMarks(flags, k - 1) + [k - 1, Before(k - 1)]
  }

  /** The line before line `n` (a header after the first is never line 0). */
  function Before(n: nat): nat
  {
    if n == 0 then 0 else n - 1
  }

  /** The bounds of the spans, headers `hs` given: each header, with the line
      before the next header between. */
  function Bounds(hs: seq<nat>): seq<nat>
    requires hs != []
  {
    if |hs| == 1 then hs
    else Bounds(hs[..|hs| - 1]) + [Before(hs[|hs| - 1]), hs[|hs| - 1]]
  }

  /** Chapter `i` runs from header `i` to the line before header `i + 1`; the
      last one ends at `n`. */
  function ChapterSpans(hs: seq<nat>, n: nat): (r: seq<Span>)
    requires hs != []
    ensures |r| == |hs|
    ensures forall i :: 0 <= i < |hs| - 1 ==> r[i] == (hs[i], Before(hs[i + 1]))
    ensures r[|hs| - 1] == (hs[|hs| - 1], n)
  {
    if |hs| == 1 then [(hs[0], n)]
    else ChapterSpans(hs[..|hs| - 1], Before(hs[|hs| - 1])) + [(hs[|hs| - 1], n)]
  }

  /** `_count_chapters`: the header indexes and the lines before them, with
      the line count, sorted and paired up; `None` without a header. The
      result runs each chapter from its header to the line before the next
      header, the last one to the line count. */
  function CountChapters(content: seq<string>): (r: Option<seq<Span>>)
    ensures var hs := Marked(HeaderFlags(content), |content|);
      (hs == [] ==> r == None) &&
      (hs != [] ==> r == Some(ChapterSpans(hs, |content|)))
  {
    var flags := HeaderFlags(content);
    if Marked(flags, |content|) == [] then None
    else
      var sorted := SortBy<nat>(ChapterMarks(flags, |flags|) + [|flags|], Id);
      ChapterMarksSorted(flags);
      Some(Pairs(sorted).value)
  }

  /** The sorted index list is the bounds of the spans closed by the line
      count, so pairing it gives the chapter spans. */
  lemma ChapterMarksSorted(flags: seq<bool>)
    requires Marked(flags, |flags|) != []
    ensures var hs := Marked(flags, |flags|);
      Pairs(SortBy<nat>(ChapterMarks(flags, |flags|) + [|flags|], Id)) == Ok(ChapterSpans(hs, |flags|))
  {
    SortedMarks(flags);
    BoundsPairs(Marked(flags, |flags|), |flags|);
  }

  /** Sorting the marks and the line count gives the bounds closed by the
      line count. */
  lemma SortedMarks(flags: seq<bool>)
    requires Marked(flags, |flags|) != []
    ensures SortBy<nat>(ChapterMarks(flags, |flags|) + [|flags|], Id) == Bounds(Marked(flags, |flags|)) + [|flags|]
  {
    var hs := Marked(flags, |flags|);
    var raw: seq<nat> := ChapterMarks(flags, |flags|) + [|flags|];
    MarkedAscending(flags, |flags|);
    MarksAreBounds(flags, |flags|);
    var flat: seq<nat> := Bounds(hs) + [|flags|];
    ClosedBoundsSorted(hs, |flags|);
    assert multiset(raw) == multiset(flat);
    SortBySorted<nat>(raw, Id);
    SortedEqual(SortBy<nat>(raw, Id), flat);
  }

  lemma ClosedBoundsSorted(hs: seq<nat>, n: nat)
    requires hs != [] && hs[|hs| - 1] < n
    requires forall i, j :: 0 <= i < j < |hs| ==> hs[i] < hs[j]
    ensures SortedBy<nat>(Bounds(hs) + [n], Id)
  {
    BoundsSorted(hs);
    var b := Bounds(hs);
    var flat := b + [n];
    forall i, j | 0 <= i < j < |flat|
      ensures Id(flat[i]) <= Id(flat[j])
    {
      if j < |b| {
        assert flat[i] == b[i] && flat[j] == b[j];
      } else {
        assert flat[i] == b[i] && flat[j] == n;
        if i < |b| - 1 {
          assert Id(b[i]) <= Id(b[|b| - 1]);
        }
      }
    }
  }

  /** The marks `_count_chapters` records for the headers `hs`: the first
      header, then each later header followed by the line before it. */
  function MarksOf(hs: seq<nat>): seq<nat>
  {
    if |hs| <= 1 then hs
    else MarksOf(hs[..|hs| - 1]) + [hs[|hs| - 1], Before(hs[|hs| - 1])]
  }

  /** The marks collected over the first `k` lines are those of the headers
      found there. */
  lemma {:induction false} MarksOfMarked(flags: seq<bool>, k: nat)
    requires k <= |flags|
    ensures ChapterMarks(flags, k) == MarksOf(Marked(flags, k))
  {
    if k > 0 {
      MarksOfMarked(flags, k - 1);
      var prev := Marked(flags, k - 1);
      if !flags[k - 1] {
        assert Marked(flags, k) == prev;
        assert ChapterMarks(flags, k) == ChapterMarks(flags, k - 1);
      } else if prev == [] {
        assert Marked(flags, k) == [k - 1];
        assert ChapterMarks(flags, k - 1) == [];
        assert ChapterMarks(flags, k) == [] + [k - 1];
        assert MarksOf(Marked(flags, k)) == [k - 1];
      } else {
        assert Marked(flags, k) == prev + [k - 1];
        assert ChapterMarks(flags, k) == ChapterMarks(flags, k - 1) + [k - 1, Before(k - 1)];
        MarksOfSnoc(prev, k - 1);
        assert ChapterMarks(flags, k) == MarksOf(Marked(flags, k));
      }
    }
  }

  lemma MarksOfSnoc(hs: seq<nat>, h: nat)
    requires hs != []
    ensures MarksOf(hs + [h]) == MarksOf(hs) + [h, Before(h)]
  {
    var hs' := hs + [h];
    assert hs'[..|hs'| - 1] == hs;
  }

  /** The marks of a header list are its bounds, in another order. */
  lemma {:induction false} MarksOfBounds(hs: seq<nat>)
    requires hs != []
    ensures multiset(MarksOf(hs)) == multiset(Bounds(hs))
    decreases |hs|
  {
    if |hs| > 1 {
      var init := hs[..|hs| - 1];
      var h := hs[|hs| - 1];
      MarksOfBounds(init);
      assert multiset(MarksOf(init) + [h, Before(h)]) == multiset(MarksOf(init)) + multiset{h, Before(h)};
      assert multiset(Bounds(init) + [Before(h), h]) == multiset(Bounds(init)) + multiset{Before(h), h};
    }
  }

  /** The marks collected over the first `k` lines are the bounds of the
      headers found there, in another order. */
  lemma MarksAreBounds(flags: seq<bool>, k: nat)
    requires k <= |flags|
    ensures var hs := Marked(flags, k);
      (hs == [] ==> ChapterMarks(flags, k) == []) &&
      (hs != [] ==> multiset(ChapterMarks(flags, k)) == multiset(Bounds(hs)))
  {
    MarksOfMarked(flags, k);
    if Marked(flags, k) != [] {
      MarksOfBounds(Marked(flags, k));
    }
  }

  lemma {:induction false} BoundsSorted(hs: seq<nat>)
    requires hs != []
    requires forall i, j :: 0 <= i < j < |hs| ==> hs[i] < hs[j]
    ensures SortedBy(Bounds(hs), Id) && |Bounds(hs)| % 2 == 1
    ensures Bounds(hs)[|Bounds(hs)| - 1] == hs[|hs| - 1]
    decreases |hs|
  {
    if |hs| > 1 {
      var init := hs[..|hs| - 1];
      BoundsSorted(init);
      var b := Bounds(init);
      var h := hs[|hs| - 1];
      assert b[|b| - 1] == init[|init| - 1] < h;
      var c := Bounds(hs);
      assert c == b + [Before(h), h];
      forall i, j | 0 <= i < j < |c|
        ensures Id(c[i]) <= Id(c[j])
      {
        if j < |b| {
          assert c[i] == b[i] && c[j] == b[j];
        } else if i < |b| {
          assert c[i] == b[i] <= b[|b| - 1];
        }
      }
    }
  }

  /** Pairing the bounds closed by `n` gives the chapter spans. */
  lemma {:induction false} BoundsPairs(hs: seq<nat>, n: nat)
    requires hs != []
    ensures |Bounds(hs)| % 2 == 1
    ensures Pairs(Bounds(hs) + [n]) == Ok(ChapterSpans(hs, n))
    decreases |hs|
  {
    if |hs| == 1 {
      PairsAppend([], hs[0], n);
      assert Bounds(hs) + [n] == [] + [hs[0], n];
      assert ChapterSpans(hs, n) == [] + [(hs[0], n)];
    } else {
      var init := hs[..|hs| - 1];
      var h := hs[|hs| - 1];
      BoundsPairs(init, Before(h));
      var xs := Bounds(init) + [Before(h)];
      assert Bounds(hs) == Bounds(init) + [Before(h), h];
      assert Bounds(hs) + [n] == xs + [h, n];
      PairsAppend(xs, h, n);
      assert ChapterSpans(hs, n) == ChapterSpans(init, Before(h)) + [(h, n)];
    }
  }

  /** Two sorted lists with the same elements are the same list. */
  lemma {:induction false} SortedEqual(a: seq<nat>, b: seq<nat>)
    requires SortedBy(a, Id) && SortedBy(b, Id) && multiset(a) == multiset(b)
    ensures a == b
    decreases |a|
  {
    if a == [] {
      assert |b| == |multiset(b)| == 0;
    } else {
      assert |b| == |multiset(b)| == |multiset(a)| == |a|;
      assert a[0] in multiset(a) && b[0] in multiset(b);
      SortedHeadLeast(b, a[0]);
      SortedHeadLeast(a, b[0]);
      var h := a[0];
      assert b[0] == h;
      MultisetTail(a);
      MultisetTail(b);
      var ta, tb := a[1..], b[1..];
      assert multiset(ta) == multiset(a) - multiset{h};
      assert multiset(tb) == multiset(b) - multiset{h};
      SortedTail(a);
      SortedTail(b);
      SortedEqual(ta, tb);
      assert a == [h] + ta && b == [h] + tb;
    }
  }

  lemma MultisetTail(a: seq<nat>)
    requires a != []
    ensures multiset(a[1..]) == multiset(a) - multiset{a[0]}
  {
    assert a == [a[0]] + a[1..];
  }

  lemma SortedHeadLeast(a: seq<nat>, x: nat)
    requires SortedBy(a, Id) && x in multiset(a)
    ensures a[0] <= x
  {
    var k :| 0 <= k < |a| && a[k] == x;
    if k > 0 {
      assert Id(a[0]) <= Id(a[k]);
    }
  }

  lemma SortedTail(a: seq<nat>)
    requires a != [] && SortedBy(a, Id)
    ensures SortedBy(a[1..], Id)
  {
    forall i, j | 0 <= i < j < |a[1..]|
      ensures Id(a[1..][i]) <= Id(a[1..][j])
    {
      assert a[1..][i] == a[i + 1] && a[1..][j] == a[j + 1];
    }
  }

  // ------------------------------------------------------------ directives

  /** Which lines are system directives. */
  function DirectiveFlags(content: seq<string>): (r: seq<bool>)
    ensures |r| == |content| && forall i :: 0 <= i < |content| ==> r[i] == IsSystemDirective(content[i])
  {
    seq(|content|, i requires 0 <= i < |content| => IsSystemDirective(content[i]))
  }

  /** `_count_directives`: one `(i, i)` span per directive line, in line
      order, `None` when there is none. */
  function CountDirectives(content: seq<string>): (r: Option<seq<Span>>)
    ensures r.None? <==> forall m :: 0 <= m < |content| ==> !IsSystemDirective(content[m])
    ensures r.Some? ==> forall s: Span :: s in r.value <==>
      s.0 == s.1 && s.0 < |content| && IsSystemDirective(content[s.0])
    ensures r.Some? ==> forall i, j :: 0 <= i < j < |r.value| ==> r.value[i].0 < r.value[j].0
  {
    var flags := DirectiveFlags(content);
    var lines := Marked(flags, |content|);
    MarkedAscending(flags, |content|);
    MarkedEmpty(flags, |content|);
    MarkedDiagonal(flags, |content|);
    if lines == [] then None else Some(Diagonal(lines))
  }

  /** One `(i, i)` span per listed line. */
  function Diagonal(lines: seq<nat>): (r: seq<Span>)
    ensures |r| == |lines| && forall i :: 0 <= i < |lines| ==> r[i] == (lines[i], lines[i])
  {
    seq(|lines|, i requires 0 <= i < |lines| => (lines[i], lines[i]))
  }

  /** The one-line spans of the marked lines are those of the flagged
      lines. */
  lemma MarkedDiagonal(flags: seq<bool>, n: nat)
    requires n <= |flags|
    ensures forall s: Span :: s in Diagonal(Marked(flags, n)) <==> s.0 == s.1 && s.0 < n && flags[s.0]
  {
    var spans := Diagonal(Marked(flags, n));
    forall s: Span | s.0 == s.1 && s.0 < n && flags[s.0]
      ensures s in spans
    {
      var i := MarkedComplete(flags, n, s.0);
      assert spans[i] == s;
    }
  }

  /** No line below `k` is flagged exactly when none is marked. */
  lemma {:induction false} MarkedEmpty(flags: seq<bool>, k: nat)
    requires k <= |flags|
    ensures Marked(flags, k) == [] <==> forall m :: 0 <= m < k ==> !flags[m]
  {
    if k > 0 {
      MarkedEmpty(flags, k - 1);
      if flags[k - 1] {
        assert Marked(flags, k)[|Marked(flags, k)| - 1] == k - 1;
      }
    }
  }

  // ------------------------------------------------------------ programs

  /** What `_count_programs` makes of a line: a program start, an END, or
      neither. */
  datatype LineKind = Opening | Closing | Plain

  function KindOf(line: string): (r: LineKind)
    ensures r == Opening <==> IsProgStart(line)
    ensures r == Closing <==> IsEnd(line)
  {
    ProgIsNotEnd(line);
    if IsProgStart(line) then Opening else if IsEnd(line) then Closing else Plain
  }

  function Kinds(content: seq<string>): (r: seq<LineKind>)
    ensures |r| == |content| && forall i :: 0 <= i < |content| ==> r[i] == KindOf(content[i])
  {
    seq(|content|, i requires 0 <= i < |content| => KindOf(content[i]))
  }

  /** The state of the loop of `_count_programs`: the index list and the
      `end_found` flag. */
  datatype Scan = Scan(marks: seq<nat>, endFound: bool)

  /** One line of the loop: a program start is recorded and clears the flag;
      the first END after it is recorded, and every later END replaces the
      recorded one. With the flag set the list is never empty; if it were,
      the `IndexError` of `del` would be swallowed and the line skipped. */
  function ScanStep(s: Scan, i: nat, kind: LineKind): Scan
  {
    match kind
    case Opening => Scan(s.marks + [i], false)
    case Plain => s
    case Closing =>
      if !s.endFound then Scan(s.marks + [i], true)
      else if s.marks == [] then s
      else Scan(s.marks[..|s.marks| - 1] + [i], true)
  }

  /** The loop over the first `k` lines. */
  function ScanLines(kinds: seq<LineKind>, k: nat): Scan
    requires k <= |kinds|
  {
    if k == 0 then Scan([], false) else ScanStep(ScanLines(kinds, k - 1), k - 1, kinds[k - 1])
  }

  /** `_count_programs`: the recorded indexes, paired up; an odd number of
      them raises `IndexError`. */
  function CountPrograms(content: seq<string>): Result<seq<Span>>
  {
    Pairs(ScanLines(Kinds(content), |content|).marks)
  }

  /** `_count_programs` raises `IndexError` on an odd number of recorded
      lines; otherwise its spans are ascending and disjoint, and their ends
      are exactly the recorded lines: the program starts and, for each, the
      last END before the next start. */
  lemma CountProgramsSpans(content: seq<string>)
    ensures CountPrograms(content).Err? ==> CountPrograms(content).failure == IndexError
    ensures CountPrograms(content).Ok? ==> var spans := CountPrograms(content).value;
      (forall i :: 0 <= i < |spans| ==>
        spans[i].0 < spans[i].1 < |content| &&
        Kept(Kinds(content), spans[i].0, |content|) && Kept(Kinds(content), spans[i].1, |content|)) &&
      (forall i, j :: 0 <= i < j < |spans| ==> spans[i].1 < spans[j].0) &&
      (forall m :: 0 <= m < |content| && Kept(Kinds(content), m, |content|) ==>
        exists i :: 0 <= i < |spans| && (spans[i].0 == m || spans[i].1 == m))
  {
    SpansKept(content);
    SpansDisjoint(content);
    SpansCover(content);
  }

  /** Both ends of every span of `_count_programs` are recorded lines. */
  lemma SpansKept(content: seq<string>)
    ensures CountPrograms(content).Ok? ==> var spans := CountPrograms(content).value;
      forall i :: 0 <= i < |spans| ==>
        spans[i].0 < spans[i].1 < |content| &&
        Kept(Kinds(content), spans[i].0, |content|) && Kept(Kinds(content), spans[i].1, |content|)
  {
    var kinds := Kinds(content);
    var scan := ScanLines(kinds, |content|);
    ScanRecords(kinds, |content|);
    PairsInside(scan.marks);
    if CountPrograms(content).Ok? {
      var spans := CountPrograms(content).value;
      forall i | 0 <= i < |spans|
        ensures spans[i].0 < spans[i].1 < |content|
        ensures Kept(kinds, spans[i].0, |content|) && Kept(kinds, spans[i].1, |content|)
      {
        MarkKept(kinds, |content|, scan, spans[i].0);
        MarkKept(kinds, |content|, scan, spans[i].1);
      }
    }
  }

  /** A recorded line is below the scanned prefix and kept. */
  lemma MarkKept(kinds: seq<LineKind>, k: nat, s: Scan, m: nat)
    requires k <= |kinds| && Recorded(kinds, k, s) && m in s.marks
    ensures m < k && Kept(kinds, m, k)
  {
  }

  /** The spans of `_count_programs` are disjoint and ascending. */
  lemma SpansDisjoint(content: seq<string>)
    ensures CountPrograms(content).Ok? ==> var spans := CountPrograms(content).value;
      forall i, j :: 0 <= i < j < |spans| ==> spans[i].1 < spans[j].0
  {
    var marks := ScanLines(Kinds(content), |content|).marks;
    ScanRecords(Kinds(content), |content|);
    PairsDisjoint(marks);
  }

  /** Every recorded line ends a span of `_count_programs`. */
  lemma SpansCover(content: seq<string>)
    ensures CountPrograms(content).Ok? ==> var spans := CountPrograms(content).value;
      forall m :: 0 <= m < |content| && Kept(Kinds(content), m, |content|) ==>
        exists i :: 0 <= i < |spans| && (spans[i].0 == m || spans[i].1 == m)
  {
    var kinds := Kinds(content);
    var marks := ScanLines(kinds, |content|).marks;
    ScanRecords(kinds, |content|);
    if CountPrograms(content).Ok? {
      var spans := CountPrograms(content).value;
      PairsCover(marks);
      forall m | 0 <= m < |content| && Kept(kinds, m, |content|)
        ensures exists i :: 0 <= i < |spans| && (spans[i].0 == m || spans[i].1 == m)
      {
        assert m in marks;
        var k :| 0 <= k < |marks| && marks[k] == m;
        assert k / 2 < |spans| && (spans[k / 2].0 == m || spans[k / 2].1 == m);
      }
    }
  }

  /** Pairing an ascending list gives spans that run upwards between two of
      its members. */
  lemma PairsInside(xs: seq<nat>)
    requires forall i, j :: 0 <= i < j < |xs| ==> xs[i] < xs[j]
    ensures Pairs(xs).Ok? ==> var spans := Pairs(xs).value;
      forall i :: 0 <= i < |spans| ==> spans[i].0 < spans[i].1 && spans[i].0 in xs && spans[i].1 in xs
  {
    if Pairs(xs).Ok? {
      var spans := Pairs(xs).value;
      forall i | 0 <= i < |spans|
        ensures spans[i].0 < spans[i].1 && spans[i].0 in xs && spans[i].1 in xs
      {
        assert spans[i] == (xs[2 * i], xs[2 * i + 1]);
      }
    }
  }

  /** Pairing an ascending list gives disjoint spans, in ascending order. */
  lemma PairsDisjoint(xs: seq<nat>)
    requires forall i, j :: 0 <= i < j < |xs| ==> xs[i] < xs[j]
    ensures Pairs(xs).Ok? ==> var spans := Pairs(xs).value;
      forall i, j :: 0 <= i < j < |spans| ==> spans[i].1 < spans[j].0
  {
    if Pairs(xs).Ok? {
      var spans := Pairs(xs).value;
      forall i, j | 0 <= i < j < |spans|
        ensures spans[i].1 < spans[j].0
      {
        assert spans[i] == (xs[2 * i], xs[2 * i + 1]);
        assert spans[j] == (xs[2 * j], xs[2 * j + 1]);
      }
    }
  }

  /** Every member of a paired list is an end of some span. */
  lemma PairsCover(xs: seq<nat>)
    ensures Pairs(xs).Ok? ==> var spans := Pairs(xs).value;
      forall k :: 0 <= k < |xs| ==> k / 2 < |spans| && (spans[k / 2].0 == xs[k] || spans[k / 2].1 == xs[k])
  {
    if Pairs(xs).Ok? {
      var spans := Pairs(xs).value;
      forall k | 0 <= k < |xs|
        ensures k / 2 < |spans| && (spans[k / 2].0 == xs[k] || spans[k / 2].1 == xs[k])
      {
        assert spans[k / 2] == (xs[2 * (k / 2)], xs[2 * (k / 2) + 1]);
      }
    }
  }

  /** The first program start after line `i` and before line `k`, or `k`. */
  function NextOpening(kinds: seq<LineKind>, i: nat, k: nat): (r: nat)
    requires i < k <= |kinds|
    ensures i < r <= k
    ensures r < k ==> kinds[r] == Opening
    ensures forall m :: i < m < r ==> kinds[m] != Opening
    decreases k - i
  {
    if i + 1 == k then k
    else if kinds[i + 1] == Opening then i + 1
    else NextOpening(kinds, i + 1, k)
  }

  /** No END follows line `i` before the next program start below `k`. */
  predicate LastClosing(kinds: seq<LineKind>, i: nat, k: nat)
    requires i < k <= |kinds|
  {
    forall j :: i < j < NextOpening(kinds, i, k) ==> kinds[j] != Closing
  }

  /** Line `m` opens a program, or is the last END before the next program
      start below `k`. */
  predicate Kept(kinds: seq<LineKind>, m: nat, k: nat)
    requires m < k <= |kinds|
  {
    kinds[m] == Opening || (kinds[m] == Closing && LastClosing(kinds, m, k))
  }

  /** What the loop records over the first `k` lines: in increasing order,
      every program start, and each END that is the last END before the
      next program start; the flag says whether the last one is an END. */
  predicate Recorded(kinds: seq<LineKind>, k: nat, s: Scan)
    requires k <= |kinds|
  {
    (forall i :: 0 <= i < |s.marks| ==> s.marks[i] < k) &&
    (forall i, j :: 0 <= i < j < |s.marks| ==> s.marks[i] < s.marks[j]) &&
    (forall m {:trigger Kept(kinds, m, k)} :: 0 <= m < k ==> (m in s.marks <==> Kept(kinds, m, k))) &&
    (s.endFound <==> s.marks != [] && kinds[s.marks[|s.marks| - 1]] == Closing)
  }

  /** The index list of `_count_programs` holds exactly the program starts
      and, for each program, its last END before the next program start. */
  lemma {:induction false} ScanRecords(kinds: seq<LineKind>, k: nat)
    requires k <= |kinds|
    ensures Recorded(kinds, k, ScanLines(kinds, k))
  {
    if k > 0 {
      ScanRecords(kinds, k - 1);
      ScanStepRecords(kinds, k - 1, ScanLines(kinds, k - 1));
    }
  }

  lemma ScanStepRecords(kinds: seq<LineKind>, k: nat, s: Scan)
    requires k < |kinds| && Recorded(kinds, k, s)
    ensures Recorded(kinds, k + 1, ScanStep(s, k, kinds[k]))
  {
    forall m | 0 <= m < k
      ensures Kept(kinds, m, k + 1) ==
        (Kept(kinds, m, k) && !(kinds[m] == Closing && kinds[k] == Closing && NextOpening(kinds, m, k) == k))
    {
      KeptExtends(kinds, m, k);
    }
    assert KeptShift(kinds, k);
    match kinds[k]
    case Opening =>
      var t := ScanStep(s, k, kinds[k]);
      assert Kept(kinds, k, k + 1);
      assert forall m {:trigger Kept(kinds, m, k + 1)} :: 0 <= m < k + 1 ==> (m in t.marks <==> Kept(kinds, m, k + 1));
    case Plain =>
      assert !Kept(kinds, k, k + 1);
      assert forall m {:trigger Kept(kinds, m, k + 1)} :: 0 <= m < k + 1 ==> (m in s.marks <==> Kept(kinds, m, k + 1));
    case Closing =>
      ClosingStep(kinds, k, s);
  }

  /** Line `k` changes whether an earlier line is kept only when both are
      END lines with no program start between. */
  lemma KeptExtends(kinds: seq<LineKind>, m: nat, k: nat)
    requires m < k < |kinds|
    ensures Kept(kinds, m, k + 1) ==
      (Kept(kinds, m, k) && !(kinds[m] == Closing && kinds[k] == Closing && NextOpening(kinds, m, k) == k))
  {
    NextOpeningExtends(kinds, m, k);
  }

  /** The premise shared by the END cases: how line `k` changes which
      earlier lines are kept. */
  predicate KeptShift(kinds: seq<LineKind>, k: nat)
    requires k < |kinds|
  {
    forall m :: 0 <= m < k ==> (Kept(kinds, m, k + 1) ==
      (Kept(kinds, m, k) && !(kinds[m] == Closing && kinds[k] == Closing && NextOpening(kinds, m, k) == k)))
  }

  /** An END line: recorded, or, when the flag says the last recorded index
      is an END, recorded in its place. */
  lemma ClosingStep(kinds: seq<LineKind>, k: nat, s: Scan)
    requires k < |kinds| && Recorded(kinds, k, s) && kinds[k] == Closing && KeptShift(kinds, k)
    ensures Recorded(kinds, k + 1, ScanStep(s, k, kinds[k]))
  {
    OnlyLastOpen(kinds, k, s);
    if s.endFound {
      ClosingAgain(kinds, k, s);
    } else {
      ClosingFirst(kinds, k, s);
    }
  }

  /** A recorded END with no program start after it is the last recorded index. */
  lemma OnlyLastOpen(kinds: seq<LineKind>, k: nat, s: Scan)
    requires k <= |kinds| && Recorded(kinds, k, s)
    ensures forall m :: 0 <= m < k && m in s.marks && kinds[m] == Closing && NextOpening(kinds, m, k) == k ==>
      m == s.marks[|s.marks| - 1]
  {
    forall m | 0 <= m < k && m in s.marks && kinds[m] == Closing && NextOpening(kinds, m, k) == k
      ensures m == s.marks[|s.marks| - 1]
    {
      var i :| 0 <= i < |s.marks| && s.marks[i] == m;
      if i < |s.marks| - 1 {
        ConsecutiveMarks(kinds, k, s, i);
        assert false;
      }
    }
  }

  /** The program start or END recorded after an END lies at or beyond the
      next program start. */
  lemma ConsecutiveMarks(kinds: seq<LineKind>, k: nat, s: Scan, i: nat)
    requires k <= |kinds| && Recorded(kinds, k, s) && i + 1 < |s.marks|
    requires kinds[s.marks[i]] == Closing
    ensures NextOpening(kinds, s.marks[i], k) <= s.marks[i + 1]
  {
    assert Kept(kinds, s.marks[i], k);
    assert Kept(kinds, s.marks[i + 1], k);
  }

  lemma ClosingFirst(kinds: seq<LineKind>, k: nat, s: Scan)
    requires k < |kinds| && Recorded(kinds, k, s) && kinds[k] == Closing && KeptShift(kinds, k)
    requires !s.endFound
    requires forall m :: 0 <= m < k && m in s.marks && kinds[m] == Closing && NextOpening(kinds, m, k) == k ==>
      m == s.marks[|s.marks| - 1]
    ensures Recorded(kinds, k + 1, ScanStep(s, k, kinds[k]))
  {
    FirstKept(kinds, k, s);
    IncreasingAppend(s.marks, k);
  }

  /** Appending a larger element keeps a list increasing. */
  lemma IncreasingAppend(xs: seq<nat>, x: nat)
    requires forall i, j :: 0 <= i < j < |xs| ==> xs[i] < xs[j]
    requires forall i :: 0 <= i < |xs| ==> xs[i] < x
    ensures var ys := xs + [x];
      (forall i, j :: 0 <= i < j < |ys| ==> ys[i] < ys[j]) &&
      (forall i :: 0 <= i < |ys| ==> ys[i] <= x)
  {
  }

  lemma FirstKept(kinds: seq<LineKind>, k: nat, s: Scan)
    requires k < |kinds| && Recorded(kinds, k, s) && kinds[k] == Closing && KeptShift(kinds, k)
    requires !s.endFound
    requires forall m :: 0 <= m < k && m in s.marks && kinds[m] == Closing && NextOpening(kinds, m, k) == k ==>
      m == s.marks[|s.marks| - 1]
    ensures forall m {:trigger Kept(kinds, m, k + 1)} :: 0 <= m < k + 1 ==> (m in s.marks + [k] <==> Kept(kinds, m, k + 1))
  {
    assert Kept(kinds, k, k + 1);
    forall m {:trigger Kept(kinds, m, k + 1)} | 0 <= m < k + 1
      ensures m in s.marks + [k] <==> Kept(kinds, m, k + 1)
    {
      if m < k {
        assert m in s.marks + [k] <==> m in s.marks;
        assert m in s.marks <==> Kept(kinds, m, k);
      } else {
        assert (s.marks + [k])[|s.marks|] == k;
      }
    }
  }

  lemma ClosingAgain(kinds: seq<LineKind>, k: nat, s: Scan)
    requires k < |kinds| && Recorded(kinds, k, s) && kinds[k] == Closing && KeptShift(kinds, k)
    requires s.endFound
    requires forall m :: 0 <= m < k && m in s.marks && kinds[m] == Closing && NextOpening(kinds, m, k) == k ==>
      m == s.marks[|s.marks| - 1]
    ensures Recorded(kinds, k + 1, ScanStep(s, k, kinds[k]))
  {
    AgainKept(kinds, k, s);
    IncreasingReplaceLast(s.marks, k);
  }

  /** Replacing the last element of an increasing list by a larger one keeps
      it increasing. */
  lemma IncreasingReplaceLast(xs: seq<nat>, x: nat)
    requires xs != [] && forall i, j :: 0 <= i < j < |xs| ==> xs[i] < xs[j]
    requires forall i :: 0 <= i < |xs| ==> xs[i] < x
    ensures var ys := xs[..|xs| - 1] + [x];
      (forall i, j :: 0 <= i < j < |ys| ==> ys[i] < ys[j]) &&
      (forall i :: 0 <= i < |ys| ==> ys[i] <= x)
  {
  }

  lemma AgainKept(kinds: seq<LineKind>, k: nat, s: Scan)
    requires k < |kinds| && Recorded(kinds, k, s) && kinds[k] == Closing && KeptShift(kinds, k)
    requires s.endFound
    requires forall m :: 0 <= m < k && m in s.marks && kinds[m] == Closing && NextOpening(kinds, m, k) == k ==>
      m == s.marks[|s.marks| - 1]
    ensures s.marks != []
    ensures forall m {:trigger Kept(kinds, m, k + 1)} :: 0 <= m < k + 1 ==>
      (m in s.marks[..|s.marks| - 1] + [k] <==> Kept(kinds, m, k + 1))
  {
    var last := s.marks[|s.marks| - 1];
    assert Kept(kinds, last, k);
    LastHasNoOpening(kinds, k, s);
    var init := s.marks[..|s.marks| - 1];
    SplitLast(s.marks);
    assert Kept(kinds, k, k + 1);
    forall m {:trigger Kept(kinds, m, k + 1)} | 0 <= m < k + 1
      ensures m in init + [k] <==> Kept(kinds, m, k + 1)
    {
      if m < k {
        assert m in init + [k] <==> m in init;
        assert m in s.marks <==> Kept(kinds, m, k);
        if m == last {
          assert !Kept(kinds, m, k + 1);
        } else if m in init {
          assert !(kinds[m] == Closing && NextOpening(kinds, m, k) == k);
          assert Kept(kinds, m, k + 1);
        } else {
          assert !Kept(kinds, m, k);
        }
      } else {
        assert m == k && (init + [k])[|init|] == k;
      }
    }
  }

  /** The elements of an increasing list are those before its last, and its
      last, which is none of those before. */
  lemma SplitLast(xs: seq<nat>)
    requires xs != [] && forall i, j :: 0 <= i < j < |xs| ==> xs[i] < xs[j]
    ensures forall m :: m in xs <==> m in xs[..|xs| - 1] || m == xs[|xs| - 1]
    ensures xs[|xs| - 1] !in xs[..|xs| - 1]
  {
    assert xs == xs[..|xs| - 1] + [xs[|xs| - 1]];
  }

  /** No program start follows the last recorded index. */
  lemma LastHasNoOpening(kinds: seq<LineKind>, k: nat, s: Scan)
    requires k <= |kinds| && Recorded(kinds, k, s) && s.marks != []
    ensures NextOpening(kinds, s.marks[|s.marks| - 1], k) == k
  {
    var last := s.marks[|s.marks| - 1];
    var n := NextOpening(kinds, last, k);
    if n < k {
      assert Kept(kinds, n, k);
      var j :| 0 <= j < |s.marks| && s.marks[j] == n;
      assert false;
    }
  }

  lemma NextOpeningExtends(kinds: seq<LineKind>, i: nat, k: nat)
    requires i < k < |kinds|
    ensures NextOpening(kinds, i, k + 1) ==
      if NextOpening(kinds, i, k) < k then NextOpening(kinds, i, k)
      else if kinds[k] == Opening then k else k + 1
  {
  }

  // ------------------------------------------------------------ order

  function Spans(o: Option<seq<Span>>): seq<Span>
  {
    if o.Some? then o.value else []
  }

  /** `_get_order`: programs, then chapters, then directives, stably sorted by
      their first line. */
  function GetOrder(programs: seq<Span>, chapters: Option<seq<Span>>, directives: Option<seq<Span>>): seq<Span>
  {
    SortBy(programs + Spans(chapters) + Spans(directives), Start)
  }

  /** The order holds every span once per occurrence, sorted by first line;
      spans that start on the same line keep their relative order. */
  lemma GetOrderSorted(programs: seq<Span>, chapters: Option<seq<Span>>, directives: Option<seq<Span>>)
    ensures multiset(GetOrder(programs, chapters, directives)) ==
            multiset(programs) + multiset(Spans(chapters)) + multiset(Spans(directives))
    ensures SortedBy(GetOrder(programs, chapters, directives), Start)
    ensures forall k :: WithKey(GetOrder(programs, chapters, directives), Start, k) ==
                        WithKey(programs + Spans(chapters) + Spans(directives), Start, k)
  {
    var all := programs + Spans(chapters) + Spans(directives);
    SortBySorted(all, Start);
    forall k
      ensures WithKey(SortBy(all, Start), Start, k) == WithKey(all, Start, k)
    {
      SortByStable(all, Start, k);
    }
  }

  // ------------------------------------------------------------ building

  /** `[_.rstrip().upper() for _ in content]`. */
  function Prepared(content: seq<string>): (r: seq<string>)
    ensures |r| == |content| && forall i :: 0 <= i < |content| ==> r[i] == Upper(RStrip(content[i]))
  {
    if content == [] then [] else [Upper(RStrip(content[0]))] + Prepared(content[1..])
  }

  /** `"".join(w + " " for w in words)`. */
  function Spaced(words: seq<string>): string
  {
    if words == [] then "" else words[0] + " " + Spaced(words[1..])
  }

  /** Every line of the text is upper-case. */
  predicate AllUpper(temp: seq<string>)
  {
    forall i :: 0 <= i < |temp| ==> Upper(temp[i]) == temp[i]
  }

  /** Prepared lines are upper-case. */
  lemma PreparedUpper(content: seq<string>)
    ensures AllUpper(Prepared(content))
  {
    forall i | 0 <= i < |content|
      ensures Upper(Prepared(content)[i]) == Prepared(content)[i]
    {
      UpperIdempotent(RStrip(content[i]));
    }
  }

  /** Stripping upper-case text on either side leaves it upper-case. */
  lemma StripUpper(s: string)
    requires Upper(s) == s
    ensures Upper(LStrip(s)) == LStrip(s) && Upper(RStrip(s)) == RStrip(s)
  {
    UpperSlice(s, |s| - |LStrip(s)|, |s|);
    UpperSlice(s, 0, |RStrip(s)|);
  }

  /** Joining upper-case words keeps them upper-case. */
  lemma {:induction false} SpacedUpper(words: seq<string>)
    requires forall w :: w in words ==> Upper(w) == w
    ensures Upper(Spaced(words)) == Spaced(words)
  {
    if words != [] {
      SpacedUpper(words[1..]);
      UpperConcat(words[0], " ");
      UpperConcat(words[0] + " ", Spaced(words[1..]));
    }
  }

  /** The chapter name read off an upper-case header line is upper-case. */
  lemma ChapterNameUpper(line: string)
    requires Upper(line) == line && ChapterHeader(line).Ok?
    ensures Upper(ChapterHeader(line).value.1) == ChapterHeader(line).value.1
  {
    WordsUpper(line);
    var ws := Words(line)[1..];
    assert forall w :: w in ws ==> w in Words(line);
    SpacedUpper(ws);
    StripUpper(Spaced(ws));
  }

  /** The program name read off an upper-case line is upper-case. */
  lemma ProgramNameUpper(temp: seq<string>, s: nat)
    requires s + 1 < |temp| ==> Upper(temp[s + 1]) == temp[s + 1]
    requires ProgramName(temp, s).Ok?
    ensures Upper(ProgramName(temp, s).value) == ProgramName(temp, s).value
  {
    var t := LStrip(temp[s + 1]);
    StripUpper(temp[s + 1]);
    if 5 <= |t| {
      UpperSlice(t, 5, |t|);
    }
  }

  /** A directive's key, its upper-cased and right-stripped text, is
      upper-case. */
  lemma DirectiveKeyUpper(line: string)
    ensures Upper(RStrip(Upper(line))) == RStrip(Upper(line))
  {
    UpperIdempotent(line);
    StripUpper(Upper(line));
  }

  /** What a chapter of the structure holds: its header's name and flag,
      the rows of each of its programs by name, and the texts of its
      directives. */
  datatype ChapterImage = ChapterImage(name: string, active: bool, rows: map<string, seq<string>>, texts: set<string>)

  /** What the structure so far holds: the names appended to the top-level
      order, the chapter opened last (which later items join), the rows of
      each top-level program by name, the texts of the top-level
      directives, and the chapters opened before the last one, by name. */
  datatype Shape = Shape(top: seq<string>, open: Option<ChapterImage>, rows: map<string, seq<string>>,
                         texts: set<string>, closed: map<string, ChapterImage>)

  /** The structure before the first item. */
  const EmptyShape := Shape([], None, map[], {}, map[])

  /** Every chapter of the structure by name; a chapter replaces an earlier
      one of the same name, as in the chapters dictionary. */
  function Chapters(st: Shape): (r: map<string, ChapterImage>)
    ensures r.Keys == st.closed.Keys + (if st.open.Some? then {st.open.value.name} else {})
    ensures st.open.Some? ==> r[st.open.value.name] == st.open.value
  {
    if st.open.Some? then st.closed[st.open.value.name := st.open.value] else st.closed
  }

  /** The spans found by counting. */
  datatype Found = Found(programs: seq<Span>, chapters: Option<seq<Span>>, directives: Option<seq<Span>>)

  /** A chapter header: the flag is the second character of the first word,
      the name the remaining words. */
  function ChapterHeader(line: string): (r: Result<(bool, string)>)
    ensures r.Err? ==> r.failure == IndexError
  {
    match At(Words(line), 0)
    case Err(e) => Err(e)
    case Ok(word) =>
      match At(word, 1)
      case Err(e) => Err(e)
      case Ok(c) => Ok((c == '+', RStrip(Spaced(Words(line)[1..]))))
  }

  /** The program name: the line after the PROG line, from its sixth
      character on. */
  function ProgramName(temp: seq<string>, s: nat): Result<string>
  {
    match At(temp, s + 1)
    case Err(e) => Err(e)
    case Ok(row) => Ok(SliceFrom(LStrip(row), 5))
  }

  /** `[temp[i] for i in range(s, e + 1)]`. */
  function ProgramRows(temp: seq<string>, s: nat, e: nat): (r: Result<seq<string>>)
    ensures r.Err? ==> r.failure == IndexError
  {
    if e < s then Ok([])
    else if e < |temp| then Ok(temp[s..e + 1])
    else Err(IndexError)
  }

  /** A chapter span opens a fresh chapter and lists its name at top level. */
  function ChapterStep(temp: seq<string>, st: Shape, item: Span): Result<Shape>
  {
    match At(temp, item.0)
    case Err(e) => Err(e)
    case Ok(line) =>
      match ChapterHeader(line)
      case Err(e) => Err(e)
      case Ok(header) => Ok(Opened(st, header.1, header.0))
  }

  /** A new, empty chapter named `name` becomes the open one, and its name is
      listed at top level. */
  function Opened(st: Shape, name: string, active: bool): Shape
  {
    Shape(st.top + [name], Some(ChapterImage(name, active, map[], {})), st.rows, st.texts, Chapters(st))
  }

  /** The name of the program a program span builds, or what building it
      raises: the name line, then the rows, then detection. */
  function ProgramBuilt(temp: seq<string>, item: Span): Result<string>
  {
    match ProgramName(temp, item.0)
    case Err(e) => Err(e)
    case Ok(name) =>
      match ProgramRows(temp, item.0, item.1)
      case Err(e) => Err(e)
      case Ok(rows) =>
        match Detected(rows, false, "ASE")
        case Err(e) => Err(e)
        case Ok(_) => Ok(name)
  }

  /** A program span builds a program holding the span's rows, which joins
      the open chapter (where a second program of the same name raises) or
      the top level. */
  function ProgramStep(temp: seq<string>, st: Shape, item: Span): Result<Shape>
  {
    match ProgramBuilt(temp, item)
    case Err(e) => Err(e)
    case Ok(name) => ProgramPlaced(st, name, ProgramRows(temp, item.0, item.1).value)
  }

  /** Where a built program named `name` holding `content` goes. */
  function ProgramPlaced(st: Shape, name: string, content: seq<string>): Result<Shape>
  {
    if st.open.None? then Ok(st.(top := st.top + [name], rows := st.rows[name := content]))
    else if Upper(name) in st.open.value.rows then Err(RuntimeError)
    else Ok(st.(open := Some(st.open.value.(rows := st.open.value.rows[Upper(name) := content]))))
  }

  /** A program step either fails as building fails or places the built
      program. */
  lemma ProgramStepSplits(temp: seq<string>, st: Shape, item: Span)
    ensures ProgramBuilt(temp, item).Err? ==> ProgramStep(temp, st, item) == Err(ProgramBuilt(temp, item).failure)
    ensures ProgramBuilt(temp, item).Ok? ==>
      ProgramStep(temp, st, item) ==
        ProgramPlaced(st, ProgramBuilt(temp, item).value, ProgramRows(temp, item.0, item.1).value)
  {
  }

  /** Whether `from_string` accepts a line. */
  predicate ParsesAsDirective(line: string)
  {
    IsSystemDirective(line) && LStrip(line) != [] && IsStatusChar(LStrip(line)[0])
  }

  /** The text of the directive a directive span parses, or what parsing
      raises. */
  function DirectiveBuilt(temp: seq<string>, item: Span): Result<string>
  {
    match At(temp, item.0)
    case Err(e) => Err(e)
    case Ok(line) =>
      if !ParsesAsDirective(line) then Err(RuntimeError) else Ok(RStrip(Upper(line)))
  }

  /** A directive span parses its line, which joins the open chapter (where a
      second directive of the same text raises) or the top level. */
  function DirectiveStep(temp: seq<string>, st: Shape, item: Span): Result<Shape>
  {
    match DirectiveBuilt(temp, item)
    case Err(e) => Err(e)
    case Ok(key) => DirectivePlaced(st, key)
  }

  /** Where a parsed directive of text `key` goes. */
  function DirectivePlaced(st: Shape, key: string): Result<Shape>
  {
    if st.open.None? then Ok(st.(top := st.top + [key], texts := st.texts + {key}))
    else if key in st.open.value.texts then Err(RuntimeError)
    else Ok(st.(open := Some(st.open.value.(texts := st.open.value.texts + {key}))))
  }

  /** A directive step either fails as parsing fails or places the parsed
      directive. */
  lemma DirectiveStepSplits(temp: seq<string>, st: Shape, item: Span)
    ensures DirectiveBuilt(temp, item).Err? ==> DirectiveStep(temp, st, item) == Err(DirectiveBuilt(temp, item).failure)
    ensures DirectiveBuilt(temp, item).Ok? ==>
      DirectiveStep(temp, st, item) == DirectivePlaced(st, DirectiveBuilt(temp, item).value)
  {
  }

  /** One item of the order: chapter first, then program, then directive,
      each when the item is one of those spans. */
  function ItemStep(temp: seq<string>, found: Found, st: Shape, item: Span): Result<Shape>
  {
    var afterChapter :=
      if found.chapters.Some? && item in found.chapters.value then ChapterStep(temp, st, item) else Ok(st);
    match afterChapter
    case Err(e) => Err(e)
    case Ok(st1) => ContentStep(temp, found, st1, item)
  }

  /** The program part, then the directive part, of an item. */
  function ContentStep(temp: seq<string>, found: Found, st: Shape, item: Span): Result<Shape>
  {
    var afterProgram := if item in found.programs then ProgramStep(temp, st, item) else Ok(st);
    match afterProgram
    case Err(e) => Err(e)
    case Ok(st1) =>
      if found.directives.Some? && item in found.directives.value then DirectiveStep(temp, st1, item)
      else Ok(st1)
  }

  /** The items in order, from an empty structure. */
  function Fold(temp: seq<string>, found: Found, items: seq<Span>): Result<Shape>
  {
    if items == [] then Ok(EmptyShape)
    else
      match Fold(temp, found, items[..|items| - 1])
      case Err(e) => Err(e)
      case Ok(st) => ItemStep(temp, found, st, items[|items| - 1])
  }

  /** Folding one more item is one more step. */
  lemma FoldNext(temp: seq<string>, found: Found, items: seq<Span>, k: nat)
    requires k < |items|
    ensures Fold(temp, found, items[..k]).Err? ==> Fold(temp, found, items[..k + 1]) == Fold(temp, found, items[..k])
    ensures Fold(temp, found, items[..k]).Ok? ==>
      Fold(temp, found, items[..k + 1]) == ItemStep(temp, found, Fold(temp, found, items[..k]).value, items[k])
  {
    assert items[..k + 1][..k] == items[..k];
  }

  /** Once an item fails, the loop stops: the whole fold fails the same
      way. */
  lemma {:induction false} FoldFailureStays(temp: seq<string>, found: Found, items: seq<Span>, k: nat)
    requires k <= |items| && Fold(temp, found, items[..k]).Err?
    ensures Fold(temp, found, items) == Fold(temp, found, items[..k])
    decreases |items| - k
  {
    if k < |items| {
      assert items[..k + 1][..k] == items[..k];
      FoldFailureStays(temp, found, items, k + 1);
    } else {
      assert items[..k] == items;
    }
  }

  /** The spans of the prepared lines, in the order `_build_structure` visits
      them, or the `IndexError` of `_count_programs`. */
  function Items(temp: seq<string>): Result<(Found, seq<Span>)>
  {
    match CountPrograms(temp)
    case Err(e) => Err(e)
    case Ok(programs) =>
      var found := Found(programs, CountChapters(temp), CountDirectives(temp));
      Ok((found, GetOrder(found.programs, found.chapters, found.directives)))
  }

  /** `_build_structure` on values: the counting, the first-line check, then
      every item. */
  function Structure(content: seq<string>): Result<Shape>
  {
    var temp := Prepared(content);
    match Items(temp)
    case Err(e) => Err(e)
    case Ok(items) =>
      if temp == [] then Err(IndexError)
      else if Upper(Slice(LStrip(temp[0]), 1, 5)) != "PROG" then Err(RuntimeError)
      else Fold(temp, items.0, items.1)
  }

  /** What building a structure may raise: `IndexError` from a missing
      line, word or character, `RuntimeError` from a rejected line or a
      repeated name. */
  predicate BuildFailure(f: Failure)
  {
    f == IndexError || f == RuntimeError
  }

  lemma ChapterStepFailures(temp: seq<string>, st: Shape, item: Span)
    ensures ChapterStep(temp, st, item).Err? ==> BuildFailure(ChapterStep(temp, st, item).failure)
  {
  }

  lemma ProgramStepFailures(temp: seq<string>, st: Shape, item: Span)
    ensures ProgramStep(temp, st, item).Err? ==> BuildFailure(ProgramStep(temp, st, item).failure)
  {
    ProgramStepSplits(temp, st, item);
    match ProgramName(temp, item.0)
    case Err(_) =>
    case Ok(_) =>
      match ProgramRows(temp, item.0, item.1)
      case Err(_) =>
      case Ok(rows) =>
  }

  lemma DirectiveStepFailures(temp: seq<string>, st: Shape, item: Span)
    ensures DirectiveStep(temp, st, item).Err? ==> BuildFailure(DirectiveStep(temp, st, item).failure)
  {
    DirectiveStepSplits(temp, st, item);
  }

  /** A step raises only what its parts raise. */
  lemma ItemStepFailures(temp: seq<string>, found: Found, st: Shape, item: Span)
    ensures ItemStep(temp, found, st, item).Err? ==> BuildFailure(ItemStep(temp, found, st, item).failure)
  {
    var afterChapter :=
      if found.chapters.Some? && item in found.chapters.value then ChapterStep(temp, st, item) else Ok(st);
    ChapterStepFailures(temp, st, item);
    if afterChapter.Ok? {
      var st1 := afterChapter.value;
      var afterProgram := if item in found.programs then ProgramStep(temp, st1, item) else Ok(st1);
      ProgramStepFailures(temp, st1, item);
      if afterProgram.Ok? {
        DirectiveStepFailures(temp, afterProgram.value, item);
      }
    }
  }

  /** Building a structure raises `IndexError` or `RuntimeError` and nothing
      else. */
  lemma {:induction false} FoldFailures(temp: seq<string>, found: Found, items: seq<Span>)
    ensures Fold(temp, found, items).Err? ==> BuildFailure(Fold(temp, found, items).failure)
  {
    if items != [] {
      var init := items[..|items| - 1];
      FoldFailures(temp, found, init);
      if Fold(temp, found, init).Ok? {
        ItemStepFailures(temp, found, Fold(temp, found, init).value, items[|items| - 1]);
      }
    }
  }

  /** `_build_structure` raises `IndexError` or `RuntimeError` and nothing
      else. */
  lemma StructureFailures(content: seq<string>)
    ensures Structure(content).Err? ==> BuildFailure(Structure(content).failure)
  {
    var temp := Prepared(content);
    if Items(temp).Ok? {
      FoldFailures(temp, Items(temp).value.0, Items(temp).value.1);
    }
  }

  /** Every name in the top-level order is upper-case. */
  predicate TopUpper(st: Shape)
  {
    forall i :: 0 <= i < |st.top| ==> Upper(st.top[i]) == st.top[i]
  }

  /** `r` grows out of `st`: the top-level order is only appended to, an
      open chapter stays open, and upper-case names stay upper-case. */
  predicate Grows(st: Shape, r: Shape)
  {
    st.top <= r.top && (st.open.Some? ==> r.open.Some?) && (TopUpper(st) ==> TopUpper(r))
  }

  lemma ChapterStepGrows(temp: seq<string>, st: Shape, item: Span)
    requires AllUpper(temp) && ChapterStep(temp, st, item).Ok?
    ensures Grows(st, ChapterStep(temp, st, item).value)
    ensures ChapterStep(temp, st, item).value.open.Some?
  {
    ChapterNameUpper(temp[item.0]);
  }

  /** Inside a chapter, a program leaves the top-level order alone. */
  lemma ProgramStepGrows(temp: seq<string>, st: Shape, item: Span)
    requires AllUpper(temp) && ProgramStep(temp, st, item).Ok?
    ensures Grows(st, ProgramStep(temp, st, item).value)
    ensures st.open.Some? ==> ProgramStep(temp, st, item).value.top == st.top
  {
    ProgramStepSplits(temp, st, item);
    ProgramNameUpper(temp, item.0);
    var name := ProgramBuilt(temp, item).value;
    var r := ProgramStep(temp, st, item).value;
    if st.open.None? {
      PlacedGrows(st, r, name);
    } else {
      assert r.top == st.top && r.open.Some?;
    }
  }

  /** Appending an upper-case name to the top level grows the structure. */
  lemma PlacedGrows(st: Shape, r: Shape, name: string)
    requires Upper(name) == name && r.top == st.top + [name] && r.open == st.open
    ensures Grows(st, r)
  {
  }

  /** A parsed directive's text is upper-case. */
  lemma DirectiveBuiltUpper(temp: seq<string>, item: Span)
    requires DirectiveBuilt(temp, item).Ok?
    ensures Upper(DirectiveBuilt(temp, item).value) == DirectiveBuilt(temp, item).value
  {
    DirectiveKeyUpper(temp[item.0]);
  }

  /** Inside a chapter, a directive leaves the top-level order alone. */
  lemma DirectiveStepGrows(temp: seq<string>, st: Shape, item: Span)
    requires AllUpper(temp) && DirectiveStep(temp, st, item).Ok?
    ensures Grows(st, DirectiveStep(temp, st, item).value)
    ensures st.open.Some? ==> DirectiveStep(temp, st, item).value.top == st.top
  {
    DirectiveStepSplits(temp, st, item);
    DirectiveBuiltUpper(temp, item);
    var r := DirectivePlaced(st, DirectiveBuilt(temp, item).value).value;
    if st.open.None? {
      PlacedGrows(st, r, DirectiveBuilt(temp, item).value);
    } else {
      assert r.top == st.top && r.open.Some?;
    }
  }

  /** A step grows the structure; inside a chapter, only a chapter header
      adds to the top-level order. */
  lemma ItemStepGrows(temp: seq<string>, found: Found, st: Shape, item: Span)
    requires AllUpper(temp) && ItemStep(temp, found, st, item).Ok?
    ensures Grows(st, ItemStep(temp, found, st, item).value)
    ensures st.open.Some? && (found.chapters.None? || item !in found.chapters.value) ==>
      ItemStep(temp, found, st, item).value.top == st.top
  {
    var isChapter := found.chapters.Some? && item in found.chapters.value;
    var st1 := if isChapter then ChapterStep(temp, st, item).value else st;
    if isChapter {
      ChapterStepGrows(temp, st, item);
    }
    var st2 := if item in found.programs then ProgramStep(temp, st1, item).value else st1;
    if item in found.programs {
      ProgramStepGrows(temp, st1, item);
    }
    if found.directives.Some? && item in found.directives.value {
      DirectiveStepGrows(temp, st2, item);
    }
  }

  /** Over the whole fold: the structure built from a prefix of the items
      grows into the final one. */
  lemma {:induction false} FoldGrows(temp: seq<string>, found: Found, items: seq<Span>, k: nat)
    requires AllUpper(temp) && k <= |items| && Fold(temp, found, items).Ok?
    ensures Fold(temp, found, items[..k]).Ok?
    ensures Grows(Fold(temp, found, items[..k]).value, Fold(temp, found, items).value)
    decreases |items| - k
  {
    if k == |items| {
      assert items[..k] == items;
    } else {
      if Fold(temp, found, items[..k]).Err? {
        FoldFailureStays(temp, found, items, k);
        assert false;
      }
      FoldNext(temp, found, items, k);
      FoldGrows(temp, found, items, k + 1);
      ItemStepGrows(temp, found, Fold(temp, found, items[..k]).value, items[k]);
    }
  }

  /** The names `_build_structure` lists at top level are upper-case. */
  lemma FoldTopUpper(temp: seq<string>, found: Found, items: seq<Span>)
    requires AllUpper(temp)
    ensures Fold(temp, found, items).Ok? ==> TopUpper(Fold(temp, found, items).value)
  {
    if Fold(temp, found, items).Ok? {
      FoldGrows(temp, found, items, 0);
    }
  }

  /** A structure is built only from text whose first prepared line is a
      PROG line, and its top-level names are upper-case. */
  lemma StructureShape(content: seq<string>)
    ensures Structure(content).Ok? ==>
      Prepared(content) != [] && Upper(Slice(LStrip(Prepared(content)[0]), 1, 5)) == "PROG"
    ensures Structure(content).Ok? ==> TopUpper(Structure(content).value)
  {
    var temp := Prepared(content);
    PreparedUpper(content);
    if Items(temp).Ok? {
      FoldTopUpper(temp, Items(temp).value.0, Items(temp).value.1);
    }
  }
}
