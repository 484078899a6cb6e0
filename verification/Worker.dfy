// The search of one file: repeated matching, and the line of each match
// (src/thread.c).

module Worker {
  import opened Kmp

  // A match in a file: its offset, the line number reported for it, and the
  // offset at which its line begins.
  datatype Hit = Hit(pos: nat, linum: nat, bol: nat)

  // ---------------------------------------------------------- begin_of_line

  function LineStart(fb: string, mid: nat): (bol: nat)
    requires mid <= |fb|
    ensures bol <= mid
  {
    if mid == 0 || fb[mid - 1] == '\n' then mid else LineStart(fb, mid - 1)
  }

  method BeginOfLine(fb: string, pos: nat) returns (mid: nat)
    requires pos <= |fb|
    ensures mid == LineStart(fb, pos)
  {
    mid := pos;
    while mid > 0
      invariant mid <= pos && LineStart(fb, mid) == LineStart(fb, pos)
    {
      if fb[mid - 1] == '\n' { break; }
      mid := mid - 1;
    }
  }

  /** The line start is the one position at or before mid that begins a line with no line break
      up to mid, and the line breaks before it are those before mid. */
  lemma {:induction false} LineStartIff(fb: string, mid: nat, b: nat)
    requires b <= mid <= |fb|
    ensures b == LineStart(fb, mid) <==>
            (b == 0 || fb[b - 1] == '\n') && (forall j: nat :: b <= j < mid ==> fb[j] != '\n')
    ensures Newlines(fb, LineStart(fb, mid)) == Newlines(fb, mid)
  {
    if mid > 0 && fb[mid - 1] != '\n' {
      if b == mid {
        LineStartIff(fb, mid - 1, mid - 1);
      } else {
        LineStartIff(fb, mid - 1, b);
      }
    }
  }

  // --------------------------------------------------------- the match loop

  lemma {:induction false} FoundFits(pat: string, text: string, linum: nat)
    requires pat != []
    ensures var r := Scan(pat, text, 0, 0, linum); r.found ==> 0 <= r.matchpos <= |text| - |pat|
  {
    ReportsAreTrue(pat, text, 0, 0, linum);
  }

  // The matches the worker reports from startpos on.
  function Hits(pat: string, fb: string, startpos: nat, linum: nat): seq<Hit>
    requires pat != [] && startpos <= |fb|
    decreases |fb| - startpos
  {
    var r := Scan(pat, fb[startpos..], 0, 0, linum);
    if !r.found then []
    else
      FoundFits(pat, fb[startpos..], linum);
      var pos := startpos + r.matchpos;
      [Hit(pos, r.linum, LineStart(fb, pos))] + Hits(pat, fb, pos + |pat|, r.linum)
  }

  lemma Regroup<T>(a: seq<T>, x: T, b: seq<T>)
    ensures a + ([x] + b) == a + [x] + b
  {
  }

  method ScanFile(matcher: Matcher, fb: string) returns (hits: seq<Hit>)
    requires matcher.Prepared()
    ensures hits == Hits(matcher.pat, fb, 0, 1)
  {
    var startpos, linum := 0, 1;
    hits := [];
    while true
      invariant startpos <= |fb|
      invariant hits + Hits(matcher.pat, fb, startpos, linum) == Hits(matcher.pat, fb, 0, 1)
      decreases |fb| - startpos
    {
      var found, linum', matchpos, _ := matcher.Match(fb[startpos..], linum);
      if !found {
        assert hits + [] == hits;
        break;
      }
      FoundFits(matcher.pat, fb[startpos..], linum);
      var pos := startpos + matchpos;
      var bol := BeginOfLine(fb, pos);
      ghost var rest := Hits(matcher.pat, fb, pos + |matcher.pat|, linum');
      assert Hits(matcher.pat, fb, startpos, linum) == [Hit(pos, linum', bol)] + rest;
      Regroup(hits, Hit(pos, linum', bol), rest);
      hits := hits + [Hit(pos, linum', bol)];
      linum := linum';
      startpos := pos + |matcher.pat|;
    }
  }

  // ------------------------------------------------------------- properties

  lemma OccursInRest(pat: string, fb: string, startpos: nat, i: int)
    requires startpos <= |fb| && i >= 0
    ensures OccursAt(pat, fb[startpos..], i) <==> OccursAt(pat, fb, startpos + i)
  {
    if i <= |fb| - startpos - |pat| {
      assert fb[startpos..][i..i + |pat|] == fb[startpos + i..startpos + i + |pat|];
    }
  }

  lemma {:induction false} HitIsTrue(pat: string, fb: string, startpos: nat, linum: nat, i: nat)
    requires pat != [] && startpos <= |fb| && i < |Hits(pat, fb, startpos, linum)|
    ensures var h := Hits(pat, fb, startpos, linum)[i]; startpos <= h.pos && OccursAt(pat, fb, h.pos)
    decreases |fb| - startpos
  {
    var text := fb[startpos..];
    var r := Scan(pat, text, 0, 0, linum);
    ReportsAreTrue(pat, text, 0, 0, linum);
    FoundFits(pat, text, linum);
    if i == 0 {
      OccursInRest(pat, fb, startpos, r.matchpos);
    } else {
      HitIsTrue(pat, fb, startpos + r.matchpos + |pat|, r.linum, i - 1);
    }
  }

  lemma {:induction false} HitsApart(pat: string, fb: string, startpos: nat, linum: nat, i: nat, j: nat)
    requires pat != [] && startpos <= |fb| && i < j < |Hits(pat, fb, startpos, linum)|
    ensures var hits := Hits(pat, fb, startpos, linum); hits[i].pos + |pat| <= hits[j].pos
    decreases |fb| - startpos
  {
    var text := fb[startpos..];
    var r := Scan(pat, text, 0, 0, linum);
    FoundFits(pat, text, linum);
    if i == 0 {
      HitIsTrue(pat, fb, startpos + r.matchpos + |pat|, r.linum, j - 1);
    } else {
      HitsApart(pat, fb, startpos + r.matchpos + |pat|, r.linum, i - 1, j - 1);
    }
  }

  // bol begins a line, and no line break comes between it and pos.
  predicate InLineFrom(fb: string, bol: nat, pos: nat) {
    && bol <= pos <= |fb|
    && (bol == 0 || fb[bol - 1] == '\n')
    && (forall j: nat :: bol <= j < pos ==> fb[j] != '\n')
  }

  /** Every reported match is a true occurrence inside the file, the line passed on begins a line
      and runs without a break up to the match, and the matches come in order and do not overlap,
      whatever the pattern. */
  lemma {:induction false} HitsAreTrue(pat: string, fb: string, startpos: nat, linum: nat)
    requires pat != [] && startpos <= |fb|
    ensures var hits := Hits(pat, fb, startpos, linum);
            && (forall i: nat :: i < |hits| ==> startpos <= hits[i].pos && OccursAt(pat, fb, hits[i].pos))
            && (forall i: nat :: i < |hits| ==> InLineFrom(fb, hits[i].bol, hits[i].pos))
            && (forall i: nat, j: nat :: i < j < |hits| ==> hits[i].pos + |pat| <= hits[j].pos)
  {
    var hits := Hits(pat, fb, startpos, linum);
    forall i: nat | i < |hits| ensures startpos <= hits[i].pos && OccursAt(pat, fb, hits[i].pos) {
      HitIsTrue(pat, fb, startpos, linum, i);
    }
    forall i: nat | i < |hits| ensures InLineFrom(fb, hits[i].bol, hits[i].pos) {
      HitLineStart(pat, fb, startpos, linum, i);
      LineStartIff(fb, hits[i].pos, hits[i].bol);
    }
    forall i: nat, j: nat | i < j < |hits| ensures hits[i].pos + |pat| <= hits[j].pos {
      HitsApart(pat, fb, startpos, linum, i, j);
    }
  }

  // hits lists the leftmost non-overlapping occurrences from startpos on, and all of them.
  ghost predicate Greedy(pat: string, fb: string, startpos: nat, hits: seq<Hit>)
    decreases |hits|
  {
    if hits == [] then forall j: int :: j >= startpos ==> !OccursAt(pat, fb, j)
    else
      && startpos <= hits[0].pos
      && OccursAt(pat, fb, hits[0].pos)
      && (forall j: int :: startpos <= j < hits[0].pos ==> !OccursAt(pat, fb, j))
      && Greedy(pat, fb, hits[0].pos + |pat|, hits[1..])
  }

  lemma {:induction false} FirstIsLeftmost(pat: string, fb: string, startpos: nat, linum: nat)
    requires pat != [] && startpos <= |fb| && CoversBorders(pat)
    ensures var r := Scan(pat, fb[startpos..], 0, 0, linum);
            if r.found
            then OccursAt(pat, fb, startpos + r.matchpos) && r.matchpos >= 0
                 && forall j: int :: startpos <= j < startpos + r.matchpos ==> !OccursAt(pat, fb, j)
            else forall j: int :: j >= startpos ==> !OccursAt(pat, fb, j)
  {
    var text := fb[startpos..];
    CoveredFindsLeftmost(pat, text, linum);
    forall j: int | startpos <= j && OccursAt(pat, fb, j) ensures OccursAt(pat, text, j - startpos) {
      OccursInRest(pat, fb, startpos, j - startpos);
    }
    var r := Scan(pat, text, 0, 0, linum);
    if r.found { OccursInRest(pat, fb, startpos, r.matchpos); }
  }

  lemma FirstHit(pat: string, fb: string, startpos: nat, linum: nat) returns (h: Hit)
    requires pat != [] && startpos <= |fb| && Scan(pat, fb[startpos..], 0, 0, linum).found
    ensures var r := Scan(pat, fb[startpos..], 0, 0, linum);
            h.pos == startpos + r.matchpos && startpos <= h.pos <= |fb| - |pat| && h.linum == r.linum
    ensures Hits(pat, fb, startpos, linum) == [h] + Hits(pat, fb, h.pos + |pat|, h.linum)
  {
    var r := Scan(pat, fb[startpos..], 0, 0, linum);
    FoundFits(pat, fb[startpos..], linum);
    h := Hit(startpos + r.matchpos, r.linum, LineStart(fb, startpos + r.matchpos));
  }

  lemma GreedyMore(pat: string, fb: string, startpos: nat, h: Hit, rest: seq<Hit>)
    requires startpos <= h.pos && OccursAt(pat, fb, h.pos)
    requires forall j: int :: startpos <= j < h.pos ==> !OccursAt(pat, fb, j)
    requires Greedy(pat, fb, h.pos + |pat|, rest)
    ensures Greedy(pat, fb, startpos, [h] + rest)
  {
    assert ([h] + rest)[1..] == rest;
  }

  /** For the patterns the search handles, the worker reports the leftmost occurrence after each
      match, and stops only when none is left. */
  lemma {:induction false} HitsAreGreedy(pat: string, fb: string, startpos: nat, linum: nat)
    requires pat != [] && startpos <= |fb| && CoversBorders(pat)
    ensures Greedy(pat, fb, startpos, Hits(pat, fb, startpos, linum))
    decreases |fb| - startpos
  {
    FirstIsLeftmost(pat, fb, startpos, linum);
    if Scan(pat, fb[startpos..], 0, 0, linum).found {
      var h := FirstHit(pat, fb, startpos, linum);
      HitsAreGreedy(pat, fb, h.pos + |pat|, h.linum);
      GreedyMore(pat, fb, startpos, h, Hits(pat, fb, h.pos + |pat|, h.linum));
    }
  }

  /** Exactly when the worker reports the leftmost non-overlapping occurrences of every file: if
      and only if the table covers the borders of the pattern. */
  lemma {:induction false} GreedyIffCovered(pat: string)
    requires pat != []
    ensures (forall fb: string :: Greedy(pat, fb, 0, Hits(pat, fb, 0, 1))) <==> CoversBorders(pat)
  {
    if CoversBorders(pat) {
      forall fb: string ensures Greedy(pat, fb, 0, Hits(pat, fb, 0, 1)) { HitsAreGreedy(pat, fb, 0, 1); }
    } else {
      var q: nat, b: nat :| 1 <= b < q < |pat| && IsBorder(pat, q, b) && pat[b] != pat[q]
        && !(b <= Entry(pat, q - 1) && pat[Entry(pat, q - 1)] == pat[b]);
      TrapNotGreedy(pat, q, b);
      assert !Greedy(pat, Trap(pat, q, b), 0, Hits(pat, Trap(pat, q, b), 0, 1));
    }
  }

  lemma {:induction false} TrapNotGreedy(pat: string, q: nat, b: nat)
    requires 1 <= b < q < |pat| && IsBorder(pat, q, b) && pat[b] != pat[q]
    requires b > Entry(pat, q - 1) || pat[Entry(pat, q - 1)] != pat[b]
    ensures !Greedy(pat, Trap(pat, q, b), 0, Hits(pat, Trap(pat, q, b), 0, 1))
  {
    var fb := Trap(pat, q, b);
    UncoveredIsMissed(pat, q, b, 1);
    assert fb[0..] == fb;
    assert Hits(pat, fb, 0, 1) == [];
  }

  lemma {:induction false} NewlinesSplit(fb: string, startpos: nat, m: nat)
    requires startpos + m <= |fb|
    ensures Newlines(fb, startpos + m) == Newlines(fb, startpos) + Newlines(fb[startpos..], m)
  {
    if m > 0 { NewlinesSplit(fb, startpos, m - 1); }
  }

  lemma {:induction false} LineNumberIsRight(pat: string, fb: string, startpos: nat, linum: nat, i: nat)
    requires pat != [] && startpos <= |fb| && (forall q: nat :: 0 < q < |pat| ==> !CountsTwice(pat, q))
    requires linum == 1 + Newlines(fb, startpos) && i < |Hits(pat, fb, startpos, linum)|
    ensures var h := Hits(pat, fb, startpos, linum)[i];
            h.pos + |pat| <= |fb| && h.linum == 1 + Newlines(fb, h.pos + |pat|)
    decreases |fb| - startpos
  {
    var text := fb[startpos..];
    var r := Scan(pat, text, 0, 0, linum);
    FoundFits(pat, text, linum);
    LinesExact(pat, text, 0, 0, linum, false);
    NewlinesSplit(fb, startpos, r.matchpos + |pat|);
    if i > 0 { LineNumberIsRight(pat, fb, startpos + r.matchpos + |pat|, r.linum, i - 1); }
  }

  /** If no line break makes the search reset, every match is reported with one more than the line
      breaks up to its last character. */
  lemma {:induction false} LineNumbersAreRight(pat: string, fb: string)
    requires pat != [] && (forall q: nat :: 0 < q < |pat| ==> !CountsTwice(pat, q))
    ensures LinesRight(pat, fb)
  {
    forall i: nat | i < |Hits(pat, fb, 0, 1)|
      ensures var h := Hits(pat, fb, 0, 1)[i]; h.pos + |pat| <= |fb| && h.linum == 1 + Newlines(fb, h.pos + |pat|)
    {
      LineNumberIsRight(pat, fb, 0, 1, i);
    }
  }

  ghost predicate LinesRight(pat: string, fb: string)
    requires pat != []
  {
    var hits := Hits(pat, fb, 0, 1);
    forall i: nat :: i < |hits| ==>
      hits[i].pos + |pat| <= |fb| && hits[i].linum == 1 + Newlines(fb, hits[i].pos + |pat|)
  }

  /** Exactly when the reported line numbers are right in every file: if and only if at no prefix
      of the pattern a line break makes the search reset. */
  lemma {:induction false} LineNumbersIff(pat: string)
    requires pat != []
    ensures (forall fb: string :: LinesRight(pat, fb)) <==> (forall q: nat :: 0 < q < |pat| ==> !CountsTwice(pat, q))
  {
    if forall q: nat :: 0 < q < |pat| ==> !CountsTwice(pat, q) {
      forall fb: string ensures LinesRight(pat, fb) { LineNumbersAreRight(pat, fb); }
    } else {
      var q: nat :| 0 < q < |pat| && CountsTwice(pat, q);
      var fb := LateMatch(pat, q);
      LateMatchMiscounted(pat, q, 1);
      assert fb[0..] == fb;
      var hit := Hits(pat, fb, 0, 1)[0];
      assert hit.pos == |fb| - |pat| && hit.linum == 2 + Newlines(fb, |fb|);
      assert !LinesRight(pat, fb);
    }
  }

  lemma {:induction false} NoBreaks(fb: string, a: nat, b: nat)
    requires a <= b <= |fb| && forall j: nat :: a <= j < b ==> fb[j] != '\n'
    ensures Newlines(fb, b) == Newlines(fb, a)
  {
    if a < b { NoBreaks(fb, a, b - 1); }
  }

  // A pattern that repeats its first character at most at its end has a table of zeros up to there.
  lemma {:induction false} ZeroTable(pat: string, k: nat)
    requires k + 1 < |pat| && forall j: nat :: 0 < j <= k ==> pat[j] != pat[0]
    ensures Entry(pat, k) == 0
  {
    if k > 0 { ZeroTable(pat, k - 1); }
  }

  /** For a pattern without line breaks that repeats its first character at most at its end, each match is
      reported with the number of the line it is in, and the line handed on to the result buffer
      begins that line and holds the whole match. */
  lemma {:induction false} HitIsInItsLine(pat: string, fb: string, i: nat)
    requires pat != [] && '\n' !in pat && (forall k: nat :: 0 < k && k + 1 < |pat| ==> pat[k] != pat[0])
    requires i < |Hits(pat, fb, 0, 1)|
    ensures var h := Hits(pat, fb, 0, 1)[i];
            && h.bol <= h.pos <= h.pos + |pat| <= |fb|
            && h.linum == 1 + Newlines(fb, h.bol)
            && (h.bol == 0 || fb[h.bol - 1] == '\n')
            && (forall j: nat :: h.bol <= j < h.pos + |pat| ==> fb[j] != '\n')
  {
    var h := Hits(pat, fb, 0, 1)[i];
    HitsAreTrue(pat, fb, 0, 1);
    forall q: nat | 0 < q < |pat| ensures !CountsTwice(pat, q) { ZeroTable(pat, q - 1); }
    LineNumbersAreRight(pat, fb);
    forall j: nat | h.pos <= j < h.pos + |pat| ensures fb[j] != '\n' {
      assert fb[h.pos..h.pos + |pat|][j - h.pos] == pat[j - h.pos];
    }
    NoBreaks(fb, h.pos, h.pos + |pat|);
    HitLineStart(pat, fb, 0, 1, i);
    LineStartIff(fb, h.pos, h.bol);
  }

  lemma {:induction false} HitLineStart(pat: string, fb: string, startpos: nat, linum: nat, i: nat)
    requires pat != [] && startpos <= |fb| && i < |Hits(pat, fb, startpos, linum)|
    ensures var h := Hits(pat, fb, startpos, linum)[i]; h.pos <= |fb| && h.bol == LineStart(fb, h.pos)
    decreases |fb| - startpos
  {
    var r := Scan(pat, fb[startpos..], 0, 0, linum);
    FoundFits(pat, fb[startpos..], linum);
    if i > 0 { HitLineStart(pat, fb, startpos + r.matchpos + |pat|, r.linum, i - 1); }
  }
}
