// The simplified KMP search: the table, the matching loop and the line count
// (src/match.c).

module Kmp {
  // What matchpos holds after a failed search: -1 as a 32-bit word.
  const NOT_FOUND: nat := 0xFFFF_FFFF

  // ------------------------------------------------------------- the table

  // kmp_table[i]: on a mismatch the builder drops to 0 at once.
  function Entry(pat: string, i: nat): (t: nat)
    requires i < |pat|
    ensures t <= i
  {
    if i == 0 then 0
    else
      var t := Entry(pat, i - 1);
      if pat[t] == pat[i] then t + 1 else 0
  }

  // pat[..b] is a proper border of pat[..q].
  predicate IsBorder(pat: string, q: nat, b: nat) {
    b < q <= |pat| && pat[..b] == pat[q - b..q]
  }

  /** Every table entry is a genuine proper border, though not always the longest. */
  lemma {:induction false} EntryIsBorder(pat: string, i: nat)
    requires i < |pat|
    ensures IsBorder(pat, i + 1, Entry(pat, i))
  {
    if i > 0 {
      EntryIsBorder(pat, i - 1);
      var t := Entry(pat, i - 1);
      if pat[t] == pat[i] {
        assert pat[..t + 1] == pat[..t] + [pat[t]];
        assert pat[i - t..i + 1] == pat[i - t..i] + [pat[i]];
      }
    }
  }

  // pat[..b] is the longest proper border of pat[..q].
  ghost predicate IsLongestBorder(pat: string, q: nat, b: nat) {
    IsBorder(pat, q, b) && forall c: nat :: IsBorder(pat, q, c) ==> c <= b
  }

  function LongestUpTo(pat: string, q: nat, b: nat): (l: nat)
    requires b < q <= |pat|
    ensures IsBorder(pat, q, l) && l <= b && forall c: nat :: c <= b && IsBorder(pat, q, c) ==> c <= l
  {
    if b == 0 || IsBorder(pat, q, b) then b else LongestUpTo(pat, q, b - 1)
  }

  // The length of the longest proper border of pat[..q].
  function Longest(pat: string, q: nat): (l: nat)
    requires 0 < q <= |pat|
    ensures IsLongestBorder(pat, q, l)
  {
    LongestUpTo(pat, q, q - 1)
  }

  // A border of a longer prefix, without its last character, is a border of a shorter.
  lemma {:induction false} BorderMore(pat: string, q: nat, b: nat)
    requires 0 < q < |pat|
    ensures IsBorder(pat, q + 1, b + 1) <==> IsBorder(pat, q, b) && pat[b] == pat[q]
  {
    if b < q {
      assert pat[..b + 1] == pat[..b] + [pat[b]];
      assert pat[q - b..q + 1] == pat[q - b..q] + [pat[q]];
    }
  }

  // Up to the prefix of length q the longest border grows by one character or is lost.
  predicate Stepwise(pat: string, q: nat)
    requires q <= |pat|
  {
    forall j: nat :: 2 <= j <= q ==> GrowsOrLost(pat, j)
  }

  predicate GrowsOrLost(pat: string, j: nat)
    requires 2 <= j <= |pat|
  {
    Longest(pat, j) in {0, Longest(pat, j - 1) + 1}
  }

  // The table holds the longest borders, up to the prefix of length q.
  predicate TableIsLongest(pat: string, q: nat)
    requires q <= |pat|
  {
    forall j: nat {:trigger Longest(pat, j)} :: 1 <= j <= q ==> Entry(pat, j - 1) == Longest(pat, j)
  }

  lemma {:induction false} LongestStep(pat: string, q: nat)
    requires 2 <= q <= |pat|
    ensures var l := Longest(pat, q - 1);
            if pat[l] == pat[q - 1] then Longest(pat, q) == l + 1 else Longest(pat, q) <= l
  {
    BorderMore(pat, q - 1, Longest(pat, q - 1));
    if Longest(pat, q) > 0 { BorderMore(pat, q - 1, Longest(pat, q) - 1); }
  }

  /** Exactly when the table is that of the KMP algorithm, up to the entry for the prefix of length
      q: if and only if up to there the longest proper border always grows by one or is lost. */
  lemma {:induction false} TableIsLongestIff(pat: string, q: nat)
    requires q <= |pat|
    ensures TableIsLongest(pat, q) <==> Stepwise(pat, q)
  {
    if q > 1 {
      TableIsLongestIff(pat, q - 1);
      LongestStep(pat, q);
      assert TableIsLongest(pat, q) <==> TableIsLongest(pat, q - 1) && Entry(pat, q - 1) == Longest(pat, q);
      assert Stepwise(pat, q) <==> Stepwise(pat, q - 1) && GrowsOrLost(pat, q);
    }
  }

  // The character at i is the one s places before.
  predicate Echo(pat: string, s: nat, i: nat) {
    s <= i < |pat| && pat[i] == pat[i - s]
  }

  // From s on the pattern up to m repeats its own beginning, until e.
  predicate Repeats(pat: string, s: nat, e: nat, m: nat) {
    1 <= s <= e <= m <= |pat| && (forall i: nat :: s <= i < e ==> Echo(pat, s, i)) && (e < m ==> !Echo(pat, s, e))
  }

  // Where the k-th run ends: at the character before the start of the next.
  function RunEnd(ss: seq<nat>, k: nat, m: nat): int
    requires k < |ss|
  {
    if k + 1 < |ss| then ss[k + 1] - 1 else m
  }

  predicate RunAt(pat: string, ss: seq<nat>, k: nat, m: nat)
    requires k < |ss|
  {
    RunEnd(ss, k, m) >= 0 && Repeats(pat, ss[k], RunEnd(ss, k, m), m)
  }

  // The runs that start at ss, each after the character that breaks off the one before, make up
  // the first m characters of the pattern.
  predicate Runs(pat: string, ss: seq<nat>, m: nat) {
    ss != [] && ss[0] == 1 && forall k: nat :: k < |ss| ==> RunAt(pat, ss, k, m)
  }

  lemma EntryStep(pat: string, i: nat, s: nat)
    requires 1 <= s <= i < |pat| && Entry(pat, i - 1) == i - s
    ensures Entry(pat, i) == if Echo(pat, s, i) then i + 1 - s else 0
  {
  }

  /** For every pattern: cut greedily into runs that repeat its beginning, it has at each position
      the table entry that counts the characters since the run began. */
  lemma {:induction false} TableFromRuns(pat: string, ss: seq<nat>, k: nat, i: nat)
    requires Runs(pat, ss, |pat|) && k < |ss| && ss[k] - 1 <= i < RunEnd(ss, k, |pat|)
    ensures i < |pat| && Entry(pat, i) == i + 1 - ss[k]
    decreases i
  {
    assert RunAt(pat, ss, k, |pat|);
    if i >= ss[k] {
      TableFromRuns(pat, ss, k, i - 1);
      EntryStep(pat, i, ss[k]);
    } else if k > 0 {
      assert RunAt(pat, ss, k - 1, |pat|);
      if i > ss[k - 1] - 1 { TableFromRuns(pat, ss, k - 1, i - 1); }
      EntryStep(pat, i, ss[k - 1]);
    }
  }

  // One more character continues a run or begins another.
  lemma {:induction false} RepeatsMore(pat: string, s: nat, c: nat, m: nat)
    requires Repeats(pat, s, c, c) && m == c + 1 <= |pat|
    ensures if Echo(pat, s, c) then Repeats(pat, s, m, m) else Repeats(pat, s, c, m) && Repeats(pat, m, m, m)
  {
  }

  lemma {:induction false} RunsMore(pat: string, ss: seq<nat>, c: nat, m: nat) returns (ss': seq<nat>)
    requires Runs(pat, ss, c) && m == c + 1 <= |pat|
    ensures Runs(pat, ss', m)
  {
    var s := ss[|ss| - 1];
    assert RunAt(pat, ss, |ss| - 1, c);
    RepeatsMore(pat, s, c, m);
    ss' := if Echo(pat, s, c) then ss else ss + [m];
    forall k: nat | k < |ss'| ensures RunAt(pat, ss', k, m) {
      if k + 1 < |ss| { assert RunAt(pat, ss, k, c) && RunAt(pat, ss, k + 1, c); }
    }
  }

  lemma {:induction false} RunsExist(pat: string, m: nat) returns (ss: seq<nat>)
    requires 0 < m <= |pat|
    ensures Runs(pat, ss, m)
  {
    if m == 1 {
      ss := [1];
      assert RunAt(pat, ss, 0, 1);
    } else {
      var ss0 := RunsExist(pat, m - 1);
      ss := RunsMore(pat, ss0, m - 1, m);
    }
  }

  // -------------------------------------------------------------- the loop

  datatype Outcome = Outcome(found: bool, linum: nat, matchpos: int)

  function LineBreak(c: char): nat { if c == '\n' then 1 else 0 }

  // The loop from pat_pos q and text_pos p on: one fallback, then a reset to 0.
  function Scan(pat: string, text: string, q: nat, p: nat, linum: nat): Outcome
    requires q < |pat| && p <= |text|
    decreases |text| - p, q
  {
    if p == |text| then Outcome(false, linum, NOT_FOUND)
    else
      var linum' := linum + LineBreak(text[p]);
      if text[p] == pat[q] then
        if q == |pat| - 1 then Outcome(true, linum', p - |pat| + 1) else Scan(pat, text, q + 1, p + 1, linum')
      else if q == 0 then Scan(pat, text, 0, p + 1, linum')
      else
        var f := Entry(pat, q - 1);
        if text[p] == pat[f] then
          if f == |pat| - 1 then Outcome(true, linum', p - |pat| + 1) else Scan(pat, text, f + 1, p + 1, linum')
        else if f != 0 then Scan(pat, text, 0, p, linum')
        else Scan(pat, text, 0, p + 1, linum')
  }

  class Matcher {
    var pat: string
    var table: array?<nat>

    ghost predicate Prepared()
      reads this, table
    {
      && pat != []
      && table != null
      && table.Length == |pat|
      && (forall i: nat :: i < |pat| ==> table[i] == Entry(pat, i))
    }

    constructor ()
      ensures table == null
    {
      pat, table := [], null;
    }

    method Prepare(pattern: string)
      requires pattern != [] && table == null
      modifies this
      ensures Prepared() && pat == pattern && fresh(table)
    {
      var t := new nat[|pattern|];
      t[0] := 0;
      for i := 1 to |pattern|
        invariant t[i - 1] == Entry(pattern, i - 1)
        invariant forall j: nat {:trigger t[j]} :: j < i ==> t[j] == Entry(pattern, j)
      {
        if pattern[t[i - 1]] == pattern[i] {
          t[i] := t[i - 1] + 1;
        } else {
          t[i] := 0;
        }
      }
      pat, table := pattern, t;
    }

    // Searches text from its start. iters counts the turns of the loop.
    method Match(text: string, linum: nat) returns (found: bool, linum': nat, matchpos: int, ghost iters: nat)
      requires Prepared()
      ensures Outcome(found, linum', matchpos) == Scan(pat, text, 0, 0, linum)
      ensures iters <= 2 * |text|
    {
      var q, p, lineCnt := 0, 0, linum;
      found, iters := false, 0;
      ghost var again := false;  // the character at p has been read once
      while p < |text| && !found
        invariant q < |pat| && p <= |text|
        invariant found ==> p < |text| && Outcome(true, lineCnt, p - |pat| + 1) == Scan(pat, text, 0, 0, linum)
        invariant !found ==> Scan(pat, text, q, p, lineCnt) == Scan(pat, text, 0, 0, linum)
        invariant again ==> q == 0 && p < |text|
        invariant iters <= 2 * p + if found then 2 else if again then 1 else 0
        decreases if found then 0 else 1, |text| - p, q
      {
        iters := iters + 1;
        again := false;
        if text[p] == '\n' {
          lineCnt := lineCnt + 1;
        }
        if text[p] == pat[q] {
          if q == |pat| - 1 {
            found := true;
          } else {
            q, p := q + 1, p + 1;
          }
        } else if q == 0 {
          p := p + 1;
        } else {
          q := table[q - 1];
          if text[p] == pat[q] {
            if q == |pat| - 1 {
              found := true;
            } else {
              q, p := q + 1, p + 1;
            }
          } else if q != 0 {
            q := 0;
            again := true;
          } else {
            p := p + 1;
          }
        }
      }
      linum' := lineCnt;
      matchpos := if found then p - |pat| + 1 else NOT_FOUND;
    }

    method Finish()
      modifies this
      ensures table == null
    {
      table := null;
    }
  }

  // ------------------------------------------------------------ occurrences

  predicate OccursAt(pat: string, text: string, i: int) {
    0 <= i <= |text| - |pat| && text[i..i + |pat|] == pat
  }

  // The last q characters before position p are the first q of the pattern.
  predicate Matches(pat: string, text: string, q: nat, p: nat) {
    q <= |pat| && q <= p <= |text| && (q == 0 || (text[p - 1] == pat[q - 1] && Matches(pat, text, q - 1, p - 1)))
  }

  lemma {:induction false} MatchesSlice(pat: string, text: string, q: nat, p: nat)
    ensures Matches(pat, text, q, p) <==> q <= |pat| && q <= p <= |text| && text[p - q..p] == pat[..q]
  {
    if 0 < q <= |pat| && q <= p <= |text| {
      MatchesSlice(pat, text, q - 1, p - 1);
      assert text[p - q..p] == text[p - q..p - 1] + [text[p - 1]];
      assert pat[..q] == pat[..q - 1] + [pat[q - 1]];
    }
  }

  lemma MatchesMore(pat: string, text: string, q: nat, p: nat)
    requires q < |pat| && p < |text|
    ensures Matches(pat, text, q + 1, p + 1) <==> Matches(pat, text, q, p) && text[p] == pat[q]
  {
  }

  // A shorter match is a border of a longer one, and the other way round.
  lemma MatchesBorder(pat: string, text: string, q: nat, b: nat, p: nat)
    requires Matches(pat, text, q, p) && b < q
    ensures Matches(pat, text, b, p) <==> IsBorder(pat, q, b)
  {
    MatchesSlice(pat, text, q, p);
    MatchesSlice(pat, text, b, p);
    assert text[p - b..p] == text[p - q..p][q - b..] == pat[..q][q - b..] == pat[q - b..q];
  }

  lemma FullMatch(pat: string, text: string, p: nat)
    requires Matches(pat, text, |pat|, p)
    ensures OccursAt(pat, text, p - |pat|)
  {
    MatchesSlice(pat, text, |pat|, p);
    assert pat[..|pat|] == pat;
  }

  // The table's border still matches after a mismatch.
  lemma {:induction false} FallbackMatches(pat: string, text: string, q: nat, p: nat)
    requires 0 < q < |pat| && Matches(pat, text, q, p)
    ensures Matches(pat, text, Entry(pat, q - 1), p)
  {
    EntryIsBorder(pat, q - 1);
    MatchesBorder(pat, text, q, Entry(pat, q - 1), p);
  }

  /** Whatever the pattern, a reported position is a true occurrence. */
  lemma {:induction false} ReportsAreTrue(pat: string, text: string, q: nat, p: nat, linum: nat)
    requires q < |pat| && Matches(pat, text, q, p)
    ensures var r := Scan(pat, text, q, p, linum);
            if r.found then OccursAt(pat, text, r.matchpos) else r.matchpos == 0xFFFF_FFFF
    decreases |text| - p, q
  {
    if p < |text| {
      var linum' := linum + LineBreak(text[p]);
      if text[p] == pat[q] {
        assert Matches(pat, text, q + 1, p + 1) by { MatchesMore(pat, text, q, p); }
        if q < |pat| - 1 { ReportsAreTrue(pat, text, q + 1, p + 1, linum'); } else { FullMatch(pat, text, p + 1); }
      } else if q == 0 {
        ReportsAreTrue(pat, text, 0, p + 1, linum');
      } else {
        var f := Entry(pat, q - 1);
        if text[p] == pat[f] {
          assert Matches(pat, text, f + 1, p + 1) by {
            FallbackMatches(pat, text, q, p);
            MatchesMore(pat, text, f, p);
          }
          ReportsAreTrue(pat, text, f + 1, p + 1, linum');
        } else if f != 0 {
          ReportsAreTrue(pat, text, 0, p, linum');
        } else {
          ReportsAreTrue(pat, text, 0, p + 1, linum');
        }
      }
    }
  }

  // ------------------------------------- the patterns that are always found

  // What a search should do: report the leftmost occurrence, if there is one.
  ghost predicate FindsLeftmost(pat: string, text: string)
    requires pat != []
  {
    var r := Scan(pat, text, 0, 0, 0);
    if r.found
    then OccursAt(pat, text, r.matchpos) && forall j: int :: j < r.matchpos ==> !OccursAt(pat, text, j)
    else forall j: int :: !OccursAt(pat, text, j)
  }

  // Wherever a mismatch after q characters could be continued by a border b of them, the
  // table's border is continued by the same character and is no shorter.
  predicate CoversBorders(pat: string) {
    forall q: nat, b: nat {:trigger IsBorder(pat, q, b)} ::
      1 <= b < q < |pat| && IsBorder(pat, q, b) && pat[b] != pat[q] ==>
        b <= Entry(pat, q - 1) && pat[Entry(pat, q - 1)] == pat[b]
  }

  // No match that the next character continues is longer than q.
  ghost predicate NoneLonger(pat: string, text: string, q: nat, p: nat) {
    forall b: nat :: b < |pat| && p < |text| && Matches(pat, text, b, p) && text[p] == pat[b] ==> b <= q
  }

  ghost predicate NoneEndsBy(pat: string, text: string, p: int) {
    forall e: nat :: e <= p ==> !Matches(pat, text, |pat|, e)
  }

  // Reading one more character from a state with nothing longer.
  lemma {:induction false} LongestMore(pat: string, text: string, q: nat, p: nat)
    requires q < |pat| && p < |text| && NoneLonger(pat, text, q, p) && NoneEndsBy(pat, text, p)
    requires if text[p] == pat[q] then q < |pat| - 1 else q == 0
    ensures NoneEndsBy(pat, text, p + 1)
    ensures NoneLonger(pat, text, if text[p] == pat[q] then q + 1 else 0, p + 1)
  {
    forall b: nat | b < |pat| && p + 1 < |text| && Matches(pat, text, b, p + 1) && text[p + 1] == pat[b]
      ensures b <= if text[p] == pat[q] then q + 1 else 0
    {
      if b > 0 { MatchesMore(pat, text, b - 1, p); }
    }
    MatchesMore(pat, text, |pat| - 1, p);
  }

  lemma {:induction false} BorderCovered(pat: string, q: nat, b: nat)
    requires CoversBorders(pat) && 1 <= b < q < |pat| && IsBorder(pat, q, b) && pat[b] != pat[q]
    ensures b <= Entry(pat, q - 1) && pat[Entry(pat, q - 1)] == pat[b]
  {
  }

  // After a mismatch the table's border is long enough.
  lemma {:induction false} FallbackLongest(pat: string, text: string, q: nat, p: nat, f: nat)
    requires CoversBorders(pat) && 0 < q < |pat| && p < |text| && f == Entry(pat, q - 1)
    requires Matches(pat, text, q, p) && NoneLonger(pat, text, q, p) && text[p] != pat[q]
    ensures NoneLonger(pat, text, if text[p] == pat[f] then f else 0, p)
  {
    forall b: nat | b < |pat| && Matches(pat, text, b, p) && text[p] == pat[b]
      ensures b <= if text[p] == pat[f] then f else 0
    {
      if b > 0 {
        MatchesBorder(pat, text, q, b, p);
        BorderCovered(pat, q, b);
      }
    }
  }

  // Nothing has been missed so far.
  ghost predicate OnTrack(pat: string, text: string, q: nat, p: nat) {
    q < |pat| && Matches(pat, text, q, p) && NoneLonger(pat, text, q, p) && NoneEndsBy(pat, text, p)
  }

  lemma {:induction false} OnTrackMore(pat: string, text: string, q: nat, p: nat)
    requires OnTrack(pat, text, q, p) && p < |text|
    requires if text[p] == pat[q] then q < |pat| - 1 else q == 0
    ensures OnTrack(pat, text, if text[p] == pat[q] then q + 1 else 0, p + 1)
  {
    LongestMore(pat, text, q, p);
  }

  lemma {:induction false} OnTrackFallback(pat: string, text: string, q: nat, p: nat, f: nat)
    requires CoversBorders(pat) && OnTrack(pat, text, q, p) && 0 < q && p < |text| && f == Entry(pat, q - 1)
    requires text[p] != pat[q]
    ensures f < q && OnTrack(pat, text, if text[p] == pat[f] then f else 0, p)
  {
    FallbackMatches(pat, text, q, p);
    FallbackLongest(pat, text, q, p, f);
  }

  lemma {:induction false} CoveredIsFound(pat: string, text: string, q: nat, p: nat, linum: nat)
    requires CoversBorders(pat) && OnTrack(pat, text, q, p)
    ensures var r := Scan(pat, text, q, p, linum);
            NoneEndsBy(pat, text, if r.found then r.matchpos + |pat| - 1 else |text|)
    decreases |text| - p, q
  {
    if p < |text| {
      var linum' := linum + LineBreak(text[p]);
      if text[p] == pat[q] {
        if q < |pat| - 1 {
          OnTrackMore(pat, text, q, p);
          CoveredIsFound(pat, text, q + 1, p + 1, linum');
        }
      } else if q == 0 {
        OnTrackMore(pat, text, 0, p);
        CoveredIsFound(pat, text, 0, p + 1, linum');
      } else {
        var f := Entry(pat, q - 1);
        OnTrackFallback(pat, text, q, p, f);
        if text[p] == pat[f] {
          OnTrackMore(pat, text, f, p);
          CoveredIsFound(pat, text, f + 1, p + 1, linum');
        } else if f != 0 {
          CoveredIsFound(pat, text, 0, p, linum');
        } else {
          OnTrackMore(pat, text, 0, p);
          CoveredIsFound(pat, text, 0, p + 1, linum');
        }
      }
    }
  }

  // With too few characters left the loop cannot reach the end of the pattern.
  lemma {:induction false} TooFewLeft(pat: string, text: string, q: nat, p: nat, linum: nat)
    requires q < |pat| && p <= |text| && q + (|text| - p) < |pat|
    ensures !Scan(pat, text, q, p, linum).found
    decreases |text| - p, q
  {
    if p < |text| {
      var linum' := linum + LineBreak(text[p]);
      if text[p] == pat[q] {
        TooFewLeft(pat, text, q + 1, p + 1, linum');
      } else if q == 0 {
        TooFewLeft(pat, text, 0, p + 1, linum');
      } else {
        var f := Entry(pat, q - 1);
        if text[p] == pat[f] {
          TooFewLeft(pat, text, f + 1, p + 1, linum');
        } else if f != 0 {
          TooFewLeft(pat, text, 0, p, linum');
        } else {
          TooFewLeft(pat, text, 0, p + 1, linum');
        }
      }
    }
  }

  // Reading a prefix of the pattern from its start.
  lemma {:induction false} ReadsPrefix(pat: string, text: string, q: nat, k: nat, linum: nat)
    requires k <= q < |pat| && q <= |text| && text[..q] == pat[..q]
    ensures exists l: nat :: Scan(pat, text, k, k, linum) == Scan(pat, text, q, q, l)
    decreases q - k
  {
    if k == q {
      assert Scan(pat, text, k, k, linum) == Scan(pat, text, q, q, linum);
    } else {
      assert text[k] == text[..q][k] == pat[k];
      ReadsPrefix(pat, text, q, k + 1, linum + LineBreak(text[k]));
    }
  }

  // A text in which a border that the table misses leads to a missed occurrence.
  function Trap(pat: string, q: nat, b: nat): string
    requires b < q < |pat|
  {
    pat[..q] + pat[b..]
  }

  lemma TrapSprings(pat: string, q: nat, b: nat)
    requires 1 <= b < q < |pat| && IsBorder(pat, q, b)
    ensures var text := Trap(pat, q, b);
            OccursAt(pat, text, q - b) && |text| == q + |pat| - b && text[..q] == pat[..q] && text[q] == pat[b]
  {
    var text := Trap(pat, q, b);
    assert text[q - b..q - b + |pat|] == pat[..b] + pat[b..] == pat;
  }

  lemma {:induction false} UncoveredIsMissed(pat: string, q: nat, b: nat, linum: nat)
    requires 1 <= b < q < |pat| && IsBorder(pat, q, b) && pat[b] != pat[q]
    requires b > Entry(pat, q - 1) || pat[Entry(pat, q - 1)] != pat[b]
    ensures OccursAt(pat, Trap(pat, q, b), q - b) && !Scan(pat, Trap(pat, q, b), 0, 0, linum).found
  {
    var text := Trap(pat, q, b);
    TrapSprings(pat, q, b);
    ReadsPrefix(pat, text, q, 0, linum);
    var l: nat :| Scan(pat, text, 0, 0, linum) == Scan(pat, text, q, q, l);
    NotFoundFrom(pat, text, q, l);
  }

  lemma {:induction false} NotFoundFrom(pat: string, text: string, q: nat, l: nat)
    requires 0 < q < |pat| && q < |text| && text[q] != pat[q]
    requires var f := Entry(pat, q - 1);
             |text| - q + (if text[q] == pat[f] then f else 0) < |pat|
    ensures !Scan(pat, text, q, q, l).found
  {
    var f := Entry(pat, q - 1);
    var l' := l + LineBreak(text[q]);
    if text[q] == pat[f] {
      TooFewLeft(pat, text, f + 1, q + 1, l');
    } else if f != 0 {
      assert Scan(pat, text, q, q, l) == Scan(pat, text, 0, q, l');
      if text[q] == pat[0] {
        TooFewLeft(pat, text, 1, q + 1, l' + LineBreak(text[q]));
      } else {
        TooFewLeft(pat, text, 0, q + 1, l' + LineBreak(text[q]));
      }
    } else {
      TooFewLeft(pat, text, 0, q + 1, l');
    }
  }

  /** Exactly which patterns the search handles: it finds the leftmost occurrence in every text,
      and reports none where there is none, if and only if the table covers the borders. */
  lemma {:induction false} FoundIffCovered(pat: string)
    requires pat != []
    ensures (forall text: string :: FindsLeftmost(pat, text)) <==> CoversBorders(pat)
  {
    if CoversBorders(pat) {
      forall text: string ensures FindsLeftmost(pat, text) {
        CoveredFindsLeftmost(pat, text, 0);
      }
    } else {
      var q: nat, b: nat :| 1 <= b < q < |pat| && IsBorder(pat, q, b) && pat[b] != pat[q]
        && !(b <= Entry(pat, q - 1) && pat[Entry(pat, q - 1)] == pat[b]);
      MissedSomewhere(pat, q, b);
    }
  }

  lemma {:induction false} MissedSomewhere(pat: string, q: nat, b: nat)
    requires 1 <= b < q < |pat| && IsBorder(pat, q, b) && pat[b] != pat[q]
    requires b > Entry(pat, q - 1) || pat[Entry(pat, q - 1)] != pat[b]
    ensures exists text: string :: !FindsLeftmost(pat, text)
  {
    UncoveredIsMissed(pat, q, b, 0);
    assert !FindsLeftmost(pat, Trap(pat, q, b));
  }

  lemma {:induction false} CoveredFindsLeftmost(pat: string, text: string, linum: nat)
    requires pat != [] && CoversBorders(pat)
    ensures var r := Scan(pat, text, 0, 0, linum);
            if r.found
            then OccursAt(pat, text, r.matchpos) && forall j: int :: j < r.matchpos ==> !OccursAt(pat, text, j)
            else forall j: int :: !OccursAt(pat, text, j)
  {
    var r := Scan(pat, text, 0, 0, linum);
    ReportsAreTrue(pat, text, 0, 0, linum);
    CoveredIsFound(pat, text, 0, 0, linum);
    forall j: int | OccursAt(pat, text, j) ensures r.found && j >= r.matchpos {
      assert pat[..|pat|] == pat;
      MatchesSlice(pat, text, |pat|, j + |pat|);
    }
  }

  // Each proper prefix has at most one nonempty proper border.
  predicate AtMostOneBorder(pat: string) {
    forall q: nat, b: nat, c: nat {:trigger IsBorder(pat, q, b), IsBorder(pat, q, c)} ::
      1 <= b < q < |pat| && 1 <= c < q && IsBorder(pat, q, b) && IsBorder(pat, q, c) ==> b == c
  }

  /** Patterns whose proper prefixes have at most one nonempty proper border each, one that grows by
      one character or is lost from each to the next, are always found. */
  lemma {:induction false} SingleBordersCovered(pat: string)
    requires pat != [] && AtMostOneBorder(pat) && Stepwise(pat, |pat| - 1)
    ensures CoversBorders(pat)
  {
    TableIsLongestIff(pat, |pat| - 1);
    forall q: nat, b: nat {:trigger IsBorder(pat, q, b)} |
      1 <= b < q < |pat| && IsBorder(pat, q, b) && pat[b] != pat[q]
      ensures b <= Entry(pat, q - 1) && pat[Entry(pat, q - 1)] == pat[b]
    {
      assert IsLongestBorder(pat, q, Longest(pat, q));
    }
  }

  // Wherever a border of a proper prefix is continued by another character than the prefix, so is
  // the longest border, and by the same.
  predicate LongestContinues(pat: string) {
    forall q: nat, b: nat {:trigger IsBorder(pat, q, b)} ::
      1 <= b < q < |pat| && IsBorder(pat, q, b) && pat[b] != pat[q] ==> pat[Longest(pat, q)] == pat[b]
  }

  /** For patterns whose longest border always grows by one or is lost, said of the pattern alone:
      the search finds the leftmost occurrence in every text if and only if the longest border is
      continued as each shorter one that a mismatch could fall back to. */
  lemma {:induction false} FoundIffLongest(pat: string)
    requires pat != [] && Stepwise(pat, |pat| - 1)
    ensures (forall text: string :: FindsLeftmost(pat, text)) <==> LongestContinues(pat)
  {
    FoundIffCovered(pat);
    TableIsLongestIff(pat, |pat| - 1);
    forall q: nat, b: nat {:trigger IsBorder(pat, q, b)} | 1 <= b < q < |pat| && IsBorder(pat, q, b)
      ensures b <= Entry(pat, q - 1) == Longest(pat, q)
    {
      assert IsLongestBorder(pat, q, Longest(pat, q));
    }
  }

  // After the table has dropped to 0 it grows by at most one with each character.
  lemma {:induction false} EntryGrows(pat: string, d: nat, i: nat)
    requires d <= i < |pat| && Entry(pat, d) == 0
    ensures Entry(pat, i) <= i - d
  {
    if i > d { EntryGrows(pat, d, i - 1); }
  }

  // A border that goes on to match.
  lemma {:induction false} BorderGoesOn(pat: string, q: nat, k: nat, s: nat)
    requires s <= q <= k <= |pat| && 0 < s && IsBorder(pat, q, q - s)
    requires forall i: nat :: q <= i < k ==> Echo(pat, s, i)
    ensures IsBorder(pat, k, k - s)
    decreases k
  {
    if k > q {
      assert Echo(pat, s, k - 1);
      BorderGoesOn(pat, q, k - 1, s);
      BorderMore(pat, k - 1, k - 1 - s);
    }
  }

  // The first time that the longest border falls back, the table drops to 0.
  lemma {:induction false} FallbackIsLost(pat: string, j: nat)
    requires 2 <= j <= |pat| && Stepwise(pat, j - 1) && !GrowsOrLost(pat, j)
    ensures Entry(pat, j - 1) == 0
  {
    TableIsLongestIff(pat, j - 1);
    LongestStep(pat, j);
  }

  /** All other patterns: where the longest border of a prefix first falls back to a shorter one that
      is not lost, the table loses it; and if the pattern later breaks that border off, there is a
      text in which it occurs and is not found. */
  lemma {:induction false} FallbackIsMissed(pat: string, j: nat, k: nat, s: nat)
    requires 2 <= j <= k < |pat| && Stepwise(pat, j - 1)
    requires !GrowsOrLost(pat, j) && s == j - Longest(pat, j)
    requires (forall i: nat :: j <= i < k ==> Echo(pat, s, i)) && !Echo(pat, s, k)
    ensures Entry(pat, j - 1) == 0
    ensures var text := Trap(pat, k, k - s); OccursAt(pat, text, s) && !Scan(pat, text, 0, 0, 0).found
  {
    FallbackIsLost(pat, j);
    EntryGrows(pat, j - 1, k - 1);
    BorderGoesOn(pat, j, k, s);
    UncoveredIsMissed(pat, k, k - s, 0);
  }

  /** That the borders are single is not enough: the proper prefixes of abaac have at most one
      each, but the pattern occurs in abaabaac and is not found there. */
  lemma {:induction false} AbaacIsMissed()
    ensures AtMostOneBorder("abaac") && !Stepwise("abaac", 4) && !CoversBorders("abaac")
    ensures OccursAt("abaac", "abaabaac", 3) && !Scan("abaac", "abaabaac", 0, 0, 0).found
  {
    var pat := "abaac";
    assert IsBorder(pat, 4, 1);
    assert pat[..2] == "ab" && pat[1..3] == "ba" && pat[2..4] == "aa" && pat[..3] == "aba" && pat[1..4] == "baa";
    assert IsBorder(pat, 3, 1) && !IsBorder(pat, 3, 2) && !IsBorder(pat, 4, 2) && !IsBorder(pat, 4, 3);
    assert Longest(pat, 3) == 1 && Longest(pat, 4) == 1 && !GrowsOrLost(pat, 4);
    assert Entry(pat, 0) == 0 && Entry(pat, 1) == 0 && Entry(pat, 2) == 1 && Entry(pat, 3) == 0;
    assert Trap(pat, 4, 1) == "abaabaac";
    UncoveredIsMissed(pat, 4, 1, 0);
  }

  // ------------------------------------------------------------ line counts

  function Newlines(text: string, p: nat): nat
    requires p <= |text|
  {
    if p == 0 then 0 else Newlines(text, p - 1) + LineBreak(text[p - 1])
  }

  // One past the last character that a search reads.
  function ReadUpTo(pat: string, text: string, r: Outcome): int {
    if r.found then r.matchpos + |pat| else |text|
  }

  // On a line break after q characters the loop resets, and counts the break again.
  predicate CountsTwice(pat: string, q: nat)
    requires 0 < q < |pat|
  {
    Entry(pat, q - 1) != 0 && pat[q] != '\n' && pat[Entry(pat, q - 1)] != '\n'
  }

  ghost predicate CountsLines(pat: string, text: string, linum: nat)
    requires pat != []
  {
    var r := Scan(pat, text, 0, 0, linum);
    var m := ReadUpTo(pat, text, r);
    0 <= m <= |text| && r.linum == linum + Newlines(text, m)
  }

  /** The lines counted lie between the line breaks read and twice that number. Scan is taken up
      after p characters; unseen says that the break at p, if any, is not counted yet. */
  lemma {:induction false} LinesBetween(pat: string, text: string, q: nat, p: nat, linum: nat, unseen: bool)
    requires q < |pat| && q <= p <= |text| && (unseen || q == 0)
    ensures var r := Scan(pat, text, q, p, linum);
            var m := ReadUpTo(pat, text, r);
            && p <= m <= |text|
            && var seen := if unseen || p == |text| then 0 else LineBreak(text[p]);
               var breaks := Newlines(text, m) - Newlines(text, p);
               linum + breaks - seen <= r.linum <= linum + 2 * breaks - seen
    decreases |text| - p, q
  {
    if p < |text| {
      var linum' := linum + LineBreak(text[p]);
      if text[p] == pat[q] {
        if q < |pat| - 1 {
          LinesBetween(pat, text, q + 1, p + 1, linum', true);
        }
      } else if q == 0 {
        LinesBetween(pat, text, 0, p + 1, linum', true);
      } else {
        var f := Entry(pat, q - 1);
        if text[p] == pat[f] {
          LinesBetween(pat, text, f + 1, p + 1, linum', true);
        } else if f != 0 {
          LinesBetween(pat, text, 0, p, linum', false);
        } else {
          LinesBetween(pat, text, 0, p + 1, linum', true);
        }
      }
    }
  }

  // Where no reset falls on a line break, each break is counted once.
  lemma {:induction false} LinesExact(pat: string, text: string, q: nat, p: nat, linum: nat, reset: bool)
    requires forall k: nat :: 0 < k < |pat| ==> !CountsTwice(pat, k)
    requires q < |pat| && q <= p <= |text| && (reset ==> q == 0 && p < |text| && text[p] != '\n')
    ensures var r := Scan(pat, text, q, p, linum);
            var m := ReadUpTo(pat, text, r);
            p <= m <= |text| && r.linum == linum + Newlines(text, m) - Newlines(text, p)
    decreases |text| - p, q
  {
    if p < |text| {
      var linum' := linum + LineBreak(text[p]);
      if text[p] == pat[q] {
        if q < |pat| - 1 {
          LinesExact(pat, text, q + 1, p + 1, linum', false);
        }
      } else if q == 0 {
        LinesExact(pat, text, 0, p + 1, linum', false);
      } else {
        var f := Entry(pat, q - 1);
        if text[p] == pat[f] {
          LinesExact(pat, text, f + 1, p + 1, linum', false);
        } else if f != 0 {
          assert !CountsTwice(pat, q);
          LinesExact(pat, text, 0, p, linum', true);
        } else {
          LinesExact(pat, text, 0, p + 1, linum', false);
        }
      }
    }
  }

  // Reading a prefix of the pattern counts its breaks once.
  lemma {:induction false} PrefixLines(pat: string, text: string, q: nat, k: nat, linum: nat)
    requires k <= q < |pat| && q <= |text| && text[..q] == pat[..q]
    ensures Newlines(text, k) <= Newlines(text, q)
    ensures Scan(pat, text, k, k, linum) == Scan(pat, text, q, q, linum + Newlines(text, q) - Newlines(text, k))
    decreases q - k
  {
    if k < q {
      assert text[k] == text[..q][k] == pat[k];
      PrefixLines(pat, text, q, k + 1, linum + LineBreak(text[k]));
    }
  }

  // Reading the rest of the pattern finds it, and counts its breaks once.
  lemma {:induction false} ReadsRest(pat: string, text: string, k: nat, p: nat, linum: nat)
    requires k < |pat| && k <= p && p + |pat| - k == |text| && text[p..] == pat[k..]
    ensures Newlines(text, p) <= Newlines(text, |text|)
    ensures Scan(pat, text, k, p, linum)
            == Outcome(true, linum + Newlines(text, |text|) - Newlines(text, p), |text| - |pat|)
    decreases |pat| - k
  {
    assert text[p] == text[p..][0] == pat[k..][0] == pat[k];
    assert Newlines(text, p + 1) == Newlines(text, p) + LineBreak(text[p]);
    if k < |pat| - 1 {
      assert text[p + 1..] == text[p..][1..] == pat[k..][1..] == pat[k + 1..];
      ReadsRest(pat, text, k + 1, p + 1, linum + LineBreak(text[p]));
    }
  }

  // A text in which the pattern follows a line break that is counted twice.
  function LateMatch(pat: string, q: nat): string
    requires 0 < q < |pat|
  {
    pat[..q] + "\n" + if pat[0] == '\n' then pat[1..] else pat
  }

  lemma {:induction false} LateMatchMiscounted(pat: string, q: nat, linum: nat)
    requires 0 < q < |pat| && CountsTwice(pat, q)
    ensures var text := LateMatch(pat, q);
            |text| >= |pat| && Scan(pat, text, 0, 0, linum)
              == Outcome(true, linum + Newlines(text, |text|) + 1, |text| - |pat|)
  {
    var text := LateMatch(pat, q);
    var k := if pat[0] == '\n' then 1 else 0;
    assert text[..q] == pat[..q] && text[q] == '\n' && text[q + 1..] == pat[k..];
    PrefixLines(pat, text, q, 0, linum);
    var n := linum + Newlines(text, q);
    assert Scan(pat, text, q, q, n) == Scan(pat, text, 0, q, n + 1);
    assert Scan(pat, text, 0, q, n + 1) == Scan(pat, text, k, q + 1, n + 2);
    ReadsRest(pat, text, k, q + 1, n + 2);
  }

  lemma {:induction false} BreakCountedTwice(pat: string, q: nat)
    requires 0 < q < |pat| && CountsTwice(pat, q)
    ensures !CountsLines(pat, pat[..q] + "\n", 0)
  {
    var text := pat[..q] + "\n";
    assert text[..q] == pat[..q] && text[q] == '\n';
    PrefixLines(pat, text, q, 0, 0);
    var n := Newlines(text, q);
    assert Newlines(text, 0) == 0;
    assert Scan(pat, text, q, q, n) == Scan(pat, text, 0, q, n + 1);
    if pat[0] == '\n' {
      EntryIsBorder(pat, q - 1);
      if |pat| > 1 {
        assert Scan(pat, text, 0, q, n + 1) == Scan(pat, text, 1, q + 1, n + 2);
      }
    } else {
      assert Scan(pat, text, 0, q, n + 1) == Scan(pat, text, 0, q + 1, n + 2);
    }
  }

  /** Exactly when the line count is right: it is, for every text, if and only if at no prefix of
      the pattern a line break makes the loop reset. */
  lemma {:induction false} LinesIff(pat: string)
    requires pat != []
    ensures (forall text: string :: CountsLines(pat, text, 0))
            <==> (forall q: nat :: 0 < q < |pat| ==> !CountsTwice(pat, q))
  {
    if forall q: nat :: 0 < q < |pat| ==> !CountsTwice(pat, q) {
      forall text: string ensures CountsLines(pat, text, 0) {
        LinesExact(pat, text, 0, 0, 0, false);
      }
    } else {
      var q: nat :| 0 < q < |pat| && CountsTwice(pat, q);
      BreakCountedTwice(pat, q);
    }
  }

  /** The pattern aab, on the text aa followed by a line break, counts two lines. */
  lemma {:induction false} AabCountsTwo()
    ensures Scan("aab", "aa\n", 0, 0, 1).linum == 3
  {
    var pat, text := "aab", "aa\n";
    assert Entry(pat, 0) == 0 && Entry(pat, 1) == 1;
    assert Scan(pat, text, 0, 0, 1) == Scan(pat, text, 1, 1, 1) == Scan(pat, text, 2, 2, 1);
    assert Scan(pat, text, 2, 2, 1) == Scan(pat, text, 0, 2, 2) == Scan(pat, text, 0, 3, 3);
  }
}
