// The growing result buffer, and highlighting in place in it (src/buffer.c).

module ResultBuffer {
  const DEFAULT_SIZE: nat := 4096
  const ESC: char := '\U{1b}'
  const HILI_COLOR: string := [ESC] + "[48;5;220m" + [ESC] + "[30;22m"
  const RESET: string := [ESC] + "[0m"
  // The codes around one highlight: sizeof(HILI_COLOR) + 3.
  const CODES: nat := 23

  function Max(a: nat, b: nat): nat { if a < b then b else a }

  // ----------------------------------------------------------------- growth

  // cap, doubled until it holds need.
  function Doubled(cap: nat, need: nat): (c: nat)
    requires cap > 0
    ensures c >= need && c >= cap && (c == cap || (c < 2 * need && c >= 2 * cap))
    decreases need - cap
  {
    if cap < need then Doubled(cap + cap, need) else cap
  }

  // cap * 2^k
  function TimesPow2(cap: nat, k: nat): nat
    decreases k
  {
    if k == 0 then cap else TimesPow2(cap + cap, k - 1)
  }

  /** Growing doubles some number of times, and no more often than it has to. */
  lemma {:induction false} DoubledIsLeast(cap: nat, need: nat) returns (k: nat)
    requires cap > 0
    ensures Doubled(cap, need) == TimesPow2(cap, k)
    ensures forall j: nat :: TimesPow2(cap, j) >= need ==> j >= k
    decreases need - cap
  {
    k := 0;
    if cap < need {
      var k' := DoubledIsLeast(cap + cap, need);
      k := k' + 1;
      forall j: nat | TimesPow2(cap, j) >= need ensures j >= k {
        assert j > 0 && TimesPow2(cap, j) == TimesPow2(cap + cap, j - 1);
      }
    }
  }

  // Growing twice is growing once, to the larger size.
  lemma {:induction false} DoubledTwice(cap: nat, a: nat, b: nat)
    requires cap > 0
    ensures Doubled(Doubled(cap, a), b) == Doubled(cap, Max(a, b))
    decreases Max(a, b) - cap
  {
    if cap < a {
      DoubledTwice(cap + cap, a, b);
    } else if cap < b {
      DoubledTwice(cap + cap, a, b);
    }
  }

  // ------------------------------------------------------------ the contents

  // How much of a line is written: up to a line break or, for C strings, a NUL.
  function LineEnd(content: string, from: nat, len: nat, nul: bool): (e: nat)
    requires from <= len && from <= |content|
    ensures from <= e <= len && e <= |content|
    decreases len - from
  {
    if from == len || from == |content| || content[from] == '\n' || (nul && content[from] == '\0') then from
    else LineEnd(content, from + 1, len, nul)
  }

  // Whoever passes a line must let the search for its end stop inside it.
  ghost predicate Readable(content: string, from: nat, len: nat, nul: bool) {
    && from <= len && from <= |content|
    && (len <= |content|
        || exists k: nat :: from <= k < |content| && (content[k] == '\n' || (nul && content[k] == '\0')))
  }

  lemma {:induction false} LineEndStops(content: string, from: nat, len: nat, nul: bool)
    requires Readable(content, from, len, nul)
    ensures var e := LineEnd(content, from, len, nul);
            && (e == len || (e < |content| && (content[e] == '\n' || (nul && content[e] == '\0'))))
            && (forall k: nat :: from <= k < e ==> content[k] != '\n' && (nul ==> content[k] != '\0'))
    decreases len - from
  {
    if !(from == len || from == |content| || content[from] == '\n' || (nul && content[from] == '\0')) {
      LineEndStops(content, from + 1, len, nul);
    }
  }

  // Plain text and then a highlighted span.
  function Lit(plain: string, span: string): (r: string)
    ensures |r| == |plain| + |span| + CODES
  {
    plain + HILI_COLOR + span + RESET
  }

  // w with a highlight around the n characters at a.
  function Amended(w: string, a: nat, n: nat): (r: string)
    requires a + n <= |w|
    ensures |r| == |w| + CODES
  {
    Lit(w[..a], w[a..a + n]) + w[a + n..]
  }

  lemma AmendedParts(content: string, a: nat, b: nat, e: nat)
    requires a <= b <= e <= |content|
    ensures Amended(content[..e], a, b - a) == Lit(content[..a], content[a..b]) + content[b..e]
  {
    assert content[..e][..a] == content[..a] && content[..e][a..b] == content[a..b]
           && content[..e][b..] == content[b..e];
  }

  // Where the C string that begins at from ends: at the first NUL, or at the end of w.
  function StrEnd(w: string, from: nat): (e: nat)
    requires from <= |w|
    ensures from <= e <= |w| && (e < |w| ==> w[e] == '\0')
    ensures forall k: nat :: from <= k < e ==> w[k] != '\0'
    decreases |w| - from
  {
    if from == |w| || w[from] == '\0' then from else StrEnd(w, from + 1)
  }

  function Zeros(n: nat): string {
    seq(n, _ => '\0')
  }

  // What stands behind the moved text and its NUL.
  function Behind(w: string, z: nat): string
    requires z < |w|
  {
    "\0" + (w + Zeros(CODES))[z + CODES + 1..]
  }

  // What an amendment makes of the contents w. It moves the C string behind the span, so behind
  // a NUL it leaves what was there, under the moved text.
  function AmendedText(w: string, a: nat, n: nat): (r: string)
    requires a + n <= |w|
    ensures |r| == |w| + CODES
  {
    var z := StrEnd(w, a + n);
    if z == |w| then Amended(w, a, n)
    else Amended(w[..z], a, n) + Behind(w, z)
  }

  // From position k on there is nothing but NULs.
  predicate BlankFrom(w: string, k: nat) {
    forall j: nat :: k <= j < |w| ==> w[j] == '\0'
  }

  // Text that is left as it was by a shift over zeros is all zeros.
  lemma {:induction false} ShiftedIsBlank(w: string, k: nat)
    requires forall j: nat :: k <= j < |w| ==> w[j] == (w + Zeros(CODES))[j + CODES]
    ensures BlankFrom(w, k)
    decreases |w| - k
  {
    if k < |w| {
      ShiftedIsBlank(w, k + 1);
      assert w[k] == (w + Zeros(CODES))[k + CODES] == '\0';
    }
  }

  lemma {:induction false} BehindIff(w: string, z: nat)
    requires z < |w| && w[z] == '\0'
    ensures Behind(w, z) == w[z..] <==> BlankFrom(w, z)
  {
    var more, rest, moved := w + Zeros(CODES), w[z..], Behind(w, z);
    if moved == rest {
      forall j: nat | z + 1 <= j < |w| ensures w[j] == more[j + CODES] {
        assert rest[j - z] == moved[j - z];
      }
      ShiftedIsBlank(w, z + 1);
    }
    if BlankFrom(w, z) { BlankMoved(w, z); }
  }

  /** The amendment keeps the whole text behind the span exactly if there is none behind a NUL. */
  lemma {:induction false} AmendKeepsRestIff(w: string, a: nat, n: nat)
    requires a + n <= |w|
    ensures AmendedText(w, a, n) == Amended(w, a, n) <==> BlankFrom(w, StrEnd(w, a + n))
  {
    var z := StrEnd(w, a + n);
    if z < |w| {
      AmendedSplit(w, a, n, z);
      SameBehind(Amended(w[..z], a, n), Behind(w, z), w[z..]);
      BehindIff(w, z);
    }
  }

  lemma BlankMoved(w: string, z: nat)
    requires z < |w| && BlankFrom(w, z)
    ensures Behind(w, z) == w[z..]
  {
  }

  lemma SameBehind(front: string, x: string, y: string)
    ensures front + x == front + y <==> x == y
  {
    if front + x == front + y {
      assert x == (front + x)[|front|..] == (front + y)[|front|..] == y;
    }
  }

  lemma AmendedSplit(w: string, a: nat, n: nat, z: nat)
    requires a + n <= z <= |w|
    ensures Amended(w, a, n) == Amended(w[..z], a, n) + w[z..]
  {
    assert w[..z][..a] == w[..a] && w[..z][a..a + n] == w[a..a + n];
    assert w[a + n..] == w[..z][a + n..] + w[z..];
    Assoc(Lit(w[..a], w[a..a + n]), w[..z][a + n..], w[z..]);
  }

  /** What stood behind a NUL stays where it was, but for what the moved text and its NUL cover. */
  lemma AmendLeavesBehind(w: string, a: nat, n: nat, i: nat)
    requires a + n <= |w| && i < |w| + CODES && StrEnd(w, a + n) < |w|
    ensures var z := StrEnd(w, a + n);
            && (i == z + CODES ==> AmendedText(w, a, n)[i] == '\0')
            && (i > z + CODES ==> AmendedText(w, a, n)[i] == if i < |w| then w[i] else '\0')
  {
  }

  // The i-th character after the two moves and the two codes, where the C string behind the span ends at z.
  function AmendedChar(w: string, a: nat, n: nat, z: nat, i: nat): char
    requires a + n <= z && z + CODES <= |w| && i < |w|
  {
    if i < a || z + CODES < i then w[i]
    else if i < a + |HILI_COLOR| then HILI_COLOR[i - a]
    else if i < a + |HILI_COLOR| + n then w[i - |HILI_COLOR|]
    else if i < a + CODES + n then RESET[i - n - a - |HILI_COLOR|]
    else if i == z + CODES then '\0'
    else w[i - CODES]
  }

  lemma AmendedAt(w: string, a: nat, n: nat, z: nat, i: nat)
    requires a + n <= z && z + CODES <= |w| && i < z + CODES
    ensures Amended(w[..z], a, n)[i] == AmendedChar(w, a, n, z, i)
  {
  }

  lemma AmendedWhole(w: string, v: string, a: nat, n: nat, z: nat)
    requires a + n <= z && z + CODES <= |w| == |v|
    requires forall i: nat :: i < |v| ==> v[i] == AmendedChar(w, a, n, z, i)
    ensures v[..z + CODES] == Amended(w[..z], a, n)
  {
    var r := Amended(w[..z], a, n);
    forall i: nat | i < z + CODES ensures v[i] == r[i] {
      AmendedAt(w, a, n, z, i);
    }
  }

  // What follows the moved text in a block w whose contents end at off, when a NUL ended the move at z.
  lemma MovedOver(w: string, off: nat, z: nat)
    requires z < off && off + CODES <= |w| && forall i: nat :: off <= i < |w| ==> w[i] == '\0'
    ensures Behind(w[..off], z) == "\0" + w[z + CODES + 1..off + CODES]
  {
    assert w[..off] + Zeros(CODES) == w[..off + CODES];
  }

  lemma AmendedEnd(w: string, v: string, a: nat, n: nat, off: nat, z: nat)
    requires a + n <= z < off && off + CODES <= |w| == |v|
    requires forall i: nat :: i < |v| ==> v[i] == AmendedChar(w, a, n, z, i)
    ensures v[z + CODES..off + CODES] == "\0" + w[z + CODES + 1..off + CODES]
  {
  }

  // The block v after the amendment, over a block w whose contents end at off.
  lemma AmendedBlock(w: string, v: string, a: nat, n: nat, off: nat, z: nat)
    requires a + n <= off && off + CODES <= |w| == |v| && z == StrEnd(w[..off], a + n)
    requires forall i: nat :: off <= i < |w| ==> w[i] == '\0'
    requires forall i: nat :: i < |v| ==> v[i] == AmendedChar(w, a, n, z, i)
    ensures v[..off + CODES] == AmendedText(w[..off], a, n)
  {
    AmendedWhole(w, v, a, n, z);
    assert w[..off][..z] == w[..z];
    if z < off {
      AmendedEnd(w, v, a, n, off, z);
      MovedOver(w, off, z);
      assert v[..off + CODES] == v[..z + CODES] + v[z + CODES..off + CODES];
    }
  }

  class Buffer {
    var buf: array?<char>
    var cap: nat
    var off: nat
    ghost var demand: nat  // the largest size asked for since the buffer was set up
    ghost var copied: nat  // the characters that growing has copied since then

    ghost predicate Valid()
      reads this, buf
    {
      && buf != null && buf.Length == cap
      && off <= cap
      && (forall i: nat :: off <= i < cap ==> buf[i] == '\0')
      && off <= demand && cap == Doubled(DEFAULT_SIZE, demand)
      && copied + DEFAULT_SIZE <= cap
    }

    ghost function Contents(): string
      requires Valid()
      reads this, buf
    {
      buf[..off]
    }

    constructor ()
      ensures buf == null && cap == 0 && off == 0
    {
      buf, cap, off := null, 0, 0;
    }

    method InitBuffer()
      modifies this
      ensures Valid() && fresh(buf) && Contents() == []
      ensures cap == 4096 && demand == 0 && copied == 0
    {
      buf := new char[DEFAULT_SIZE](_ => '\0');
      cap, off, demand, copied := DEFAULT_SIZE, 0, 0, 0;
    }

    method DestroyBuffer()
      modifies this
      ensures buf == null && cap == 0 && off == 0
    {
      buf, cap, off := null, 0, 0;
    }

    // A block of newcap characters, with the contents in front and zeros behind them.
    method Realloc(newcap: nat) returns (b: array<char>)
      requires buf != null && off <= buf.Length && off <= newcap
      ensures fresh(b) && b.Length == newcap && b[..off] == buf[..off]
      ensures forall i: nat :: off <= i < newcap ==> b[i] == '\0'
    {
      var was, n := buf, off;
      b := new char[newcap](i requires 0 <= i reads was => if i < n && i < was.Length then was[i] else '\0');
    }

    method BufferGrow(len: nat)
      requires Valid()
      modifies this
      ensures Valid() && fresh(buf) && Contents() == old(Contents())
      ensures off == old(off) && cap == Doubled(old(cap), off + len)
      ensures demand == Max(old(demand), off + len)
      ensures copied == old(copied) + if off + len > old(cap) then old(cap) else 0
    {
      var newcap := cap;
      while newcap < len + off
        invariant cap <= newcap && Doubled(newcap, off + len) == Doubled(cap, off + len)
        decreases len + off - newcap
      {
        newcap := newcap + newcap;
      }
      DoubledTwice(DEFAULT_SIZE, demand, off + len);
      demand := Max(demand, off + len);
      copied := copied + if newcap == cap then 0 else cap;
      buf := Realloc(newcap);
      cap := newcap;
    }

    // Room for len more characters.
    method MakeRoom(len: nat)
      requires Valid()
      modifies this
      ensures Valid() && (buf == old(buf) || fresh(buf)) && Contents() == old(Contents())
      ensures off == old(off) && cap == Doubled(old(cap), off + len)
      ensures demand == Max(old(demand), off + len)
      ensures copied == old(copied) + if off + len > old(cap) then old(cap) else 0
    {
      if off + len > cap {
        BufferGrow(len);
      } else {
        DoubledTwice(DEFAULT_SIZE, demand, off + len);
        demand := Max(demand, off + len);
      }
    }

    // memcpy from outside the buffer
    method Put(at: nat, s: string)
      requires buf != null && at + |s| <= buf.Length
      modifies buf
      ensures forall i: nat :: i < buf.Length ==> buf[i] == if at <= i < at + |s| then s[i - at] else old(buf[i])
    {
      forall i | 0 <= i < |s| { buf[at + i] := s[i]; }
    }

    // The same, when what follows is still free; before is what stands before at.
    method PutNext(at: nat, s: string, ghost before: string) returns (end: nat)
      requires buf != null && at + |s| <= buf.Length && buf[..at] == before
      modifies buf
      ensures end == at + |s| && buf[..end] == before + s
      ensures forall i: nat :: end <= i < buf.Length ==> buf[i] == old(buf[i])
    {
      Put(at, s);
      end := at + |s|;
    }

    // A move inside the buffer.
    method Move(to: nat, from: nat, n: nat)
      requires buf != null && from <= to && to + n <= buf.Length
      modifies buf
      ensures forall i: nat :: i < buf.Length ==>
                buf[i] == if to <= i < to + n then old(buf[i - to + from]) else old(buf[i])
    {
      forall i | 0 <= i < n { buf[to + i] := buf[from + i]; }
    }

    // Where the search for a line's end stops.
    method FindLineEnd(content: string, from: nat, len: nat, nul: bool) returns (e: nat)
      requires Readable(content, from, len, nul)
      ensures e == LineEnd(content, from, len, nul)
    {
      LineEndStops(content, from, len, nul);
      e := from;
      while e < len && content[e] != '\n' && !(nul && content[e] == '\0')
        invariant e <= len && e <= |content| && LineEnd(content, e, len, nul) == LineEnd(content, from, len, nul)
      {
        e := e + 1;
      }
    }

    // Plain text and then a highlighted span.
    method PutLit(at: nat, plain: string, span: string, ghost before: string) returns (end: nat)
      requires buf != null && at + |plain| + |span| + CODES <= buf.Length && buf[..at] == before
      modifies buf
      ensures end == at + |plain| + |span| + CODES && buf[..end] == before + Lit(plain, span)
      ensures forall i: nat :: end <= i < buf.Length ==> buf[i] == old(buf[i])
    {
      ghost var s1, s2 := before + plain, before + plain + HILI_COLOR;
      var hilitoken := PutNext(at, plain, before);
      var patstart := PutNext(hilitoken, HILI_COLOR, s1);
      var hiliend := PutNext(patstart, span, s2);
      end := PutNext(hiliend, RESET, s2 + span);
      LitAfter(before, plain, span);
    }

    // Writes a line with one highlight behind what is there.
    method PutColored(content: string, off1: nat, colorlen: nat, e: nat)
      requires buf != null && off1 + colorlen <= e <= |content| && off + e + CODES <= buf.Length
      modifies buf
      ensures buf[..off + e + CODES] == old(buf[..off]) + Amended(content[..e], off1, colorlen)
      ensures forall i: nat :: off + e + CODES <= i < buf.Length ==> buf[i] == old(buf[i])
    {
      var restctnt := off1 + colorlen;
      ghost var before, lit := buf[..off], Lit(content[..off1], content[off1..restctnt]);
      var reststr := PutLit(off, content[..off1], content[off1..restctnt], before);
      var end := PutNext(reststr, content[restctnt..e], before + lit);
      AmendedParts(content, off1, restctnt, e);
      Assoc(before, lit, content[restctnt..e]);
    }

    // strcpy inside the buffer, to a place at most CODES further on.
    method StrCpyUp(to: nat, from: nat) returns (z: nat)
      requires buf != null && from <= off && to == from + CODES && off + CODES <= buf.Length
      modifies buf
      ensures from <= z <= off && z == StrEnd(old(buf[..off]), from)
      ensures forall i: nat :: i < buf.Length ==>
                buf[i] == if to <= i < z + CODES then old(buf[i - CODES])
                          else if i == z + CODES then '\0'
                          else old(buf[i])
    {
      z := from;
      while z < off && buf[z] != '\0'
        invariant from <= z <= off && StrEnd(buf[..off], z) == StrEnd(buf[..off], from)
      {
        z := z + 1;
      }
      Move(to, from, z - from);
      if z + CODES < buf.Length { buf[z + CODES] := '\0'; }
    }

    // Makes room for the two codes inside what is there, and writes them.
    method AmendAt(a: nat, n: nat)
      requires buf != null && a + n <= off && off + CODES <= buf.Length
      requires forall i: nat :: off <= i < buf.Length ==> buf[i] == '\0'
      modifies buf
      ensures buf[..off + CODES] == AmendedText(old(buf[..off]), a, n)
      ensures forall i: nat :: off + CODES <= i < buf.Length ==> buf[i] == '\0'
    {
      ghost var was := buf[..];
      assert was[..off] == buf[..off];
      PutCodes(a, n);
      AmendedBlock(was, buf[..], a, n, off, StrEnd(was[..off], a + n));
      assert buf[..][..off + CODES] == buf[..off + CODES];
    }

    // The text behind the span and then the span itself move up.
    method OpenGap(a: nat, n: nat) returns (z: nat)
      requires buf != null && a + n <= off && off + CODES <= buf.Length
      modifies buf
      ensures a + n <= z <= off && z == StrEnd(old(buf[..off]), a + n)
      ensures forall i: nat :: i < buf.Length ==>
                buf[i] == if a + n + CODES <= i < z + CODES then old(buf[i - CODES])
                          else if i == z + CODES then '\0'
                          else if a + |HILI_COLOR| <= i < a + |HILI_COLOR| + n then old(buf[i - |HILI_COLOR|])
                          else old(buf[i])
    {
      z := StrCpyUp(a + n + CODES, a + n);
      Move(a + |HILI_COLOR|, a, n);
    }

    method PutCodes(a: nat, n: nat)
      requires buf != null && a + n <= off && off + CODES <= buf.Length
      modifies buf
      ensures var z := StrEnd(old(buf[..off]), a + n);
              forall i: nat :: i < buf.Length ==> buf[i] == AmendedChar(old(buf[..]), a, n, z, i)
    {
      ghost var z := OpenGap(a, n);
      Put(a, HILI_COLOR);
      Put(a + |HILI_COLOR| + n, RESET);
    }

    method WriteBuffer(content: string) returns (n: nat)
      requires Valid()
      modifies this, buf
      ensures Valid() && (buf == old(buf) || fresh(buf))
      ensures Contents() == old(Contents()) + content && n == |content|
      ensures Growth(cap, off, copied) == AfterWrite(old(Growth(cap, off, copied)), |content|)
      ensures demand == Max(old(demand), off)
    {
      MakeRoom(|content|);
      var _ := PutNext(off, content, Contents());
      off := off + |content|;
      n := |content|;
    }

    method WritelineBuffer(content: string, len: nat) returns (n: nat)
      requires Valid() && Readable(content, 0, len, false) && len < 0x8000_0000
      modifies this, buf
      ensures Valid() && (buf == old(buf) || fresh(buf))
      ensures n == LineEnd(content, 0, len, false) && Contents() == old(Contents()) + content[..n]
      ensures n <= len && (n == len || (n < |content| && content[n] == '\n')) && '\n' !in content[..n]
      ensures cap == Doubled(old(cap), old(off) + len) && demand == Max(old(demand), old(off) + len)
    {
      MakeRoom(len);
      LineEndStops(content, 0, len, false);
      var i := FindLineEnd(content, 0, len, false);
      var _ := PutNext(off, content[..i], Contents());
      off := off + i;
      n := i;
    }

    // The same with the search for the line's end, where there is room.
    method PutColoredLine(content: string, off1: nat, colorlen: nat, len: nat) returns (n: nat)
      requires Valid() && Readable(content, off1 + colorlen, len, true)
      requires off + len + CODES <= cap && off + len + CODES <= demand
      modifies this`off, buf
      ensures Valid() && buf == old(buf)
      ensures var line := content[..LineEnd(content, off1 + colorlen, len, true)];
              Contents() == old(Contents()) + Amended(line, off1, colorlen) && n == |line| + CODES
    {
      var e := FindLineEnd(content, off1 + colorlen, len, true);
      PutColored(content, off1, colorlen, e);
      n := e + CODES;
      off := off + n;
    }

    method WritelineColorBuffer(content: string, len: nat, off1: nat, colorlen: nat) returns (n: nat)
      requires Valid() && Readable(content, off1 + colorlen, len, true) && len < 0x8000_0000
      modifies this, buf
      ensures Valid() && (buf == old(buf) || fresh(buf))
      ensures var line := content[..LineEnd(content, off1 + colorlen, len, true)];
              && Contents() == old(Contents()) + Amended(line, off1, colorlen) && n == |line| + CODES
              && off1 + colorlen <= |line| <= len
              && (|line| == len || (|line| < |content| && content[|line|] in {'\n', '\0'}))
              && forall k: nat :: off1 + colorlen <= k < |line| ==> content[k] !in {'\n', '\0'}
      ensures cap == Doubled(old(cap), old(off) + len + CODES) && demand == Max(old(demand), old(off) + len + CODES)
    {
      MakeRoom(len + CODES);
      LineEndStops(content, off1 + colorlen, len, true);
      n := PutColoredLine(content, off1, colorlen, len);
    }

    method AmendlineColorBuffer(lastlen: nat, off1: nat, colorlen: nat, cnt: nat) returns (n: nat)
      requires Valid() && lastlen <= off && off1 + cnt * CODES + colorlen <= lastlen
      modifies this, buf
      ensures Valid() && (buf == old(buf) || fresh(buf))
      ensures Contents() == AmendedText(old(Contents()), old(off) - lastlen + off1 + cnt * CODES, colorlen)
              && n == CODES
      ensures cap == Doubled(old(cap), off) && demand == Max(old(demand), off)
    {
      MakeRoom(CODES);
      var amendstart := off - lastlen + off1 + cnt * CODES;
      AmendAt(amendstart, colorlen);
      off := off + CODES;
      n := CODES;
    }
  }

  // ---------------------------------------------------------- runs of writes

  // What write_buffer keeps track of: the capacity, the length, and the characters copied.
  datatype Growth = Growth(cap: nat, off: nat, copied: nat)

  function AfterWrite(g: Growth, len: nat): Growth
    requires g.cap > 0
  {
    if g.off + len > g.cap
    then Growth(Doubled(g.cap, g.off + len), g.off + len, g.copied + g.cap)
    else Growth(g.cap, g.off + len, g.copied)
  }

  function AfterWrites(lens: seq<nat>): (g: Growth)
    ensures g.cap > 0
  {
    if lens == [] then Growth(DEFAULT_SIZE, 0, 0) else AfterWrite(AfterWrites(lens[..|lens| - 1]), lens[|lens| - 1])
  }

  function Sum(lens: seq<nat>): nat {
    if lens == [] then 0 else Sum(lens[..|lens| - 1]) + lens[|lens| - 1]
  }

  /** However the output is cut into writes, the capacity is the least doubling that holds it,
      and all the copying that growing has done is less than twice the output. */
  lemma {:induction false} RunOfWrites(lens: seq<nat>)
    ensures var g := AfterWrites(lens);
            && g.off == Sum(lens) && g.cap == Doubled(4096, Sum(lens))
            && g.copied + 4096 <= g.cap && (g.copied == 0 || g.copied < 2 * Sum(lens))
  {
    if lens != [] {
      RunOfWrites(lens[..|lens| - 1]);
      DoubledTwice(DEFAULT_SIZE, Sum(lens[..|lens| - 1]), Sum(lens));
    }
  }

  function Concat(parts: seq<string>): string {
    if parts == [] then [] else Concat(parts[..|parts| - 1]) + parts[|parts| - 1]
  }

  function Lengths(parts: seq<string>): seq<nat> {
    seq(|parts|, i requires 0 <= i < |parts| => |parts[i]|)
  }

  lemma {:induction false} ConcatLength(parts: seq<string>)
    ensures |Concat(parts)| == Sum(Lengths(parts))
  {
    if parts != [] {
      var m := |parts| - 1;
      assert Lengths(parts)[..m] == Lengths(parts[..m]);
      ConcatLength(parts[..m]);
    }
  }

  lemma NextPart(parts: seq<string>, k: nat)
    requires k < |parts|
    ensures Concat(parts[..k + 1]) == Concat(parts[..k]) + parts[k]
    ensures AfterWrites(Lengths(parts[..k + 1])) == AfterWrite(AfterWrites(Lengths(parts[..k])), |parts[k]|)
  {
    assert parts[..k + 1][..k] == parts[..k];
    assert Lengths(parts[..k + 1])[..k] == Lengths(parts[..k]);
  }

  // A buffer is set up and the output written to it, piece by piece.
  method WriteAll(b: Buffer, parts: seq<string>)
    modifies b
    ensures b.Valid() && fresh(b.buf) && b.Contents() == Concat(parts)
    ensures Growth(b.cap, b.off, b.copied) == AfterWrites(Lengths(parts))
    ensures b.cap == Doubled(4096, |Concat(parts)|)
    ensures b.copied == 0 || b.copied < 2 * |Concat(parts)|
  {
    b.InitBuffer();
    var k := 0;
    while k < |parts|
      invariant k <= |parts| && b.Valid() && fresh(b.buf) && b.Contents() == Concat(parts[..k])
      invariant Growth(b.cap, b.off, b.copied) == AfterWrites(Lengths(parts[..k]))
    {
      NextPart(parts, k);
      var _ := b.WriteBuffer(parts[k]);
      k := k + 1;
    }
    assert parts[..k] == parts;
    ConcatLength(parts);
    RunOfWrites(Lengths(parts));
  }

  // -------------------------------------------------------------- highlights

  datatype Span = Span(start: nat, len: nat)

  // The spans are in the line, behind from, in order and without overlap.
  predicate Ascending(line: string, from: nat, spans: seq<Span>)
    decreases |spans|
  {
    if spans == [] then from <= |line|
    else from <= spans[0].start && Ascending(line, spans[0].start + spans[0].len, spans[1..])
  }

  lemma {:induction false} AscendingFits(line: string, from: nat, spans: seq<Span>)
    requires Ascending(line, from, spans)
    ensures from <= |line|
    ensures spans != [] ==> spans[0].start + spans[0].len <= |line|
    decreases |spans|
  {
    if spans != [] { AscendingFits(line, spans[0].start + spans[0].len, spans[1..]); }
  }

  // The line from a position on, with each span between the codes.
  function Wrap(line: string, from: nat, spans: seq<Span>): string
    requires Ascending(line, from, spans)
    decreases |spans|
  {
    if spans == [] then line[from..]
    else
      AscendingFits(line, from, spans);
      var start, end := spans[0].start, spans[0].start + spans[0].len;
      Lit(line[from..start], line[start..end]) + Wrap(line, end, spans[1..])
  }

  lemma Assoc<T>(a: seq<T>, b: seq<T>, c: seq<T>)
    ensures a + b + c == a + (b + c)
  {
  }

  lemma LitAfter(p: string, plain: string, span: string)
    ensures Lit(p + plain, span) == p + Lit(plain, span)
  {
    Assoc(p, plain, HILI_COLOR);
    Assoc(p, plain + HILI_COLOR, span);
    Assoc(p, plain + HILI_COLOR + span, RESET);
  }

  lemma AmendedAfter(p: string, w: string, a: nat, n: nat)
    requires a + n <= |w|
    ensures Amended(p + w, |p| + a, n) == p + Amended(w, a, n)
  {
    assert (p + w)[..|p| + a] == p + w[..a];
    assert (p + w)[|p| + a..|p| + a + n] == w[a..a + n];
    assert (p + w)[|p| + a + n..] == w[a + n..];
    LitAfter(p, w[..a], w[a..a + n]);
    Assoc(p, Lit(w[..a], w[a..a + n]), w[a + n..]);
  }

  lemma WrapOne(line: string, from: nat, s: Span)
    requires from <= s.start && s.start + s.len <= |line|
    ensures Ascending(line, from, [s])
    ensures Wrap(line, from, [s]) == Lit(line[from..s.start], line[s.start..s.start + s.len]) + line[s.start + s.len..]
  {
    assert [s][1..] == [];
  }

  lemma AmendedRest(line: string, from: nat, a: nat, n: nat, k: nat)
    requires a == from + k && a + n <= |line|
    ensures Amended(line[from..], k, n) == Lit(line[from..a], line[a..a + n]) + line[a + n..]
  {
    var w := line[from..];
    assert w[..k] == line[from..a];
    assert w[k..k + n] == line[a..a + n];
    assert w[k + n..] == line[a + n..];
  }

  lemma WrapLast(line: string, from: nat, s: Span, k: nat)
    requires s.start == from + k && s.start + s.len <= |line|
    ensures Ascending(line, from, [s])
    ensures Wrap(line, from, [s]) == Amended(line[from..], k, s.len)
  {
    WrapOne(line, from, s);
    AmendedRest(line, from, s.start, s.len, k);
  }

  lemma {:induction false} WrapLength(line: string, from: nat, spans: seq<Span>)
    requires Ascending(line, from, spans)
    ensures from <= |line| && |Wrap(line, from, spans)| == |line| - from + |spans| * CODES
    decreases |spans|
  {
    AscendingFits(line, from, spans);
    if spans != [] { WrapLength(line, spans[0].start + spans[0].len, spans[1..]); }
  }

  lemma {:induction false} AscendingOneMore(line: string, from: nat, spans: seq<Span>, s: Span)
    requires Ascending(line, from, spans + [s])
    ensures Ascending(line, from, spans) && from <= s.start && s.start + s.len <= |line|
    decreases |spans|
  {
    AscendingFits(line, from, spans + [s]);
    if spans != [] {
      assert (spans + [s])[0] == spans[0] && (spans + [s])[1..] == spans[1..] + [s];
      AscendingOneMore(line, spans[0].start + spans[0].len, spans[1..], s);
    }
  }

  lemma AmendedBehind(p: string, w: string, a: nat, n: nat, a': nat) returns (r: string)
    requires a + n <= |w| && a' == |p| + a
    ensures r == Amended(w, a, n) && Amended(p + w, a', n) == p + r
  {
    r := Amended(w, a, n);
    AmendedAfter(p, w, a, n);
  }

  lemma WrapParts(line: string, from: nat, spans: seq<Span>) returns (p: string)
    requires Ascending(line, from, spans) && spans != []
    ensures var end := spans[0].start + spans[0].len;
            && end <= |line|
            && p == Lit(line[from..spans[0].start], line[spans[0].start..end])
            && |p| == end - from + CODES
            && Wrap(line, from, spans) == p + Wrap(line, end, spans[1..])
  {
    AscendingFits(line, from, spans);
    var end := spans[0].start + spans[0].len;
    p := Lit(line[from..spans[0].start], line[spans[0].start..end]);
  }

  /** A line with one more span behind the others is what the amendment makes of the line with
      the others: each earlier highlight has shifted the span by 23 characters. */
  lemma {:induction false} WrapOneMore(line: string, from: nat, spans: seq<Span>, s: Span, a: nat)
    requires Ascending(line, from, spans + [s]) && Ascending(line, from, spans)
    requires from <= s.start && s.start + s.len <= |line| && a == s.start - from + |spans| * CODES
    ensures a + s.len <= |Wrap(line, from, spans)|
    ensures Wrap(line, from, spans + [s]) == Amended(Wrap(line, from, spans), a, s.len)
    decreases |spans|
  {
    if spans == [] {
      assert spans + [s] == [s];
      WrapLast(line, from, s, a);
    } else {
      var end, rest := spans[0].start + spans[0].len, spans[1..];
      assert (spans + [s])[0] == spans[0] && (spans + [s])[1..] == rest + [s];
      AscendingOneMore(line, end, rest, s);
      var a' := a - (end - from + CODES);
      WrapOneMore(line, end, rest, s, a');
      var p := WrapParts(line, from, spans);
      var q := WrapParts(line, from, spans + [s]);
      var r := AmendedBehind(p, Wrap(line, end, rest), a', s.len, a);
      assert p == q && r == Wrap(line, end, rest + [s]);
    }
  }

  lemma {:induction false} AscendingPrefix(line: string, from: nat, spans: seq<Span>, k: nat)
    requires Ascending(line, from, spans) && k <= |spans|
    ensures Ascending(line, from, spans[..k])
    decreases |spans|
  {
    AscendingFits(line, from, spans);
    if k > 0 {
      assert spans[..k][1..] == spans[1..][..k - 1];
      AscendingPrefix(line, spans[0].start + spans[0].len, spans[1..], k - 1);
    }
  }

  lemma {:induction false} WrapNext(line: string, spans: seq<Span>, cnt: nat, a: nat)
    requires Ascending(line, 0, spans) && cnt < |spans| && a == spans[cnt].start + cnt * CODES
    ensures Ascending(line, 0, spans[..cnt]) && Ascending(line, 0, spans[..cnt + 1])
    ensures spans[cnt].start + spans[cnt].len <= |line|
    ensures a + spans[cnt].len <= |Wrap(line, 0, spans[..cnt])| == |line| + cnt * CODES
    ensures Amended(Wrap(line, 0, spans[..cnt]), a, spans[cnt].len) == Wrap(line, 0, spans[..cnt + 1])
  {
    var s, some := spans[cnt], spans[..cnt];
    AscendingPrefix(line, 0, spans, cnt + 1);
    AscendingPrefix(line, 0, spans, cnt);
    assert spans[..cnt + 1] == some + [s];
    AscendingOneMore(line, 0, some, s);
    WrapLength(line, 0, some);
    WrapOneMore(line, 0, some, s, a);
  }

  lemma {:induction false} WrapNextLength(line: string, spans: seq<Span>, cnt: nat)
    requires Ascending(line, 0, spans) && cnt < |spans|
    ensures Ascending(line, 0, spans[..cnt]) && Ascending(line, 0, spans[..cnt + 1])
    ensures |Wrap(line, 0, spans[..cnt])| == |line| + cnt * CODES
    ensures |Wrap(line, 0, spans[..cnt + 1])| == |line| + (cnt + 1) * CODES
  {
    AscendingPrefix(line, 0, spans, cnt);
    AscendingPrefix(line, 0, spans, cnt + 1);
    WrapLength(line, 0, spans[..cnt]);
    WrapLength(line, 0, spans[..cnt + 1]);
  }

  lemma {:induction false} AmendNext(before: string, line: string, spans: seq<Span>, cnt: nat, a: nat)
    requires Ascending(line, 0, spans) && cnt < |spans| && a == |before| + spans[cnt].start + cnt * CODES
    requires Ascending(line, 0, spans[..cnt]) && Ascending(line, 0, spans[..cnt + 1])
    ensures spans[cnt].start + spans[cnt].len <= |line|
    ensures a + spans[cnt].len <= |before + Wrap(line, 0, spans[..cnt])|
    ensures Amended(before + Wrap(line, 0, spans[..cnt]), a, spans[cnt].len)
         == before + Wrap(line, 0, spans[..cnt + 1])
  {
    var a', n := a - |before|, spans[cnt].len;
    WrapNext(line, spans, cnt, a');
    var w, w' := Wrap(line, 0, spans[..cnt]), Wrap(line, 0, spans[..cnt + 1]);
    var r := AmendedBehind(before, w, a', n, a);
    assert r == w';
  }

  // No NUL from position k on.
  predicate NoNulFrom(w: string, k: nat) {
    forall j: nat :: k <= j < |w| ==> w[j] != '\0'
  }

  lemma {:induction false} AscendingBehind(line: string, from: nat, spans: seq<Span>, k: nat)
    requires Ascending(line, from, spans) && k < |spans|
    ensures from <= spans[k].start
    decreases |spans|
  {
    if k > 0 { AscendingBehind(line, spans[0].start + spans[0].len, spans[1..], k - 1); }
  }

  // Behind the span to be amended the wrapped line has no NUL if the line has none behind its first span.
  lemma {:induction false} WrapNoNul(line: string, from: nat, spans: seq<Span>, cnt: nat, k: nat)
    requires Ascending(line, from, spans) && cnt < |spans| && Ascending(line, from, spans[..cnt])
    requires NoNulFrom(line, spans[0].start + spans[0].len)
    requires k == spans[cnt].start + spans[cnt].len - from + cnt * CODES
    ensures NoNulFrom(Wrap(line, from, spans[..cnt]), k)
    decreases |spans|
  {
    if cnt == 0 {
      assert Wrap(line, from, spans[..cnt]) == line[from..];
    } else {
      var end, rest := spans[0].start + spans[0].len, spans[1..];
      assert spans[..cnt][1..] == rest[..cnt - 1];
      var p := WrapParts(line, from, spans[..cnt]);
      AscendingFits(line, from, spans);
      AscendingBehind(line, end, rest, cnt - 1);
      if cnt > 1 { AscendingBehind(line, end, rest, 0); }
      WrapNoNul(line, end, rest, cnt - 1, k - |p|);
      NoNulBehind(p, Wrap(line, end, rest[..cnt - 1]), k);
    }
  }

  lemma NoNulBehind(p: string, w: string, k: nat)
    requires k >= |p| && NoNulFrom(w, k - |p|)
    ensures NoNulFrom(p + w, k)
  {
    forall j: nat | k <= j < |p + w| ensures (p + w)[j] != '\0' {
      assert (p + w)[j] == w[j - |p|];
    }
  }

  // Behind text without NUL the amendment keeps everything.
  lemma AmendedNoNul(w: string, a: nat, n: nat)
    requires a + n <= |w| && NoNulFrom(w, a + n)
    ensures AmendedText(w, a, n) == Amended(w, a, n)
  {
  }

  lemma {:induction false} AmendNextText(before: string, line: string, spans: seq<Span>, cnt: nat, a: nat)
    requires Ascending(line, 0, spans) && cnt < |spans| && a == |before| + spans[cnt].start + cnt * CODES
    requires Ascending(line, 0, spans[..cnt]) && Ascending(line, 0, spans[..cnt + 1])
    requires NoNulFrom(line, spans[0].start + spans[0].len)
    ensures spans[cnt].start + spans[cnt].len <= |line|
    ensures a + spans[cnt].len <= |before + Wrap(line, 0, spans[..cnt])|
    ensures AmendedText(before + Wrap(line, 0, spans[..cnt]), a, spans[cnt].len)
         == before + Wrap(line, 0, spans[..cnt + 1])
  {
    var n := spans[cnt].len;
    AmendNext(before, line, spans, cnt, a);
    WrapNoNul(line, 0, spans, cnt, a + n - |before|);
    NoNulBehind(before, Wrap(line, 0, spans[..cnt]), a + n);
    AmendedNoNul(before + Wrap(line, 0, spans[..cnt]), a, n);
  }

  // The part of content that is written as a line with the given highlights.
  function LineOf(content: string, len: nat, spans: seq<Span>): string
    requires spans != [] && spans[0].start + spans[0].len <= len && spans[0].start + spans[0].len <= |content|
  {
    content[..LineEnd(content, spans[0].start + spans[0].len, len, true)]
  }

  /** For text without NUL, the highlighted line is the line that writeline_buffer writes, provided
      no line break comes before the end of the first span. */
  lemma {:induction false} SameLine(content: string, len: nat, spans: seq<Span>, from: nat)
    requires spans != [] && spans[0].start + spans[0].len <= len && spans[0].start + spans[0].len <= |content|
    requires '\0' !in content && from <= spans[0].start + spans[0].len
    requires forall k: nat :: from <= k < spans[0].start + spans[0].len ==> content[k] != '\n'
    ensures LineOf(content, len, spans) == content[..LineEnd(content, from, len, false)]
    decreases len - from
  {
    var end := spans[0].start + spans[0].len;
    if from < end {
      SameLine(content, len, spans, from + 1);
    } else {
      NoNulSame(content, end, len);
    }
  }

  lemma {:induction false} NoNulSame(content: string, from: nat, len: nat)
    requires from <= len && from <= |content| && '\0' !in content
    ensures LineEnd(content, from, len, true) == LineEnd(content, from, len, false)
    decreases len - from
  {
    if !(from == len || from == |content| || content[from] == '\n') { NoNulSame(content, from + 1, len); }
  }

  // What the amendment for span cnt makes of contents that end with the line with the spans before it.
  lemma {:induction false} AmendContents(was: string, off: nat, before: string, line: string, spans: seq<Span>,
                                         cnt: nat, nll: nat, a: nat, after: string)
    requires Ascending(line, 0, spans) && cnt < |spans| && Ascending(line, 0, spans[..cnt])
    requires NoNulFrom(line, spans[0].start + spans[0].len) && off == |was|
    requires was == before + Wrap(line, 0, spans[..cnt]) && nll == |Wrap(line, 0, spans[..cnt])|
    requires a == |before| + spans[cnt].start + cnt * CODES
    requires Ascending(line, 0, spans[..cnt + 1]) && after == before + Wrap(line, 0, spans[..cnt + 1])
    ensures nll + CODES == |Wrap(line, 0, spans[..cnt + 1])|
    ensures nll <= off && spans[cnt].start + cnt * CODES + spans[cnt].len <= nll
    ensures a == off - nll + spans[cnt].start + cnt * CODES && AmendedText(was, a, spans[cnt].len) == after
  {
    WrapNextLength(line, spans, cnt);
    AmendNextText(before, line, spans, cnt, a);
  }

  // An amendment that turns the contents into after.
  method AmendTo(b: Buffer, lastlen: nat, off1: nat, colorlen: nat, cnt: nat, ghost a: nat, ghost after: string)
      returns (n: nat)
    requires b.Valid() && lastlen <= b.off && off1 + cnt * CODES + colorlen <= lastlen
    requires a == b.off - lastlen + off1 + cnt * CODES && AmendedText(b.Contents(), a, colorlen) == after
    modifies b, b.buf
    ensures b.Valid() && (b.buf == old(b.buf) || fresh(b.buf)) && b.Contents() == after && n == CODES
  {
    n := b.AmendlineColorBuffer(lastlen, off1, colorlen, cnt);
  }

  // A further match in a line that ends the buffer.
  method HighlightNext(b: Buffer, nll: nat, spans: seq<Span>, cnt: nat, ghost before: string, ghost line: string)
      returns (nll': nat)
    requires b.Valid() && Ascending(line, 0, spans) && cnt < |spans| && Ascending(line, 0, spans[..cnt])
    requires NoNulFrom(line, spans[0].start + spans[0].len)
    requires b.Contents() == before + Wrap(line, 0, spans[..cnt]) && nll == |Wrap(line, 0, spans[..cnt])|
    modifies b, b.buf
    ensures b.Valid() && (b.buf == old(b.buf) || fresh(b.buf)) && Ascending(line, 0, spans[..cnt + 1])
    ensures b.Contents() == before + Wrap(line, 0, spans[..cnt + 1]) && nll' == |Wrap(line, 0, spans[..cnt + 1])|
  {
    AscendingPrefix(line, 0, spans, cnt + 1);
    ghost var after := before + Wrap(line, 0, spans[..cnt + 1]);
    ghost var a := |before| + spans[cnt].start + cnt * CODES;
    AmendContents(b.Contents(), b.off, before, line, spans, cnt, nll, a, after);
    var more := AmendTo(b, nll, spans[cnt].start, spans[cnt].len, cnt, a, after);
    nll' := nll + more;
  }

  lemma LineNoNul(content: string, from: nat, len: nat)
    requires Readable(content, from, len, true)
    ensures NoNulFrom(content[..LineEnd(content, from, len, true)], from)
  {
    LineEndStops(content, from, len, true);
  }

  // The highlights of a line that ends the buffer, from the second on.
  method HighlightRest(b: Buffer, nll0: nat, spans: seq<Span>, ghost before: string, ghost line: string)
      returns (nll: nat)
    requires b.Valid() && spans != [] && Ascending(line, 0, spans) && Ascending(line, 0, spans[..1])
    requires NoNulFrom(line, spans[0].start + spans[0].len)
    requires b.Contents() == before + Wrap(line, 0, spans[..1]) && nll0 == |Wrap(line, 0, spans[..1])|
    modifies b, b.buf
    ensures b.Valid()
    ensures b.Contents() == before + Wrap(line, 0, spans) && nll == |Wrap(line, 0, spans)|
  {
    nll := nll0;
    var cnt := 1;
    while cnt < |spans|
      invariant 1 <= cnt <= |spans| && b.Valid() && (b.buf == old(b.buf) || fresh(b.buf))
      invariant Ascending(line, 0, spans[..cnt])
      invariant b.Contents() == before + Wrap(line, 0, spans[..cnt]) && nll == |Wrap(line, 0, spans[..cnt])|
    {
      nll := HighlightNext(b, nll, spans, cnt, before, line);
      cnt := cnt + 1;
    }
    assert spans[..cnt] == spans;
  }

  // The first highlight is the one the line is written with.
  lemma FirstHighlight(line: string, spans: seq<Span>)
    requires spans != [] && spans[0].start + spans[0].len <= |line|
    ensures Ascending(line, 0, spans[..1])
    ensures Wrap(line, 0, spans[..1]) == Amended(line, spans[0].start, spans[0].len)
  {
    assert spans[..1] == [spans[0]] && line[0..] == line;
    WrapLast(line, 0, spans[0], spans[0].start);
  }

  // The calls made for the matches of one line: the first writes the line, each further one
  // amends it, with the length so far and the number of earlier highlights.
  method HighlightLine(b: Buffer, content: string, len: nat, spans: seq<Span>) returns (nll: nat)
    requires b.Valid() && spans != [] && len < 0x8000_0000
    requires Readable(content, spans[0].start + spans[0].len, len, true)
    requires Ascending(LineOf(content, len, spans), 0, spans)
    modifies b, b.buf
    ensures b.Valid()
    ensures var line := LineOf(content, len, spans);
            b.Contents() == old(b.Contents()) + Wrap(line, 0, spans) && nll == |Wrap(line, 0, spans)|
  {
    ghost var before := b.Contents();
    ghost var line := LineOf(content, len, spans);
    nll := b.WritelineColorBuffer(content, len, spans[0].start, spans[0].len);
    FirstHighlight(line, spans);
    LineNoNul(content, spans[0].start + spans[0].len, len);
    nll := HighlightRest(b, nll, spans, before, line);
  }

  // -------------------------------------------------- what a terminal shows

  datatype Color = Standard | Palette(n: nat)

  datatype Style = Style(fg: Color, bg: Color, bold: bool)

  datatype Shown = Shown(c: char, style: Style)

  const PLAIN := Style(Standard, Standard, false)

  // Number 220 of the palette behind black characters of normal intensity.
  const LIT := Style(Palette(0), Palette(220), false)

  // What the parameters of a control sequence that ends in m ask for (section 8.3.117 of ECMA-48,
  // and 38;5;n and 48;5;n for the n-th colour of the palette).
  function Selected(ps: seq<nat>, st: Style): Style
    decreases |ps|
  {
    if ps == [] then st
    else if |ps| >= 3 && ps[0] == 38 && ps[1] == 5 then Selected(ps[3..], st.(fg := Palette(ps[2])))
    else if |ps| >= 3 && ps[0] == 48 && ps[1] == 5 then Selected(ps[3..], st.(bg := Palette(ps[2])))
    else Selected(ps[1..],
      if ps[0] == 0 then PLAIN
      else if ps[0] == 1 then st.(bold := true)
      else if ps[0] == 22 then st.(bold := false)
      else if 30 <= ps[0] <= 37 then st.(fg := Palette(ps[0] - 30))
      else if ps[0] == 39 then st.(fg := Standard)
      else if 40 <= ps[0] <= 47 then st.(bg := Palette(ps[0] - 40))
      else if ps[0] == 49 then st.(bg := Standard)
      else st)
  }

  // A control sequence, read up to its end: its parameters, and what is left.
  datatype Control = Broken | Control(ps: seq<nat>, rest: string)

  function Parameters(s: string, n: nat, ps: seq<nat>): (r: Control)
    ensures r.Control? ==> |r.rest| < |s|
    decreases |s|
  {
    if s == [] then Broken
    else if '0' <= s[0] <= '9' then Parameters(s[1..], 10 * n + (s[0] as int - '0' as int), ps)
    else if s[0] == ';' then Parameters(s[1..], 0, ps + [n])
    else if s[0] == 'm' then Control(ps + [n], s[1..])
    else Broken
  }

  // A terminal that starts with the given style: ESC [ parameters m changes it, all else is shown.
  function Render(s: string, st: Style): seq<Shown>
    decreases |s|
  {
    if s == [] then []
    else if s[0] == ESC && |s| > 1 && s[1] == '[' && Parameters(s[2..], 0, []).Control? then
      var control := Parameters(s[2..], 0, []);
      Render(control.rest, Selected(control.ps, st))
    else [Shown(s[0], st)] + Render(s[1..], st)
  }

  predicate Marked(i: nat, spans: seq<Span>) {
    exists k :: 0 <= k < |spans| && spans[k].start <= i < spans[k].start + spans[k].len
  }

  // Reading the digits of a number.
  lemma {:induction false} ReadsNumber(t: string, s: string, n: nat, ps: seq<nat>)
    requires forall i: nat :: i < |t| ==> '0' <= t[i] <= '9'
    ensures Parameters(t + s, n, ps) == Parameters(s, Number(t, n), ps)
  {
    if t == [] {
      assert t + s == s;
    } else {
      assert (t + s)[0] == t[0] && (t + s)[1..] == t[1..] + s;
      ReadsNumber(t[1..], s, 10 * n + (t[0] as int - '0' as int), ps);
    }
  }

  // The number that digits t continue n to.
  function Number(t: string, n: nat): nat
    requires forall i: nat :: i < |t| ==> '0' <= t[i] <= '9'
  {
    if t == [] then n else Number(t[1..], 10 * n + (t[0] as int - '0' as int))
  }

  // u is a parameter p and then s.
  lemma {:induction false} NextParameter(u: string, t: string, p: nat, s: string, ps: seq<nat>)
    requires forall i: nat :: i < |t| ==> '0' <= t[i] <= '9'
    requires p == Number(t, 0) && u == t + (";" + s)
    ensures Parameters(u, 0, ps) == Parameters(s, 0, ps + [p])
  {
    assert (";" + s)[1..] == s;
    ReadsNumber(t, ";" + s, 0, ps);
  }

  lemma {:induction false} LastParameter(u: string, t: string, p: nat, s: string, ps: seq<nat>)
    requires forall i: nat :: i < |t| ==> '0' <= t[i] <= '9'
    requires p == Number(t, 0) && u == t + ("m" + s)
    ensures Parameters(u, 0, ps) == Control(ps + [p], s)
  {
    assert ("m" + s)[1..] == s;
    ReadsNumber(t, "m" + s, 0, ps);
  }

  lemma TwoHundredTwenty()
    ensures Number("220", 0) == 220
  {
    assert "220"[1..] == "20" && "20"[1..] == "0";
    assert Number("0", 22) == 220 && Number("20", 2) == 220;
  }

  lemma ReadsControl(t: string, s: string, ps: seq<nat>, st: Style)
    requires Parameters(t + s, 0, []) == Control(ps, s)
    ensures Render([ESC] + "[" + t + s, st) == Render(s, Selected(ps, st))
  {
    var u := [ESC] + "[" + t + s;
    assert u[0] == ESC && u[1] == '[' && u[2..] == t + s;
  }

  lemma {:induction false} ColourParameters(s: string)
    ensures Parameters("48;5;220m" + s, 0, []) == Control([48, 5, 220], s)
  {
    TwoHundredTwenty();
    NextParameter("48;5;220m" + s, "48", 48, "5;220m" + s, []);
    NextParameter("5;220m" + s, "5", 5, "220m" + s, [] + [48]);
    LastParameter("220m" + s, "220", 220, s, [] + [48] + [5]);
    assert [] + [48] + [5] + [220] == [48, 5, 220];
  }

  lemma {:induction false} BlackParameters(s: string)
    ensures Parameters("30;22m" + s, 0, []) == Control([30, 22], s)
  {
    NextParameter("30;22m" + s, "30", 30, "22m" + s, []);
    LastParameter("22m" + s, "22", 22, s, [] + [30]);
    assert [] + [30] + [22] == [30, 22];
  }

  lemma {:induction false} ResetParameters(s: string)
    ensures Parameters("0m" + s, 0, []) == Control([0], s)
  {
    LastParameter("0m" + s, "0", 0, s, []);
    assert [] + [0] == [0];
  }

  lemma SelectedColour(st: Style)
    ensures Selected([48, 5, 220], st) == st.(bg := Palette(220))
    ensures Selected([30, 22], st) == st.(fg := Palette(0), bold := false)
    ensures Selected([0], st) == PLAIN
  {
    assert [48, 5, 220][3..] == [] && [30, 22][1..] == [22] && [22][1..] == [] && [0][1..] == [];
  }

  lemma RenderColour(s: string)
    ensures Render(HILI_COLOR + s, PLAIN) == Render(s, LIT)
  {
    var u := [ESC] + "[" + "30;22m" + s;
    var st := PLAIN.(bg := Palette(220));
    SelectedColour(PLAIN);
    SelectedColour(st);
    assert Render([ESC] + "[" + "48;5;220m" + u, PLAIN) == Render(u, st) by {
      ColourParameters(u);
      ReadsControl("48;5;220m", u, [48, 5, 220], PLAIN);
    }
    assert Render(u, st) == Render(s, LIT) by {
      BlackParameters(s);
      ReadsControl("30;22m", s, [30, 22], st);
    }
    assert HILI_COLOR + s == [ESC] + "[" + "48;5;220m" + u;
  }

  lemma RenderReset(s: string, st: Style)
    ensures Render(RESET + s, st) == Render(s, PLAIN)
  {
    SelectedColour(st);
    ResetParameters(s);
    ReadsControl("0m", s, [0], st);
    assert RESET + s == [ESC] + "[" + "0m" + s;
  }

  function Text(t: string, st: Style): seq<Shown> {
    seq(|t|, i requires 0 <= i < |t| => Shown(t[i], st))
  }

  lemma {:induction false} RenderText(t: string, s: string, st: Style)
    requires ESC !in t
    ensures Render(t + s, st) == Text(t, st) + Render(s, st)
  {
    if t == [] {
      assert t + s == s && Text(t, st) + Render(s, st) == Render(s, st);
    } else {
      assert (t + s)[0] == t[0] != ESC && (t + s)[1..] == t[1..] + s;
      RenderText(t[1..], s, st);
      assert Text(t, st) == [Shown(t[0], st)] + Text(t[1..], st);
    }
  }

  lemma {:induction false} RenderLit(plain: string, span: string, rest: string)
    requires ESC !in plain && ESC !in span
    ensures Render(Lit(plain, span) + rest, PLAIN) == Text(plain, PLAIN) + (Text(span, LIT) + Render(rest, PLAIN))
  {
    var marked := span + (RESET + rest);
    RenderReset(rest, LIT);
    RenderText(span, RESET + rest, LIT);
    RenderColour(marked);
    RenderText(plain, HILI_COLOR + marked, PLAIN);
    Assoc(plain + HILI_COLOR + span, RESET, rest);
    Assoc(plain + HILI_COLOR, span, RESET + rest);
    Assoc(plain, HILI_COLOR, marked);
  }

  // The line from a position on, lit in the spans and plain elsewhere.
  function Wanted(line: string, from: nat, spans: seq<Span>): seq<Shown>
    requires from <= |line|
  {
    seq(|line| - from, i requires 0 <= i < |line| - from =>
      Shown(line[from + i], if Marked(from + i, spans) then LIT else PLAIN))
  }

  lemma {:induction false} MarkedBehind(line: string, from: nat, spans: seq<Span>, i: nat)
    requires Ascending(line, from, spans) && i < from
    ensures !Marked(i, spans)
    decreases |spans|
  {
    if spans != [] {
      MarkedBehind(line, spans[0].start + spans[0].len, spans[1..], i);
      forall k | 0 <= k < |spans| ensures !(spans[k].start <= i < spans[k].start + spans[k].len) {
        assert k > 0 ==> spans[k] == spans[1..][k - 1];
      }
    }
  }

  lemma MarkedFirst(spans: seq<Span>, i: nat)
    requires spans != []
    ensures Marked(i, spans) <==> spans[0].start <= i < spans[0].start + spans[0].len || Marked(i, spans[1..])
  {
    if Marked(i, spans) {
      var k :| 0 <= k < |spans| && spans[k].start <= i < spans[k].start + spans[k].len;
      assert k > 0 ==> spans[k] == spans[1..][k - 1];
    }
    if Marked(i, spans[1..]) {
      var k :| 0 <= k < |spans[1..]| && spans[1..][k].start <= i < spans[1..][k].start + spans[1..][k].len;
      assert spans[k + 1] == spans[1..][k];
    }
  }

  lemma TextIsWanted(line: string, from: nat)
    requires from <= |line|
    ensures Text(line[from..], PLAIN) + [] == Wanted(line, from, [])
  {
    forall i: nat | i < |line| - from ensures Text(line[from..], PLAIN)[i] == Wanted(line, from, [])[i] {
      assert !Marked(from + i, []);
    }
  }

  lemma {:induction false} WantedSplit(line: string, from: nat, spans: seq<Span>)
    requires Ascending(line, from, spans) && spans != []
    requires spans[0].start + spans[0].len <= |line|
    ensures var start, end := spans[0].start, spans[0].start + spans[0].len;
            Wanted(line, from, spans)
              == Text(line[from..start], PLAIN) + (Text(line[start..end], LIT) + Wanted(line, end, spans[1..]))
  {
    var start, end := spans[0].start, spans[0].start + spans[0].len;
    forall i: nat | from <= i < |line|
      ensures Marked(i, spans) <==> (start <= i < end || (end <= i && Marked(i, spans[1..])))
    {
      MarkedFirst(spans, i);
      if i < end { MarkedBehind(line, end, spans[1..], i); }
    }
  }

  lemma {:induction false} WrapRenders(line: string, from: nat, spans: seq<Span>)
    requires Ascending(line, from, spans) && ESC !in line
    ensures from <= |line| && Render(Wrap(line, from, spans), PLAIN) == Wanted(line, from, spans)
    decreases |spans|
  {
    AscendingFits(line, from, spans);
    if spans == [] {
      RenderText(line[from..], [], PLAIN);
      assert line[from..] + [] == line[from..];
      TextIsWanted(line, from);
    } else {
      var start, end := spans[0].start, spans[0].start + spans[0].len;
      var rest := Wrap(line, end, spans[1..]);
      WrapRenders(line, end, spans[1..]);
      RenderLit(line[from..start], line[start..end], rest);
      WantedSplit(line, from, spans);
    }
  }

  /** Shown on a terminal, a highlighted line is the line itself, black on number 220 of the palette
      in the given spans and in the standard colours everywhere else. In particular, without the
      codes it is the line. */
  lemma {:induction false} WrapShowsSpans(line: string, spans: seq<Span>)
    requires Ascending(line, 0, spans) && ESC !in line
    ensures var shown := Render(Wrap(line, 0, spans), Style(Standard, Standard, false));
            && |shown| == |line|
            && forall i: nat :: i < |line| ==>
                 && shown[i].c == line[i]
                 && shown[i].style == if Marked(i, spans) then Style(Palette(0), Palette(220), false)
                                      else Style(Standard, Standard, false)
  {
    WrapRenders(line, 0, spans);
  }
}
