// The circular doubly linked list (src/util.h) and the list of ropes kept in it
// (src/buffer.c, src/buffer.h).

module LinkedList {
  const TAG_DEFAULT: nat := 0
  const TAG_CONTEXT: nat := 1

  // A piece of text, and what kind it is.
  datatype Rope = Rope(pstr: string, tag: nat)

  // A list_head; rope is the entry it is embedded in, meaningless in the head of a list.
  class Link {
    const rope: Rope
    var next: Link?
    var prev: Link?

    constructor (rope: Rope)
      ensures this.rope == rope
    {
      this.rope := rope;
      next, prev := null, null;
    }
  }

  function After(k: nat, n: nat): nat
    requires k < n
  {
    if k + 1 < n then k + 1 else 0
  }

  // The links of s, in this order, form a ring in both directions.
  ghost predicate Ring(s: seq<Link>)
    reads s
  {
    && s != []
    && (forall i: nat, j: nat :: i < j < |s| ==> s[i] != s[j])
    && (forall i: nat :: i < |s| ==> s[i].next == s[After(i, |s|)])
    && (forall i: nat :: i < |s| ==> s[After(i, |s|)].prev == s[i])
  }

  method InitListHead(list: Link)
    modifies list
    ensures Ring([list])
  {
    list.next := list;
    list.prev := list;
  }

  // Neighbours in s but for the new link are neighbours in the longer list.
  lemma Inserted(s: seq<Link>, newnode: Link, k: nat, i: nat)
    requires k < |s| && i <= |s|
    ensures var t := s[..k + 1] + [newnode] + s[k + 1..];
            && t[i] == (if i <= k then s[i] else if i == k + 1 then newnode else s[i - 1])
            && t[After(i, |t|)] == (if i < k then s[i + 1] else if i == k then newnode else s[After(i - 1, |s|)])
  {
  }

  // newnode between two neighbours, the k-th link and the one after it.
  method Insert(newnode: Link, prev: Link, next: Link, ghost s: seq<Link>, ghost k: nat)
    requires Ring(s) && newnode !in s
    requires k < |s| && prev == s[k] && next == s[After(k, |s|)]
    modifies newnode, prev, next
    ensures Ring(s[..k + 1] + [newnode] + s[k + 1..])
  {
    next.prev := newnode;
    newnode.next := next;
    newnode.prev := prev;
    prev.next := newnode;
    ghost var t := s[..k + 1] + [newnode] + s[k + 1..];
    forall i: nat, j: nat | i < j < |t| ensures t[i] != t[j] {
      Inserted(s, newnode, k, i);
      Inserted(s, newnode, k, j);
    }
    forall i: nat | i < |t| ensures t[i].next == t[After(i, |t|)] && t[After(i, |t|)].prev == t[i] {
      Inserted(s, newnode, k, i);
      if i != k && i != k + 1 {
        var j := if i < k then i else i - 1;
        assert s[j].next == s[After(j, |s|)] && s[After(j, |s|)].prev == s[j];
      }
    }
  }

  method ListAdd(newnode: Link, head: Link, ghost s: seq<Link>)
    requires Ring([head] + s) && newnode !in [head] + s
    modifies newnode, [head] + s
    ensures Ring([head] + ([newnode] + s))
  {
    assert head.next == ([head] + s)[After(0, |s| + 1)];
    Insert(newnode, head, head.next, [head] + s, 0);
    assert ([head] + s)[..1] + [newnode] + ([head] + s)[1..] == [head] + ([newnode] + s);
  }

  method ListAddTail(newnode: Link, head: Link, ghost s: seq<Link>)
    requires Ring([head] + s) && newnode !in [head] + s
    modifies newnode, [head] + s
    ensures Ring([head] + (s + [newnode]))
  {
    assert After(|s|, |s| + 1) == 0;
    Insert(newnode, head.prev, head, [head] + s, |s|);
    assert ([head] + s)[..|s| + 1] + [newnode] + ([head] + s)[|s| + 1..] == [head] + (s + [newnode]);
  }

  method ListEmpty(head: Link, ghost s: seq<Link>) returns (empty: bool)
    requires Ring([head] + s)
    ensures empty <==> s == []
  {
    assert head == ([head] + s)[0] && head.next == ([head] + s)[After(0, |s| + 1)];
    empty := head.next == head;
  }

  // list_for_each_entry: the entries met on the way around.
  method ForEach(head: Link, ghost s: seq<Link>) returns (visited: seq<Link>)
    requires Ring([head] + s)
    ensures visited == s
  {
    ghost var ring := [head] + s;
    visited := [];
    var pos := head.next;
    assert pos == ring[After(0, |ring|)];
    while pos != head
      invariant |visited| <= |s| && visited == s[..|visited|]
      invariant pos == ring[After(|visited|, |ring|)]
      decreases |s| - |visited|
    {
      visited := visited + [pos];
      pos := pos.next;
    }
  }

  // ------------------------------------------------------- both directions

  ghost function StepsNext(l: Link?, k: nat, s: set<Link>): Link?
    reads s
  {
    if k == 0 || l !in s then l else StepsNext(l.next, k - 1, s)
  }

  ghost function StepsPrev(l: Link?, k: nat, s: set<Link>): Link?
    reads s
  {
    if k == 0 || l !in s then l else StepsPrev(l.prev, k - 1, s)
  }

  lemma {:induction false} AroundForward(s: seq<Link>, i: nat, k: nat)
    requires Ring(s) && i < |s| && i + k < 2 * |s|
    ensures StepsNext(s[i], k, set l | l in s) == s[if i + k < |s| then i + k else i + k - |s|]
    decreases k
  {
    if k > 0 {
      var n := After(i, |s|);
      assert s[i].next == s[n];
      AroundForward(s, n, k - 1);
    }
  }

  lemma {:induction false} AroundBack(s: seq<Link>, i: nat, k: nat)
    requires Ring(s) && i < |s| && k <= i + |s|
    ensures StepsPrev(s[i], k, set l | l in s) == s[if k <= i then i - k else i + |s| - k]
    decreases k
  {
    if k > 0 {
      var p := if i > 0 then i - 1 else |s| - 1;
      assert After(p, |s|) == i && s[i].prev == s[p];
      AroundBack(s, p, k - 1);
    }
  }

  /** From the head, k steps forward lead to the k-th entry and k steps back to the k-th from the
      end, so one traversal is the reverse of the other; both then come back to the head. */
  lemma {:induction false} BothWays(head: Link, s: seq<Link>, k: nat)
    requires Ring([head] + s) && 0 < k <= |s| + 1
    ensures StepsNext(head, k, set l | l in [head] + s) == if k <= |s| then s[k - 1] else head
    ensures StepsPrev(head, k, set l | l in [head] + s) == if k <= |s| then s[|s| - k] else head
  {
    AroundForward([head] + s, 0, k);
    AroundBack([head] + s, 0, k);
  }
}

module Ropes {
  import opened LinkedList

  // What strndup copies: at most len characters, and none from a NUL on.
  function StrNDup(content: string, len: nat): (r: string)
    requires len <= |content| || '\0' in content
    ensures |r| <= |content| && r == content[..|r|] && '\0' !in r
    ensures |r| == len || (|r| < len && |r| < |content| && content[|r|] == '\0')
    decreases len
  {
    if len == 0 || content[0] == '\0' then [] else [content[0]] + StrNDup(content[1..], len - 1)
  }

  predicate IsLeaf(r: Rope) { r.tag != TAG_DEFAULT }

  // The pieces, each on a line of its own.
  function Lines(pieces: seq<string>): string {
    if pieces == [] then "" else Lines(pieces[..|pieces| - 1]) + pieces[|pieces| - 1] + "\n"
  }

  // Where the k-th piece begins when each is followed by a line break.
  function Place(pieces: seq<string>, k: nat): nat
    requires k <= |pieces|
  {
    if k == 0 then 0 else Place(pieces, k - 1) + |pieces[k - 1]| + 1
  }

  // out is the pieces, each followed by a line break.
  ghost predicate PrintsAll(out: string, pieces: seq<string>) {
    |out| == Place(pieces, |pieces|) && forall k: nat :: k < |pieces| ==> PrintsAt(out, pieces, k)
  }

  predicate PrintsAt(out: string, pieces: seq<string>, k: nat)
    requires k < |pieces|
  {
    var at := Place(pieces, k);
    at + |pieces[k]| < |out| && out[at..at + |pieces[k]|] == pieces[k] && out[at + |pieces[k]|] == '\n'
  }

  lemma {:induction false} PlacePrefix(pieces: seq<string>, m: nat, k: nat)
    requires k <= m <= |pieces|
    ensures Place(pieces[..m], k) == Place(pieces, k)
  {
    if k > 0 { PlacePrefix(pieces, m, k - 1); }
  }

  /** The lines are the pieces in order, the k-th after |p| + 1 characters for each piece p before it,
      with a line break behind it. */
  lemma {:induction false} LinesPrintAll(pieces: seq<string>)
    ensures PrintsAll(Lines(pieces), pieces)
  {
    if pieces != [] {
      var m := |pieces| - 1;
      var front, out := Lines(pieces[..m]), Lines(pieces);
      LinesPrintAll(pieces[..m]);
      PlacePrefix(pieces, m, m);
      assert out == front + (pieces[m] + "\n");
      forall k: nat | k < |pieces| ensures PrintsAt(out, pieces, k) {
        if k < m {
          PlacePrefix(pieces, m, k);
          assert PrintsAt(front, pieces[..m], k);
          var at := Place(pieces, k);
          assert out[at..at + |pieces[k]|] == front[at..at + |pieces[k]|];
        }
      }
    }
  }

  function Texts(ropes: seq<Link>): seq<string> {
    seq(|ropes|, i requires 0 <= i < |ropes| => ropes[i].rope.pstr)
  }

  class RopeBuffer {
    const ropelist: Link
    ghost var ropes: seq<Link>

    ghost predicate Valid()
      reads this, ropelist, ropes
    {
      Ring([ropelist] + ropes) && forall i: nat :: i < |ropes| ==> ropes[i].rope.tag == TAG_CONTEXT
    }

    ghost function Contents(): seq<string>
      reads this
    {
      Texts(ropes)
    }

    constructor Init()
      ensures Valid() && Contents() == [] && fresh(ropelist)
    {
      ropelist := new Link(Rope("", TAG_DEFAULT));
      ropes := [];
      new;
      InitListHead(ropelist);
      assert [ropelist] + ropes == [ropelist];
    }

    method Write(content: string, len: nat)
      requires Valid() && (len <= |content| || '\0' in content)
      modifies this, ropelist, ropes
      ensures Valid() && |ropes| == |old(ropes)| + 1 && ropes == old(ropes) + [ropes[|old(ropes)|]]
      ensures fresh(ropes[|old(ropes)|]) && Contents() == old(Contents()) + [StrNDup(content, len)]
    {
      var pr := new Link(Rope(StrNDup(content, len), TAG_CONTEXT));
      ListAddTail(pr, ropelist, ropes);
      assert Texts(ropes + [pr]) == Texts(ropes) + [pr.rope.pstr];
      ropes := ropes + [pr];
    }

    // What is printed: one line for each leaf, and every rope written here is one.
    method BufDump() returns (out: string)
      requires Valid()
      ensures out == Lines(Contents()) && PrintsAll(out, Contents())
    {
      ghost var ring := [ropelist] + ropes;
      ghost var k := 0;
      out := [];
      var p := ropelist.next;
      assert p == ring[After(0, |ring|)];
      while p != ropelist
        invariant 0 <= k <= |ropes| && p == ring[After(k, |ring|)] && out == Lines(Contents()[..k])
        decreases |ropes| - k
      {
        assert Contents()[..k + 1][..k] == Contents()[..k];
        assert p == ropes[k] && Contents()[..k + 1][k] == p.rope.pstr;
        if IsLeaf(p.rope) {
          out := out + p.rope.pstr + "\n";
        }
        p := p.next;
        k := k + 1;
      }
      assert Contents()[..k] == Contents();
      LinesPrintAll(Contents());
    }

    // Frees the ropes; freed lists them in the order of their freeing.
    method BufDestroy() returns (freed: seq<Link>)
      requires Valid()
      ensures freed == ropes && forall i: nat, j: nat :: i < j < |freed| ==> freed[i] != freed[j]
    {
      ghost var ring := [ropelist] + ropes;
      freed := [];
      var p := ropelist.next;
      assert p == ring[After(0, |ring|)];
      var prefetch := p.next;
      while p != ropelist
        invariant |freed| <= |ropes| && freed == ropes[..|freed|]
        invariant p == ring[After(|freed|, |ring|)] && prefetch == p.next
        decreases |ropes| - |freed|
      {
        freed := freed + [p];
        p := prefetch;
        assert p !in freed by {
          assert forall i: nat :: i < |freed| ==> freed[i] == ring[i + 1];
        }
        prefetch := p.next;
      }
      forall i: nat, j: nat | i < j < |freed| ensures freed[i] != freed[j] {
        assert freed[i] == ring[i + 1] && freed[j] == ring[j + 1];
      }
    }
  }
}
