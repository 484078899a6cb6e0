// The byte trie (src/util.c, src/util.h).

module ByteTrie {
  const MAX_CHILDREN: nat := 256

  type Byte = b: nat | b < 256

  class Node {
    var isleaf: bool
    var children: seq<Node?>

    constructor ()
      ensures !isleaf && |children| == MAX_CHILDREN && forall b: Byte :: children[b] == null
    {
      isleaf, children := false, seq(MAX_CHILDREN, _ => null);
    }
  }

  // The paths of the nodes that the entries need.
  ghost function Needed(entries: set<Path>): set<Path> {
    {[]} + set e, k: nat | e in entries && k <= |e| :: e[..k]
  }

  lemma NeededMore(entries: set<Path>, t: Path)
    ensures Needed(entries + {t}) == Needed(entries) + Prefixes(t, |t|)
  {
  }

  // What a scan asks of the stored entries.
  ghost predicate HasPrefixIn(entries: set<Path>, t: Path) {
    exists k: nat :: k <= |t| && t[..k] in entries
  }

  type Path = seq<Byte>

  ghost function Prefixes(t: Path, n: nat): set<Path>
    requires n <= |t|
  {
    set k: nat | k <= n :: t[..k]
  }

  lemma PrefixesMore(ps: set<Path>, t: Path, n: nat)
    requires n < |t|
    ensures ps + Prefixes(t, n + 1) == ps + Prefixes(t, n) + {t[..n + 1]}
  {
  }

  // Each node is at the end of exactly one path of children from the root: nodes gives the node
  // at a path, kids its children.
  ghost predicate Linked(root: Node?, nodes: map<Path, Node>, kids: map<Path, seq<Node?>>) {
    && nodes.Keys == kids.Keys
    && (if root == null then nodes == map[] else [] in nodes && nodes[[]] == root)
    && (forall p :: p in kids ==> |kids[p]| == MAX_CHILDREN)
    && (forall p, b: Byte {:trigger kids[p][b]} :: p in kids && kids[p][b] != null ==> p + [b] in nodes)
    && (forall p, b: Byte {:trigger p + [b]} :: p + [b] in nodes ==> p in nodes && kids[p][b] == nodes[p + [b]])
    && (forall p, q {:trigger nodes[p], nodes[q]} :: p in nodes && q in nodes && nodes[p] == nodes[q] ==> p == q)
  }

  lemma {:induction false} LinkedMore(root: Node?, nodes: map<Path, Node>, kids: map<Path, seq<Node?>>, p: Path,
                                      b: Byte, child: Node)
    requires Linked(root, nodes, kids) && p in nodes && kids[p][b] == null && child !in nodes.Values
    ensures p + [b] !in nodes
    ensures Linked(root, nodes[p + [b] := child],
                   kids[p := kids[p][b := child]][p + [b] := seq(MAX_CHILDREN, _ => null)])
  {
    var q := p + [b];
    assert q !in nodes;
    var nodes' := nodes[q := child];
    var kids' := kids[p := kids[p][b := child]][q := seq(MAX_CHILDREN, _ => null)];
    assert root != null && q != [] && q != p;
    forall p', b': Byte | p' in kids' && kids'[p'][b'] != null ensures p' + [b'] in nodes' {
      assert p' != q;
      assert (p' == p && b' == b) || kids[p'][b'] != null;
    }
    forall p', b': Byte | p' + [b'] in nodes' ensures p' in nodes' && kids'[p'][b'] == nodes'[p' + [b']] {
      if p' + [b'] == q {
        assert (p' + [b'])[..|p'|] == p' && q[..|p|] == p && q[|p|] == b;
      } else {
        assert p' in nodes && kids[p'][b'] == nodes[p' + [b']];
        assert p' != q;
        assert p' == p ==> b' != b;
      }
    }
  }

  lemma {:induction false} PrefixesAreNodes(root: Node?, nodes: map<Path, Node>, kids: map<Path, seq<Node?>>, q: Path,
                                            k: nat)
    requires Linked(root, nodes, kids) && q in nodes && k <= |q|
    ensures q[..k] in nodes
    decreases |q|
  {
    if k < |q| {
      var p := q[..|q| - 1];
      assert q == p + [q[|q| - 1]] && p[..k] == q[..k];
      PrefixesAreNodes(root, nodes, kids, p, k);
    } else {
      assert q[..k] == q;
    }
  }

  // The root pointer, and the place of every node in the tree.
  class Trie {
    var root: Node?
    ghost var nodes: map<Path, Node>

    ghost function Kids(): map<Path, seq<Node?>>
      reads this, nodes.Values
    {
      map p | p in nodes :: nodes[p].children
    }

    ghost predicate Shape()
      reads this, nodes.Values
    {
      Linked(root, nodes, Kids())
    }

    ghost predicate Valid()
      reads this, nodes.Values
    {
      Shape() && [] !in Entries()
    }

    ghost function Entries(): set<seq<Byte>>
      reads this, nodes.Values
    {
      set p | p in nodes && nodes[p].isleaf
    }

    // The tree has no node that the entries do not need, so its shape depends on them alone.
    ghost predicate Canonical()
      reads this, nodes.Values
    {
      root != null && nodes.Keys == Needed(Entries())
    }

    constructor ()
      ensures root == null && Valid() && Entries() == {}
    {
      root, nodes := null, map[];
    }

    method Init()
      requires Valid()
      modifies this
      ensures Valid() && root != null && Entries() == old(Entries())
      ensures if old(root) == null then Canonical() else root == old(root) && nodes == old(nodes)
      ensures fresh(nodes.Values - old(nodes.Values))
    {
      if root == null {
        root := new Node();
        nodes := map[[] := root];
      }
    }

    // A node below p along b, where there is none yet.
    method AddChild(node: Node, b: Byte, ghost p: Path) returns (child: Node)
      requires Shape() && p in nodes && nodes[p] == node && node.children[b] == null
      modifies this`nodes, node`children
      ensures Shape() && fresh(child) && nodes == old(nodes)[p + [b] := child] && !child.isleaf
      ensures p + [b] !in old(nodes) && node.children[b] == child && Entries() == old(Entries())
    {
      ghost var before := Entries();
      child := new Node();
      LinkedMore(root, nodes, Kids(), p, b, child);
      ghost var kids := Kids()[p := node.children[b := child]][p + [b] := seq(MAX_CHILDREN, _ => null)];
      node.children := node.children[b := child];
      nodes := nodes[p + [b] := child];
      assert Kids() == kids by {
        assert child.children == seq(MAX_CHILDREN, _ => null);
      }
      assert forall q :: q in nodes ==> (nodes[q].isleaf <==> q in before);
    }

    lemma ChildIsNode(node: Node, t: Path, i: nat)
      requires Shape() && i < |t| && t[..i] in nodes && nodes[t[..i]] == node
      ensures |node.children| == MAX_CHILDREN
      ensures if node.children[t[i]] == null then t[..i + 1] !in nodes
              else t[..i + 1] in nodes && nodes[t[..i + 1]] == node.children[t[i]]
    {
      assert t[..i + 1] == t[..i] + [t[i]];
      assert Kids()[t[..i]] == node.children;
    }

    method MarkEntry(node: Node, ghost t: Path)
      requires Valid() && t in nodes && nodes[t] == node && t != []
      modifies node`isleaf
      ensures Valid() && Entries() == old(Entries()) + {t}
    {
      ghost var before, kids := Entries(), Kids();
      node.isleaf := true;
      assert Kids() == kids;
      assert forall p :: p in nodes ==> (nodes[p].isleaf <==> p in before || p == t);
    }

    // r is the node of the shortest entry among t[..0], ..., t[..n], or null if there is none.
    ghost predicate Scanned(r: Node?, t: Path, n: nat)
      requires n <= |t|
      reads this, nodes.Values
    {
      if r == null then forall k: nat :: k <= n ==> t[..k] !in Entries()
      else exists k: nat :: k <= n && t[..k] in Entries() && r == nodes[t[..k]]
             && forall j: nat :: j < k ==> t[..j] !in Entries()
    }

    // Where the path breaks off, nothing longer is stored.
    lemma NothingBelow(t: Path, i: nat)
      requires Shape() && i < |t| && t[..i + 1] !in nodes
      ensures forall k: nat :: i < k <= |t| ==> t[..k] !in nodes
      ensures t !in nodes && (Scanned(null, t, i) ==> Scanned(null, t, |t|))
    {
      forall k: nat | i < k <= |t| ensures t[..k] !in nodes {
        assert t[..k][..i + 1] == t[..i + 1];
        if t[..k] in nodes {
          PrefixesAreNodes(root, nodes, Kids(), t[..k], i + 1);
        }
      }
      assert t[..|t|] == t;
    }

    // The next node of a scan is the answer if it is an entry.
    lemma ScannedMore(t: Path, i: nat)
      requires Valid() && i < |t| && t[..i + 1] in nodes && Scanned(null, t, i)
      ensures var node := nodes[t[..i + 1]]; if node.isleaf then Scanned(node, t, |t|) else Scanned(null, t, i + 1)
    {
    }

    // The loop of trie_walk: the node at the end of the path or, in a scan, the first entry on it.
    method Descend(target: Path, size: nat, create: bool, scan: bool) returns (node: Node?)
      requires Valid() && root != null && 0 < size <= |target| && !(create && scan)
      modifies if create then {this} + nodes.Values else {}
      ensures Valid() && root == old(root) && Entries() == old(Entries())
      ensures forall p :: p in nodes ==> fresh(nodes[p]) || (p in old(nodes) && nodes[p] == old(nodes)[p])
      ensures create ==> nodes.Keys == old(nodes.Keys) + Prefixes(target[..size], size)
      ensures !scan ==> if node == null then !create && target[..size] !in nodes
                        else target[..size] in nodes && node == nodes[target[..size]]
      ensures scan ==> Scanned(if node != null && node.isleaf then node else null, target[..size], |target[..size]|)
    {
      ghost var t, before, was := target[..size], Entries(), nodes;
      node := root;
      var i := 0;
      while i < size
        invariant 0 <= i <= size && t[..i] in nodes && node == nodes[t[..i]]
        invariant Valid() && root == old(root) && Entries() == before
        invariant forall p :: p in nodes ==> fresh(nodes[p]) || (p in was && nodes[p] == was[p])
        invariant !create ==> nodes == was
        invariant create ==> nodes.Keys == was.Keys + Prefixes(t, i)
        invariant scan ==> Scanned(null, t, i)
      {
        var idx := target[i];
        assert t[..i + 1] == t[..i] + [idx];
        ghost var keys := nodes.Keys;
        ChildIsNode(node, t, i);
        if node.children[idx] != null {
          node := node.children[idx];
        } else if create {
          node := AddChild(node, idx, t[..i]);
        } else {
          NothingBelow(t, i);
          return null;
        }
        assert t[..i + 1] in nodes && node == nodes[t[..i + 1]];
        assert create ==> nodes.Keys == keys + {t[..i + 1]};
        PrefixesMore(was.Keys, t, i);
        if scan { ScannedMore(t, i); }
        i := i + 1;
        if scan && node.isleaf {
          return node;
        }
      }
      assert t[..i] == t;
    }

    method Walk(target: Path, size: nat, create: bool, scan: bool) returns (r: Node?)
      requires Valid() && root != null && 0 < size <= |target| && !(create && scan)
      modifies if create then {this} + nodes.Values else {}
      ensures Valid() && root == old(root) && fresh(nodes.Values - old(nodes.Values))
      ensures create ==>
                && Entries() == old(Entries()) + {target[..size]}
                && nodes.Keys == old(nodes.Keys) + Prefixes(target[..size], size)
                && (r == null <==> target[..size] in old(Entries()))
      ensures !create && !scan ==> (r == null <==> target[..size] !in Entries())
      ensures !scan && r != null ==> target[..size] in nodes && r == nodes[target[..size]]
      ensures scan ==> Scanned(r, target[..size], |target[..size]|)
    {
      var node := Descend(target, size, create, scan);
      if node == null { return null; }
      if create {
        if node.isleaf { return null; }
        MarkEntry(node, target[..size]);
      }
      return if node.isleaf then node else null;
    }

    method Insert(target: Path, size: nat) returns (r: Node?)
      requires Valid() && root != null && 0 < size <= |target|
      modifies this, nodes.Values
      ensures Valid() && root == old(root) && fresh(nodes.Values - old(nodes.Values))
      ensures Entries() == old(Entries()) + {target[..size]}
      ensures old(Canonical()) ==> Canonical()
      ensures r == null <==> target[..size] in old(Entries())
      ensures r != null ==> target[..size] in nodes && r == nodes[target[..size]]
    {
      r := Walk(target, size, true, false);
      NeededMore(old(Entries()), target[..size]);
    }

    method Lookup(target: Path, size: nat) returns (r: Node?)
      requires Valid() && root != null && 0 < size <= |target|
      ensures r != null <==> target[..size] in Entries()
      ensures r != null ==> r == nodes[target[..size]]
    {
      r := Walk(target, size, false, false);
    }

    method Scan(target: Path, size: nat) returns (r: Node?)
      requires Valid() && root != null && 0 < size <= |target|
      ensures Scanned(r, target[..size], |target[..size]|)
      ensures r != null <==> HasPrefixIn(Entries(), target[..size])
    {
      r := Walk(target, size, false, true);
    }

    // Frees the part of the tree from node on; freed lists the nodes in the order of their
    // freeing, paths where they were.
    method DestroyNode(node: Node, ghost path: Path) returns (freed: seq<Node>, ghost paths: seq<Path>)
      requires Shape() && path in nodes && nodes[path] == node
      ensures At(freed, paths) && BottomUp(paths)
      ensures forall q :: q in paths <==> q in Below(nodes.Keys, path)
      decreases Below(nodes.Keys, path)
    {
      freed, paths := [], [];
      assert Kids()[path] == node.children;
      for i := 0 to MAX_CHILDREN
        invariant At(freed, paths) && BottomUp(paths)
        invariant forall q :: q in paths <==> q in BelowFirst(nodes.Keys, path, i)
      {
        if node.children[i] != null {
          assert path + [i] in nodes;
          BelowSmaller(nodes.Keys, path, i);
          var freed', paths' := DestroyNode(node.children[i], path + [i]);
          BelowMore(nodes.Keys, path, i);
          Joined(paths, paths', nodes.Keys, path, i);
          freed, paths := freed + freed', paths + paths';
        } else {
          NoneBelow(path, i);
        }
      }
      BelowAll(nodes.Keys, path);
      Closed(paths, nodes.Keys, path);
      freed, paths := freed + [node], paths + [path];
    }

    method Destroy() returns (freed: seq<Node>)
      requires Valid() && root != null
      ensures forall i: nat, j: nat :: i < j < |freed| ==> freed[i] != freed[j]
      ensures forall n :: n in freed <==> n in nodes.Values
      ensures forall i: nat, j: nat, b: Byte ::
                i < |freed| && j < |freed| && b < |freed[j].children| && freed[j].children[b] == freed[i] ==> i < j
    {
      ghost var paths;
      freed, paths := DestroyNode(root, []);
      forall n | n in nodes.Values ensures n in freed {
        var q :| q in nodes && nodes[q] == n;
        assert q in Below(nodes.Keys, []);
        var i :| 0 <= i < |paths| && paths[i] == q;
        assert freed[i] == n;
      }
      forall i: nat, j: nat, b: Byte |
        i < |freed| && j < |freed| && b < |freed[j].children| && freed[j].children[b] == freed[i]
        ensures i < j
      {
        assert Kids()[paths[j]][b] == nodes[paths[i]];
        assert paths[i] == paths[j] + [b];
      }
    }

    ghost predicate At(freed: seq<Node>, paths: seq<Path>)
      reads this
    {
      |freed| == |paths| && forall i: nat :: i < |freed| ==> paths[i] in nodes && freed[i] == nodes[paths[i]]
    }

    lemma NoneBelow(path: Path, b: Byte)
      requires Shape() && path in nodes && nodes[path].children[b] == null
      ensures BelowFirst(nodes.Keys, path, b + 1) == BelowFirst(nodes.Keys, path, b)
    {
      assert Kids()[path] == nodes[path].children;
      forall q | q in nodes && path < q ensures q[|path|] != b {
        if q[|path|] == b {
          assert q[..|path| + 1] == path + [b];
          PrefixesAreNodes(root, nodes, Kids(), q, |path| + 1);
        }
      }
    }
  }

  // ------------------------------------------------------------- redundancy

  /** Adding an entry changes the outcome of some scan if and only if no prefix of it is stored. */
  lemma {:induction false} RedundantIff(entries: set<Path>, e: Path)
    ensures (forall t :: HasPrefixIn(entries + {e}, t) <==> HasPrefixIn(entries, t)) <==> HasPrefixIn(entries, e)
  {
    assert HasPrefixIn(entries + {e}, e) by { assert e[..|e|] == e; }
    if HasPrefixIn(entries, e) {
      forall t ensures HasPrefixIn(entries + {e}, t) <==> HasPrefixIn(entries, t) {
        if HasPrefixIn(entries + {e}, t) {
          var k: nat :| k <= |t| && t[..k] in entries + {e};
          if t[..k] == e {
            var j: nat :| j <= |e| && e[..j] in entries;
            assert t[..j] == e[..j];
          }
        }
        if HasPrefixIn(entries, t) {
          var k: nat :| k <= |t| && t[..k] in entries;
          assert t[..k] in entries + {e};
        }
      }
    }
  }

  // --------------------------------------------------------------- freeing

  // No node comes twice, or before one below it.
  ghost predicate BottomUp(paths: seq<Path>) {
    forall i: nat, j: nat :: i < j < |paths| ==> !(paths[i] <= paths[j])
  }

  ghost function Below(keys: set<Path>, path: Path): set<Path> {
    set q | q in keys && path <= q
  }

  // Those below the children before child b.
  ghost function BelowFirst(keys: set<Path>, path: Path, b: nat): set<Path> {
    set q | q in keys && path < q && q[|path|] < b
  }

  lemma BelowSmaller(keys: set<Path>, path: Path, b: Byte)
    requires path in keys
    ensures Below(keys, path + [b]) < Below(keys, path)
  {
    forall q | q in Below(keys, path + [b]) ensures q in Below(keys, path) {
      assert (path + [b])[..|path|] == path && q[..|path| + 1][..|path|] == q[..|path|];
    }
    assert path in Below(keys, path) && path !in Below(keys, path + [b]);
  }

  lemma BelowMore(keys: set<Path>, path: Path, b: Byte)
    ensures BelowFirst(keys, path, b + 1) == BelowFirst(keys, path, b) + Below(keys, path + [b])
  {
    forall q | q in keys ensures path + [b] <= q <==> path < q && q[|path|] == b {
      if path + [b] <= q {
        assert q[|path|] == (path + [b])[|path|] && forall k: nat :: k < |path| ==> q[k] == (path + [b])[k] == path[k];
      }
    }
  }

  lemma BelowAll(keys: set<Path>, path: Path)
    ensures Below(keys, path) == BelowFirst(keys, path, MAX_CHILDREN) + (if path in keys then {path} else {})
  {
    forall q | q in Below(keys, path) ensures q == path || q in BelowFirst(keys, path, MAX_CHILDREN) {
      if |q| > |path| { assert q[|path|] < 256; } else { assert q[..|path|] == q; }
    }
  }

  lemma Joined(a: seq<Path>, b: seq<Path>, keys: set<Path>, path: Path, i: Byte)
    requires BottomUp(a) && BottomUp(b)
    requires forall q :: q in a <==> q in BelowFirst(keys, path, i)
    requires forall q :: q in b <==> q in Below(keys, path + [i])
    ensures BottomUp(a + b)
  {
    forall p, q | p in a && q in b ensures !(p <= q) {
      assert p in BelowFirst(keys, path, i) && q in Below(keys, path + [i]);
      assert q[|path|] == (path + [i])[|path|] == i;
    }
    var c := a + b;
    forall j: nat, k: nat | j < k < |c| ensures !(c[j] <= c[k]) {
      if j < |a| <= k { assert c[j] in a && c[k] in b; }
    }
  }

  lemma Closed(a: seq<Path>, keys: set<Path>, path: Path)
    requires BottomUp(a)
    requires forall q :: q in a <==> q in BelowFirst(keys, path, MAX_CHILDREN)
    ensures BottomUp(a + [path])
  {
    forall p | p in a ensures !(p <= path) { assert p in BelowFirst(keys, path, MAX_CHILDREN); }
    var c := a + [path];
    forall j: nat, k: nat | j < k < |c| ensures !(c[j] <= c[k]) {
      if k == |a| { assert c[j] in a; }
    }
  }
}
