/**
 * The word tree (Dawg_v / Dawg_tree). The source links vertex objects through HashMaps; here the
 * vertices live in an arena `seq<Vertex>`, vertex 0 is the root, and a child reference is an
 * index into the arena.
 */
module Trie {
  import opened Wrappers

  /** Dawg_v: the end-of-word flag and the map from letter to child vertex. */
  datatype Vertex = Vertex(isWord: bool, children: map<char, nat>)

  /** A non-empty arena whose child references all name vertices of the arena. */
  ghost predicate WellFormed(nodes: seq<Vertex>) {
    && |nodes| > 0
    && forall k, c :: 0 <= k < |nodes| && c in nodes[k].children ==> nodes[k].children[c] < |nodes|
  }

  /** The vertex reached from vertex n by following the letters of w, if every edge exists. */
  function Walk(nodes: seq<Vertex>, n: nat, w: string): Option<nat>
    decreases |w|
  {
    if w == [] then Some(n)
    else if n < |nodes| && w[0] in nodes[n].children then Walk(nodes, nodes[n].children[w[0]], w[1..])
    else None
  }

  /** The walk from the root consumes all of w and stops on a word vertex. */
  predicate Accepts(nodes: seq<Vertex>, w: string) {
    var r := Walk(nodes, 0, w);
    r.Some? && r.value < |nodes| && nodes[r.value].isWord
  }

  /**
   * The arena is a tree whose vertex k is reached from the root by exactly the letters path[k]:
   * every edge extends its parent's path by its letter, and every path leads back to its vertex.
   */
  ghost predicate Tree(nodes: seq<Vertex>, path: seq<string>) {
    && WellFormed(nodes)
    && |path| == |nodes|
    && path[0] == []
    && (forall k, c :: 0 <= k < |nodes| && c in nodes[k].children ==>
          path[nodes[k].children[c]] == path[k] + [c])
    && (forall k :: 0 <= k < |nodes| ==> Walk(nodes, 0, path[k]) == Some(k))
  }

  /** The words stored in the tree: the paths of the vertices marked as words. */
  ghost function Stored(nodes: seq<Vertex>, path: seq<string>): set<string>
    requires |path| == |nodes|
  {
    set k | 0 <= k < |nodes| && nodes[k].isWord :: path[k]
  }

  /** Walking w from vertex n ends on the vertex whose path is path[n] + w. */
  lemma {:induction false} WalkFollowsPath(nodes: seq<Vertex>, path: seq<string>, n: nat, w: string)
    requires Tree(nodes, path) && n < |nodes| && Walk(nodes, n, w).Some?
    ensures Walk(nodes, n, w).value < |nodes|
    ensures path[Walk(nodes, n, w).value] == path[n] + w
    decreases |w|
  {
    if w == [] {
      assert path[n] + w == path[n];
    } else {
      var m := nodes[n].children[w[0]];
      WalkFollowsPath(nodes, path, m, w[1..]);
      assert path[n] + [w[0]] + w[1..] == path[n] + w;
    }
  }

  /** Against a tree, the root walk accepts exactly the stored words. */
  lemma AcceptsIffStored(nodes: seq<Vertex>, path: seq<string>, w: string)
    requires Tree(nodes, path)
    ensures Accepts(nodes, w) <==> w in Stored(nodes, path)
  {
    if Accepts(nodes, w) {
      WalkFollowsPath(nodes, path, 0, w);
      assert path[0] + w == w;
    }
    if w in Stored(nodes, path) {
      var k :| 0 <= k < |nodes| && nodes[k].isWord && path[k] == w;
      assert Walk(nodes, 0, path[k]) == Some(k);
    }
  }

  /**
   * Arena b extends arena a: every vertex of a is still there, still a word if it was one, and
   * still has each of its edges, to the same child.
   */
  ghost predicate Grows(a: seq<Vertex>, b: seq<Vertex>) {
    && |a| <= |b|
    && (forall k :: 0 <= k < |a| && a[k].isWord ==> b[k].isWord)
    && (forall k, c :: 0 <= k < |a| && c in a[k].children ==>
          c in b[k].children && b[k].children[c] == a[k].children[c])
  }

  lemma GrowsTrans(a: seq<Vertex>, b: seq<Vertex>, c: seq<Vertex>)
    requires Grows(a, b) && Grows(b, c)
    ensures Grows(a, c)
  {
  }

  /** A walk that succeeds in an arena also succeeds, to the same vertex, in any extension of it. */
  lemma {:induction false} WalkExtends(a: seq<Vertex>, b: seq<Vertex>, n: nat, w: string)
    requires Grows(a, b)
    requires Walk(a, n, w).Some?
    ensures Walk(b, n, w) == Walk(a, n, w)
    decreases |w|
  {
    if w != [] {
      WalkExtends(a, b, a[n].children[w[0]], w[1..]);
    }
  }

  /** Walking w + [c] is walking w, then one more edge. */
  lemma {:induction false} WalkSnoc(nodes: seq<Vertex>, n: nat, w: string, c: char)
    ensures Walk(nodes, n, w + [c]) ==
      match Walk(nodes, n, w)
      case None => None
      case Some(m) => if m < |nodes| && c in nodes[m].children then Some(nodes[m].children[c]) else None
    decreases |w|
  {
    if w == [] {
      assert w + [c] == [c] && [c][1..] == [];
    } else {
      assert (w + [c])[0] == w[0] && (w + [c])[1..] == w[1..] + [c];
      if n < |nodes| && w[0] in nodes[n].children {
        WalkSnoc(nodes, nodes[n].children[w[0]], w[1..], c);
      }
    }
  }

  /** `head.children.putIfAbsent(letter, new Dawg_v(false))` when letter is absent: a new leaf. */
  function AddChild(nodes: seq<Vertex>, head: nat, letter: char): (r: seq<Vertex>)
    requires head < |nodes|
  {
    nodes[head := nodes[head].(children := nodes[head].children[letter := |nodes|])] + [Vertex(false, map[])]
  }

  /** `head.isWord = true`. */
  function MarkWord(nodes: seq<Vertex>, head: nat): (r: seq<Vertex>)
    requires head < |nodes|
  {
    nodes[head := nodes[head].(isWord := true)]
  }

  /** Adding a missing edge loses no flag and no edge. */
  lemma AddChildGrows(nodes: seq<Vertex>, head: nat, letter: char)
    requires head < |nodes| && letter !in nodes[head].children
    ensures Grows(nodes, AddChild(nodes, head, letter))
  {
  }

  /** Marking a vertex loses no flag and no edge. */
  lemma MarkWordGrows(nodes: seq<Vertex>, head: nat)
    requires head < |nodes|
    ensures Grows(nodes, MarkWord(nodes, head))
  {
  }

  /**
   * Adding a missing edge keeps the arena a tree, the new leaf's path being its parent's path
   * plus the letter, and stores no new word.
   */
  lemma AddChildKeepsTree(nodes: seq<Vertex>, path: seq<string>, head: nat, letter: char)
    requires Tree(nodes, path) && head < |nodes| && letter !in nodes[head].children
    ensures Tree(AddChild(nodes, head, letter), path + [path[head] + [letter]])
    ensures Stored(AddChild(nodes, head, letter), path + [path[head] + [letter]]) == Stored(nodes, path)
  {
    AddChildPaths(nodes, path, head, letter);
    AddChildWalks(nodes, path, head, letter);
  }

  /** After adding an edge every edge still extends its parent's path by its letter. */
  lemma AddChildPaths(nodes: seq<Vertex>, path: seq<string>, head: nat, letter: char)
    requires Tree(nodes, path) && head < |nodes| && letter !in nodes[head].children
    ensures var r, p := AddChild(nodes, head, letter), path + [path[head] + [letter]];
      && WellFormed(r)
      && forall k, c :: 0 <= k < |r| && c in r[k].children ==> p[r[k].children[c]] == p[k] + [c]
  {
  }

  /** After adding an edge every vertex, the new leaf included, is reached by its path. */
  lemma AddChildWalks(nodes: seq<Vertex>, path: seq<string>, head: nat, letter: char)
    requires Tree(nodes, path) && head < |nodes| && letter !in nodes[head].children
    ensures var r, p := AddChild(nodes, head, letter), path + [path[head] + [letter]];
      forall k :: 0 <= k < |r| ==> Walk(r, 0, p[k]) == Some(k)
  {
    var r := AddChild(nodes, head, letter);
    var p := path + [path[head] + [letter]];
    AddChildGrows(nodes, head, letter);
    forall k | 0 <= k < |nodes| ensures Walk(r, 0, p[k]) == Some(k) {
      WalkExtends(nodes, r, 0, path[k]);
    }
    WalkSnoc(r, 0, path[head], letter);
    assert Walk(r, 0, p[|nodes|]) == Some(|nodes|);
  }

  /** Marking vertex head keeps the tree and adds exactly its path to the stored words. */
  lemma MarkWordStoresPath(nodes: seq<Vertex>, path: seq<string>, head: nat)
    requires Tree(nodes, path) && head < |nodes|
    ensures Tree(MarkWord(nodes, head), path)
    ensures Stored(MarkWord(nodes, head), path) == Stored(nodes, path) + {path[head]}
  {
    var r := MarkWord(nodes, head);
    MarkWordGrows(nodes, head);
    forall k | 0 <= k < |nodes| ensures Walk(r, 0, path[k]) == Some(k) {
      WalkExtends(nodes, r, 0, path[k]);
    }
  }

  /** Dawg_tree: the root of the word tree built from the dictionary's lines. */
  class DawgTree {
    var nodes: seq<Vertex>
    ghost var Path: seq<string>
    ghost var Words: set<string>

    ghost predicate Valid()
      reads this
    {
      Tree(nodes, Path) && Words == Stored(nodes, Path)
    }

    /** Dawg_tree(In): inserts every line, letter by letter. */
    constructor (lines: seq<string>)
      ensures Valid()
      ensures Words == set w | w in lines
      ensures forall w :: Accepts(nodes, w) <==> w in lines
    {
      nodes := [Vertex(false, map[])];
      Path := [[]];
      Words := {};
      new;
      assert Walk(nodes, 0, Path[0]) == Some(0);
      for i := 0 to |lines|
        invariant Valid()
        invariant Words == set w | w in lines[..i]
      {
        Insert(lines[i]);
        assert lines[..i + 1] == lines[..i] + [lines[i]];
      }
      assert lines[..|lines|] == lines;
      forall w ensures Accepts(nodes, w) <==> w in lines {
        AcceptsIffStored(nodes, Path, w);
      }
    }

    /**
     * The body of the constructor's loop for one line: walk down from the root, adding each
     * missing child, then mark the last vertex. The tree stores exactly one word more and
     * loses no flag and no edge.
     */
    method Insert(word: string)
      requires Valid()
      modifies this
      ensures Valid()
      ensures Words == old(Words) + {word}
      ensures Grows(old(nodes), nodes)
    {
      var head: nat := 0;
      for i := 0 to |word|
        invariant Valid() && Words == old(Words)
        invariant head < |nodes| && Walk(nodes, 0, word[..i]) == Some(head)
        invariant Grows(old(nodes), nodes)
      {
        var letter := word[i];
        if letter !in nodes[head].children {
          ghost var before := nodes;
          AddChildKeepsTree(nodes, Path, head, letter);
          AddChildGrows(nodes, head, letter);
          nodes, Path := AddChild(nodes, head, letter), Path + [Path[head] + [letter]];
          WalkExtends(before, nodes, 0, word[..i]);
          GrowsTrans(old(nodes), before, nodes);
        }
        WalkSnoc(nodes, 0, word[..i], letter);
        assert word[..i + 1] == word[..i] + [letter];
        head := nodes[head].children[letter];
      }
      assert word[..|word|] == word;
      WalkFollowsPath(nodes, Path, 0, word);
      assert Path[head] == word;
      MarkWordStoresPath(nodes, Path, head);
      MarkWordGrows(nodes, head);
      GrowsTrans(old(nodes), nodes, MarkWord(nodes, head));
      nodes := MarkWord(nodes, head);
      Words := Words + {word};
    }

    /** Dawg_tree.verify: false on the first missing edge, else the last vertex's flag. */
    method Verify(word: string) returns (ok: bool)
      requires Valid()
      ensures ok == Accepts(nodes, word)
      ensures ok <==> word in Words
    {
      AcceptsIffStored(nodes, Path, word);
      var head: nat := 0;
      for i := 0 to |word|
        invariant head < |nodes|
        invariant Walk(nodes, 0, word) == Walk(nodes, head, word[i..])
      {
        var letter := word[i];
        if letter !in nodes[head].children {
          return false;
        }
        assert word[i..][1..] == word[i + 1..];
        head := nodes[head].children[letter];
      }
      return nodes[head].isWord;
    }
  }
}
