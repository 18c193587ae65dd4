/**
 * An abstract file system standing for Foundation's `FileManager`: the
 * foreign edge under FileManagerUtility and DownloadItem. A path is the
 * sequence of its components; every existing path maps to a file or a
 * directory. Whether an operation is permitted is an oracle: operations on a
 * path in `locked` fail, as a permission error would. Moving onto an existing
 * path fails, as `moveItem(at:to:)` does.
 */
module FileSystemModel {
  import opened Wrappers

  type Path = seq<string>

  /** A file carries an opaque content id, so that "left untouched" can be stated. */
  datatype Node = File(content: nat) | Directory

  /** `p` is `root` or lies below it. */
  predicate InSubtree(root: Path, p: Path) {
    |root| <= |p| && p[..|root|] == root
  }

  function Parent(p: Path): Path
    requires |p| > 0
  {
    p[..|p| - 1]
  }

  /** The entries left after removing `p` and everything below it. */
  function WithoutSubtree(nodes: map<Path, Node>, p: Path): map<Path, Node>
  {
    map q | q in nodes && !InSubtree(p, q) :: nodes[q]
  }

  /** The entries after moving the subtree at `from` to `to`. */
  function Relocated(nodes: map<Path, Node>, from: Path, to: Path): map<Path, Node>
  {
    WithoutSubtree(nodes, from) + Moved(nodes, from, to)
  }

  /** The entries of the subtree at `from`, re-rooted at `to`. */
  function Moved(nodes: map<Path, Node>, from: Path, to: Path): map<Path, Node>
  {
    var targets := set q | q in nodes && InSubtree(from, q) :: to + q[|from|..];
    map t | t in targets && |to| <= |t| && from + t[|to|..] in nodes :: nodes[from + t[|to|..]]
  }

  /** A path in the subtree of `root` is `root` followed by its suffix. */
  lemma SubtreeSplit(root: Path, q: Path)
    requires InSubtree(root, q)
    ensures q == root + q[|root|..]
  {
    assert q == q[..|root|] + q[|root|..];
  }

  /** The entries after creating the directory `p` and any missing ancestors. */
  function WithDirectories(nodes: map<Path, Node>, p: Path): map<Path, Node>
  {
    nodes + map k | 1 <= k <= |p| && p[..k] !in nodes :: p[..k] := Directory
  }

  /** The entry at `q` is the same in both maps (both absent, or both present and equal). */
  predicate SameAt(m1: map<Path, Node>, m2: map<Path, Node>, q: Path) {
    (q in m1 <==> q in m2) && (q in m1 ==> m1[q] == m2[q])
  }

  /** Creating `p` touches no path that is not a prefix of `p`. */
  lemma WithDirectoriesElsewhere(nodes: map<Path, Node>, p: Path, q: Path)
    requires !InSubtree(q, p)
    ensures SameAt(WithDirectories(nodes, p), nodes, q)
  {
  }

  /** Moving `from` to `to` touches nothing outside the two subtrees. */
  lemma RelocatedElsewhere(nodes: map<Path, Node>, from: Path, to: Path, q: Path)
    requires !InSubtree(from, q) && !InSubtree(to, q)
    ensures SameAt(Relocated(nodes, from, to), nodes, q)
  {
  }

  /** After a move, the target holds what the source held. */
  lemma RelocatedTarget(nodes: map<Path, Node>, from: Path, to: Path)
    requires from in nodes
    ensures to in Relocated(nodes, from, to) && Relocated(nodes, from, to)[to] == nodes[from]
  {
    assert InSubtree(from, from) && from[|from|..] == [];
    assert from + [] == from && to + [] == to;
  }

  predicate IsDirectoryIn(nodes: map<Path, Node>, p: Path) {
    p in nodes && nodes[p] == Directory
  }

  /** `removeItem` succeeds on an existing, unlocked path. */
  predicate Removable(nodes: map<Path, Node>, locked: set<Path>, p: Path) {
    p in nodes && p !in locked
  }

  /** `moveItem` succeeds when the source exists, the target does not, the target's parent is a directory and neither is locked. */
  predicate Movable(nodes: map<Path, Node>, locked: set<Path>, from: Path, to: Path) {
    && from in nodes && from !in locked
    && to !in nodes && to !in locked
    && |to| > 0 && IsDirectoryIn(nodes, Parent(to))
    && !InSubtree(from, to)
  }

  /** `createDirectory(withIntermediateDirectories: true)` succeeds unless the path is locked or one of its prefixes is a file. */
  predicate Creatable(nodes: map<Path, Node>, locked: set<Path>, p: Path) {
    && |p| > 0 && p !in locked
    && forall k :: 1 <= k <= |p| && p[..k] in nodes ==> nodes[p[..k]] == Directory
  }

  /** After a successful creation the directory is there. */
  lemma CreatedIsDirectory(nodes: map<Path, Node>, locked: set<Path>, p: Path)
    requires Creatable(nodes, locked, p)
    ensures IsDirectoryIn(WithDirectories(nodes, p), p)
  {
    assert p[..|p|] == p;
  }

  /** Creating directories never removes or changes an existing entry. */
  lemma WithDirectoriesKeeps(nodes: map<Path, Node>, p: Path, q: Path)
    requires q in nodes
    ensures q in WithDirectories(nodes, p) && WithDirectories(nodes, p)[q] == nodes[q]
  {
  }

  class FileSystem {
    var nodes: map<Path, Node>
    var locked: set<Path>

    constructor (nodes: map<Path, Node>, locked: set<Path>)
      ensures this.nodes == nodes && this.locked == locked
    {
      this.nodes := nodes;
      this.locked := locked;
    }

    predicate Exists(p: Path)
      reads this
    {
      p in nodes
    }

    predicate IsDirectory(p: Path)
      reads this
    {
      IsDirectoryIn(nodes, p)
    }

    /** `removeItem(atPath:)`: removes the entry and everything below it. */
    method RemoveItem(p: Path) returns (ok: bool)
      modifies this
      ensures ok == Removable(old(nodes), old(locked), p)
      ensures nodes == if ok then WithoutSubtree(old(nodes), p) else old(nodes)
      ensures locked == old(locked)
    {
      ok := Removable(nodes, locked, p);
      if ok {
        nodes := WithoutSubtree(nodes, p);
      }
    }

    /** `moveItem(at:to:)`: moves the entry and everything below it. */
    method MoveItem(from: Path, to: Path) returns (ok: bool)
      modifies this
      ensures ok == Movable(old(nodes), old(locked), from, to)
      ensures nodes == if ok then Relocated(old(nodes), from, to) else old(nodes)
      ensures locked == old(locked)
    {
      ok := Movable(nodes, locked, from, to);
      if ok {
        nodes := Relocated(nodes, from, to);
      }
    }

    /** `createDirectory(atPath:withIntermediateDirectories: true)`. */
    method CreateDirectory(p: Path) returns (ok: bool)
      modifies this
      ensures ok == Creatable(old(nodes), old(locked), p)
      ensures nodes == if ok then WithDirectories(old(nodes), p) else old(nodes)
      ensures locked == old(locked)
    {
      ok := Creatable(nodes, locked, p);
      if ok {
        nodes := WithDirectories(nodes, p);
      }
    }

    /** `contentsOfDirectory(atPath:)`: the names of the direct children, each once, in some order. */
    method ContentsOfDirectory(p: Path) returns (r: Option<seq<string>>)
      ensures r.Some? <==> IsDirectory(p)
      ensures r.Some? ==> forall n :: n in r.value <==> p + [n] in nodes
      ensures r.Some? ==> forall i, j :: 0 <= i < j < |r.value| ==> r.value[i] != r.value[j]
    {
      if !IsDirectory(p) {
        return None;
      }
      var pending := set q | q in nodes && |q| == |p| + 1 && q[..|p|] == p :: q[|p|];
      forall n | p + [n] in nodes
        ensures n in pending
      {
        assert (p + [n])[..|p|] == p && (p + [n])[|p|] == n;
      }
      forall q | q in nodes && |q| == |p| + 1 && q[..|p|] == p
        ensures p + [q[|p|]] in nodes
      {
        assert q == p + [q[|p|]];
      }
      var names: seq<string> := [];
      while pending != {}
        invariant forall n :: n in names || n in pending <==> p + [n] in nodes
        invariant forall n :: n in names ==> n !in pending
        invariant forall i, j :: 0 <= i < j < |names| ==> names[i] != names[j]
        decreases pending
      {
        var n :| n in pending;
        names := names + [n];
        pending := pending - {n};
      }
      r := Some(names);
    }
  }
}
