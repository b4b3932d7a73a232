/** Copying a file tree so that hard links stay hard links: files that share an
    inode in the source share one in the copy, and no others do. */
module TreeCopy {
  import opened Common

  type Path = seq<string>

  /** A quiescent source. `linked` is whether the inode has more than one link. */
  datatype Tree =
    | Directory(entries: seq<Entry>)
    | File(inode: int, linked: bool, content: int)
    | Symlink(target: string)

  datatype Entry = Entry(name: string, tree: Tree)

  /** What one path of the copy is. */
  datatype Node = DirectoryNode | FileNode(inode: nat, content: int) | SymlinkNode(target: string)

  function Child(entries: seq<Entry>, name: string): Option<Tree>
    ensures Child(entries, name).Some? ==>
              exists k :: 0 <= k < |entries| && entries[k] == Entry(name, Child(entries, name).value)
  {
    if entries == [] then None
    else if entries[0].name == name then
      assert entries[0] == Entry(name, entries[0].tree);
      Some(entries[0].tree)
    else
      var rest := Child(entries[1..], name);
      assert rest.Some? ==> exists k :: 1 <= k < |entries| && entries[k] == Entry(name, rest.value) by {
        if rest.Some? {
          var k :| 0 <= k < |entries[1..]| && entries[1..][k] == Entry(name, rest.value);
          assert entries[k + 1] == Entry(name, rest.value);
        }
      }
      rest
  }

  function At(tree: Tree, path: Path): Option<Tree>
    decreases |path|
  {
    if path == [] then Some(tree)
    else if !tree.Directory? then None
    else
      var child := Child(tree.entries, path[0]);
      if child.None? then None else At(child.value, path[1..])
  }

  ghost predicate DistinctNames(tree: Tree) {
    tree.Directory? ==>
      && (forall i, j :: 0 <= i < j < |tree.entries| ==> tree.entries[i].name != tree.entries[j].name)
      && (forall i :: 0 <= i < |tree.entries| ==> DistinctNames(tree.entries[i].tree))
  }

  ghost predicate IsFile(tree: Tree, path: Path) {
    At(tree, path).Some? && At(tree, path).value.File?
  }

  /** One inode has one content and one link count, and an inode with two paths
      has more than one link. */
  ghost predicate Inodes(tree: Tree) {
    forall p, q :: IsFile(tree, p) && IsFile(tree, q) && At(tree, p).value.inode == At(tree, q).value.inode ==>
      At(tree, p) == At(tree, q) && (p != q ==> At(tree, p).value.linked)
  }

  predicate Copies(tree: Tree, node: Node) {
    match tree
    case Directory(_) => node.DirectoryNode?
    case File(_, _, content) => node.FileNode? && node.content == content
    case Symlink(target) => node == SymlinkNode(target)
  }

  lemma {:induction false} ChildAt(entries: seq<Entry>, k: nat)
    requires k < |entries| && forall i, j :: 0 <= i < j < |entries| ==> entries[i].name != entries[j].name
    ensures Child(entries, entries[k].name) == Some(entries[k].tree)
    decreases k
  {
    if k > 0 {
      assert entries[1..][k - 1] == entries[k];
      ChildAt(entries[1..], k - 1);
    }
  }

  lemma {:induction false} AtAppend(tree: Tree, p: Path, q: Path)
    ensures At(tree, p + q) == if At(tree, p).Some? then At(At(tree, p).value, q) else None
    decreases |p|
  {
    if p == [] {
      assert p + q == q;
    } else if tree.Directory? {
      var child := Child(tree.entries, p[0]);
      assert (p + q)[1..] == p[1..] + q;
      if child.Some? { AtAppend(child.value, p[1..], q); }
    }
  }

  /** A partial copy: faithful paths, and sharing exactly as in the source. */
  ghost predicate Faithful(root: Tree, nodes: map<Path, Node>, links: map<int, Path>, next: nat) {
    && (forall p :: p in nodes ==> At(root, p).Some? && Copies(At(root, p).value, nodes[p]))
    && (forall p :: p in nodes && nodes[p].FileNode? ==> nodes[p].inode < next)
    && (forall p, q :: p in nodes && q in nodes && nodes[p].FileNode? && nodes[q].FileNode? ==>
          (nodes[p].inode == nodes[q].inode <==> At(root, p).value.inode == At(root, q).value.inode))
    && (forall i :: i in links ==>
        links[i] in nodes && nodes[links[i]].FileNode? && At(root, links[i]).value.inode == i)
    && (forall p :: p in nodes && nodes[p].FileNode? && p != [] && At(root, p).value.linked ==>
        At(root, p).value.inode in links)
  }

  lemma AddPlain(root: Tree, nodes: map<Path, Node>, links: map<int, Path>, next: nat, p: Path, node: Node)
    requires Faithful(root, nodes, links, next) && p !in nodes && !node.FileNode?
    requires At(root, p).Some? && Copies(At(root, p).value, node)
    ensures Faithful(root, nodes[p := node], links, next)
  {
  }

  /** A further link to an inode that is already in the copy. */
  lemma AddLink(root: Tree, nodes: map<Path, Node>, links: map<int, Path>, next: nat, p: Path)
    requires Faithful(root, nodes, links, next) && Inodes(root) && p !in nodes
    requires IsFile(root, p) && At(root, p).value.inode in links
    ensures Faithful(root, nodes[p := nodes[links[At(root, p).value.inode]]], links, next)
  {
    var earlier := links[At(root, p).value.inode];
    assert IsFile(root, earlier);
  }

  /** The first path of an inode: nothing in the copy can share it. */
  lemma AddFirst(root: Tree, nodes: map<Path, Node>, links: map<int, Path>, next: nat, p: Path)
    requires Faithful(root, nodes, links, next) && Inodes(root) && p !in nodes && IsFile(root, p)
    requires var f := At(root, p).value; !(f.linked && f.inode in links)
    ensures var f := At(root, p).value;
      Faithful(
        root, nodes[p := FileNode(next, f.content)],
        if f.linked && p != [] then links[f.inode := p] else links, next + 1)
  {
    var f := At(root, p).value;
    forall q | q in nodes && nodes[q].FileNode? ensures At(root, q).value.inode != f.inode {
      assert IsFile(root, q);
      if q == [] { OnlyRoot(root, p); }
    }
  }

  lemma OnlyRoot(root: Tree, p: Path)
    requires IsFile(root, []) && At(root, p).Some?
    ensures p == []
  {
  }

  /** The paths strictly below `relative` whose first step is one of the first `k` names. */
  ghost predicate Below(tree: Tree, k: nat, relative: Path, q: Path)
    requires tree.Directory? && k <= |tree.entries|
  {
    relative < q && (exists i :: 0 <= i < k && tree.entries[i].name == q[|relative|]) && At(tree, q[|relative|..]).Some?
  }

  lemma BelowNext(tree: Tree, k: nat, relative: Path, q: Path)
    requires tree.Directory? && k < |tree.entries| && DistinctNames(tree)
    ensures BelowStep(tree, k, relative, q)
  {
    var child := relative + [tree.entries[k].name];
    ChildAt(tree.entries, k);
    if relative < q && q[|relative|] == tree.entries[k].name {
      assert child <= q;
      assert q[|relative|..][1..] == q[|child|..];
    }
    if child <= q { assert q[|relative|] == child[|relative|] && relative < q; }
  }

  lemma BelowAll(tree: Tree, relative: Path, q: Path)
    requires tree.Directory?
    ensures q == relative || Below(tree, |tree.entries|, relative, q) <==>
              relative <= q && At(tree, q[|relative|..]).Some?
  {
    if relative < q && At(tree, q[|relative|..]).Some? {
      var child := Child(tree.entries, q[|relative|]);
      assert child.Some?;
    }
    if q == relative { assert q[|relative|..] == []; }
  }

  lemma LeafPaths(tree: Tree, relative: Path, q: Path)
    requires !tree.Directory?
    ensures relative <= q && At(tree, q[|relative|..]).Some? <==> q == relative
  {
    if relative <= q && q[|relative|..] == [] { assert q == relative; }
  }

  class CopyOutput {
    var nodes: map<Path, Node>
    var next: nat

    constructor ()
      ensures nodes == map[] && next == 0
    {
      nodes, next := map[], 0;
    }

    /** A system call that creates one node exclusively, or fails. */
    method Make(path: Path, node: Node) returns (ok: bool)
      modifies this`nodes
      ensures ok ==> path !in old(nodes) && nodes == old(nodes)[path := node]
      ensures !ok ==> nodes == old(nodes)
    {
      if path in nodes { return false; }
      if * { return false; }
      nodes := nodes[path := node];
      ok := true;
    }

    /** Copy the subtree of `root` at `relative`. Any system call may fail; on success
        exactly its paths have been added, and the copy is still faithful. */
    method Copy(tree: Tree, relative: Path, links: map<int, Path>, ghost root: Tree)
      returns (ok: bool, updated: map<int, Path>)
      requires At(root, relative) == Some(tree) && DistinctNames(tree) && Inodes(root)
      requires Faithful(root, nodes, links, next)
      requires forall q :: q in nodes ==> !(relative <= q)
      modifies this
      ensures ok ==> Faithful(root, nodes, updated, next)
      ensures ok ==> forall q :: q in nodes <==> q in old(nodes) || (relative <= q && At(tree, q[|relative|..]).Some?)
      ensures ok ==> forall q :: q in old(nodes) ==> nodes[q] == old(nodes)[q]
      decreases tree, 2
    {
      updated := links;
      if * { return false, updated; }  // cancelled, or the source cannot be pinned
      match tree {
        case Directory(_) => ok, updated := CopyDirectory(tree, relative, links, root);
        case Symlink(target) =>
          forall q
            ensures relative <= q && At(tree, q[|relative|..]).Some? <==> q == relative
          {
            LeafPaths(tree, relative, q);
          }
          AddPlain(root, nodes, links, next, relative, SymlinkNode(target));
          ok := Make(relative, SymlinkNode(target));
        case File(_, _, _) =>
          forall q
            ensures relative <= q && At(tree, q[|relative|..]).Some? <==> q == relative
          {
            LeafPaths(tree, relative, q);
          }
          ok, updated := CopyFile(tree, relative, links, root);
      }
    }

    method CopyFile(tree: Tree, relative: Path, links: map<int, Path>, ghost root: Tree)
      returns (ok: bool, updated: map<int, Path>)
      requires tree.File? && At(root, relative) == Some(tree) && Inodes(root)
      requires Faithful(root, nodes, links, next) && relative !in nodes
      modifies this
      ensures ok ==> Faithful(root, nodes, updated, next)
      ensures ok ==> nodes.Keys == old(nodes).Keys + {relative} && nodes - {relative} == old(nodes)
    {
      updated := links;
      if tree.linked && tree.inode in links {
        // hard-link the earlier copy, found by its path in the output
        AddLink(root, nodes, links, next, relative);
        ok := Make(relative, nodes[links[tree.inode]]);
      } else {
        AddFirst(root, nodes, links, next, relative);
        ok := Make(relative, FileNode(next, tree.content));
        next := next + 1;
        if tree.linked && relative != [] { updated := links[tree.inode := relative]; }
      }
    }

    method CopyDirectory(tree: Tree, relative: Path, links: map<int, Path>, ghost root: Tree)
      returns (ok: bool, updated: map<int, Path>)
      requires tree.Directory? && At(root, relative) == Some(tree) && DistinctNames(tree) && Inodes(root)
      requires Faithful(root, nodes, links, next)
      requires forall q :: q in nodes ==> !(relative <= q)
      modifies this
      ensures ok ==> Faithful(root, nodes, updated, next)
      ensures ok ==> forall q :: q in nodes <==> q in old(nodes) || (relative <= q && At(tree, q[|relative|..]).Some?)
      ensures ok ==> forall q :: q in old(nodes) ==> nodes[q] == old(nodes)[q]
      decreases tree, 1
    {
      updated := links;
      AddPlain(root, nodes, links, next, relative, DirectoryNode);
      ok := Make(relative, DirectoryNode);
      if !ok { return; }
      var k := 0;
      while k < |tree.entries|
        invariant k <= |tree.entries| && ok
        invariant Faithful(root, nodes, updated, next)
        invariant Progress(old(nodes), nodes, tree, k, relative)
      {
        ok, updated := CopyChild(tree, k, relative, updated, root, old(nodes));
        if !ok { return; }
        k := k + 1;
      }
      Complete(old(nodes), nodes, tree, relative);
      if * { return false, updated; }  // the directory's metadata
    }

    method CopyChild(tree: Tree, k: nat, relative: Path, links: map<int, Path>, ghost root: Tree,
      ghost base: map<Path, Node>)
      returns (ok: bool, updated: map<int, Path>)
      requires tree.Directory? && k < |tree.entries| && At(root, relative) == Some(tree) && DistinctNames(tree)
               && Inodes(root)
      requires Faithful(root, nodes, links, next) && Progress(base, nodes, tree, k, relative)
      requires forall q :: q in base ==> !(relative <= q)
      modifies this
      ensures ok ==> Faithful(root, nodes, updated, next) && Progress(base, nodes, tree, k + 1, relative)
      decreases tree, 0
    {
      var child := relative + [tree.entries[k].name];
      ChildOf(root, tree, relative, k);
      forall q ensures BelowStep(tree, k, relative, q) { BelowNext(tree, k, relative, q); }
      Unvisited(base, nodes, tree, k, relative);
      ghost var before := nodes;
      ok, updated := Copy(tree.entries[k].tree, child, links, root);
      if ok { Advanced(base, before, nodes, tree, k, relative); }
    }
  }

  lemma Advanced(base: map<Path, Node>, before: map<Path, Node>, after: map<Path, Node>, tree: Tree, k: nat,
    relative: Path)
    requires tree.Directory? && k < |tree.entries| && Progress(base, before, tree, k, relative)
    requires forall q :: BelowStep(tree, k, relative, q)
    requires var child := relative + [tree.entries[k].name];
      forall q :: q in after <==> q in before || (child <= q && At(tree.entries[k].tree, q[|child|..]).Some?)
    requires forall q :: q in before ==> after[q] == before[q]
    ensures Progress(base, after, tree, k + 1, relative)
  {
    forall q ensures q in after <==> q in base || q == relative || Below(tree, k + 1, relative, q) {
      assert BelowStep(tree, k, relative, q);
    }
  }

  /** After `k` children, the copy holds what was there before, the directory and
      everything below those children. */
  ghost predicate Progress(base: map<Path, Node>, nodes: map<Path, Node>, tree: Tree, k: nat, relative: Path)
    requires tree.Directory? && k <= |tree.entries|
  {
    && (forall q :: q in nodes <==> q in base || q == relative || Below(tree, k, relative, q))
    && (forall q :: q in base ==> nodes[q] == base[q])
  }

  lemma Unvisited(base: map<Path, Node>, nodes: map<Path, Node>, tree: Tree, k: nat, relative: Path)
    requires tree.Directory? && k < |tree.entries| && Progress(base, nodes, tree, k, relative)
    requires forall q :: q in base ==> !(relative <= q)
    requires forall q :: BelowStep(tree, k, relative, q)
    ensures forall q :: q in nodes ==> !(relative + [tree.entries[k].name] <= q)
  {
    var child := relative + [tree.entries[k].name];
    forall q | q in nodes ensures !(child <= q) {
      assert BelowStep(tree, k, relative, q);
    }
  }

  lemma Complete(base: map<Path, Node>, nodes: map<Path, Node>, tree: Tree, relative: Path)
    requires tree.Directory? && Progress(base, nodes, tree, |tree.entries|, relative)
    ensures forall q :: q in nodes <==> q in base || (relative <= q && At(tree, q[|relative|..]).Some?)
  {
    forall q ensures q in nodes <==> q in base || (relative <= q && At(tree, q[|relative|..]).Some?) {
      BelowAll(tree, relative, q);
    }
  }

  ghost predicate BelowStep(tree: Tree, k: nat, relative: Path, q: Path)
    requires tree.Directory? && k < |tree.entries|
  {
    var child := relative + [tree.entries[k].name];
    && (Below(tree, k + 1, relative, q) <==>
        Below(tree, k, relative, q) || (child <= q && At(tree.entries[k].tree, q[|child|..]).Some?))
    && !(child <= q && Below(tree, k, relative, q)) && !(child <= q && q == relative)
  }

  lemma ChildOf(root: Tree, tree: Tree, relative: Path, k: nat)
    requires tree.Directory? && k < |tree.entries| && At(root, relative) == Some(tree) && DistinctNames(tree)
    ensures At(root, relative + [tree.entries[k].name]) == Some(tree.entries[k].tree)
            && DistinctNames(tree.entries[k].tree)
  {
    var name := tree.entries[k].name;
    ChildAt(tree.entries, k);
    AtAppend(root, relative, [name]);
    assert [name][1..] == [];
    assert At(tree, [name]) == At(tree.entries[k].tree, []);
  }

  /** Two files of the copy share an inode exactly when their sources do. */
  ghost predicate SameSharing(root: Tree, output: map<Path, Node>) {
    forall p, q :: p in output && q in output && output[p].FileNode? && output[q].FileNode? ==>
      IsFile(root, p) && IsFile(root, q)
      && (output[p].inode == output[q].inode <==> At(root, p).value.inode == At(root, q).value.inode)
  }

  /** A whole copy has the source's paths and contents, and the source's sharing. */
  ghost predicate CompleteCopy(root: Tree, output: map<Path, Node>) {
    && (forall p :: p in output <==> At(root, p).Some?)
    && (forall p :: p in output ==> Copies(At(root, p).value, output[p]))
    && SameSharing(root, output)
  }

  method CopyTree(root: Tree) returns (ok: bool, output: map<Path, Node>)
    requires DistinctNames(root) && Inodes(root)
    ensures ok ==> CompleteCopy(root, output)
  {
    var out := new CopyOutput();
    var links;
    var top: Path := [];
    assert forall p: Path :: top <= p && p[|top|..] == p;
    ok, links := out.Copy(root, top, map[], root);
    output := out.nodes;
  }
}
