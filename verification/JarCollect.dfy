/** `_collect` as a loop over os.walk's stack, pruning by recorded ancestors, refined to JarWalk.Walk. */
module JarCollect {
  import opened Options
  import opened Names
  import opened JarWalk

  datatype Collected = NotADirectory | Files(entries: seq<Entry>)

  function Dirname(p: Path): Path {
    if p == [] then [] else p[..|p| - 1]
  }

  /** The upward loop meets the key at an ancestor, before it runs out of recorded ancestors. */
  ghost predicate MeetsItself(root: Path, key: Id, keys: map<Path, Id>) {
    if root == [] then [] in keys && keys[[]] == key
    else exists j | 0 <= j < |root| :: Recorded(root, j, keys) && keys[root[..j]] == key
  }

  /** Every ancestor of root from depth j down has been recorded. */
  ghost predicate Recorded(root: Path, j: nat, keys: map<Path, Id>) {
    forall i | j <= i < |root| :: root[..i] in keys
  }

  /** `_contains_itself`. */
  method ContainsItself(root: Path, key: Id, keysByPath: map<Path, Id>) returns (found: bool)
    ensures found <==> MeetsItself(root, key, keysByPath)
  {
    var parent := Dirname(root);
    while parent in keysByPath
      invariant |parent| <= |root| && parent == root[..|parent|]
      invariant root == [] <==> |parent| == |root|
      invariant forall i | |parent| < i < |root| :: root[..i] in keysByPath && keysByPath[root[..i]] != key
      decreases |parent|
    {
      if keysByPath[parent] == key {
        assert root != [] ==> Recorded(root, |parent|, keysByPath);
        return true;
      }
      var grandparent := Dirname(parent);
      if grandparent == parent {
        break;
      }
      parent := grandparent;
    }
    if root != [] {
      forall j | 0 <= j < |root| && Recorded(root, j, keysByPath)
        ensures keysByPath[root[..j]] != key
      {
        if j <= |parent| {
          assert root[..|parent|] in keysByPath;
        }
      }
    }
    return false;
  }

  /** p is the source directory or a path below it along kept names. */
  predicate InTree(fs: FileSystem, src: Path, d: Id, p: Path) {
    src <= p && Walkable(fs, d, p[|src|..])
  }

  /** What `os.stat` finds at p. */
  function Stat(fs: FileSystem, src: Path, d: Id, p: Path): (e: Id)
    requires InTree(fs, src, d, p)
    ensures e in fs
  {
    Ident(fs, d, p[|src|..])
  }

  /** The identities of the ancestors of p, from the source directory down. */
  ghost function Above(fs: FileSystem, src: Path, d: Id, p: Path): set<Id>
    requires InTree(fs, src, d, p)
  {
    var rel := p[|src|..];
    set x | x in Trail(fs, d, rel)[..|rel|]
  }

  /** The visits that start from p. */
  ghost function Below(fs: FileSystem, src: Path, d: Id, p: Path): seq<Visit>
    requires ValidFs(fs) && InTree(fs, src, d, p)
  {
    Walk(fs, p[|src|..], Stat(fs, src, d, p), Above(fs, src, d, p))
  }

  ghost predicate OnStack(fs: FileSystem, src: Path, d: Id, stack: seq<Path>) {
    forall p | p in stack :: InTree(fs, src, d, p)
  }

  /** What is still to be visited, the top of the stack first. */
  ghost function Ahead(fs: FileSystem, src: Path, d: Id, stack: seq<Path>): seq<Visit>
    requires ValidFs(fs) && OnStack(fs, src, d, stack)
  {
    if stack == [] then []
    else
      assert forall p | p in stack[..|stack| - 1] :: p in stack;
      Below(fs, src, d, stack[|stack| - 1]) + Ahead(fs, src, d, stack[..|stack| - 1])
  }

  /** Every ancestor of p within the tree has been recorded. */
  ghost predicate Ancestry(src: Path, p: Path, keys: map<Path, Id>) {
    forall i | |src| <= i < |p| :: p[..i] in keys
  }

  /** What the walk has recorded: identities of paths in the tree, with every ancestor of a stacked path. */
  ghost predicate Recording(fs: FileSystem, src: Path, d: Id, stack: seq<Path>, keys: map<Path, Id>) {
    && (forall q | q in keys :: InTree(fs, src, d, q) && keys[q] == Stat(fs, src, d, q))
    && (forall p | p in stack :: Ancestry(src, p, keys))
  }

  lemma {:induction false} TrailAt(fs: FileSystem, d: Id, rel: Path, i: nat)
    requires Walkable(fs, d, rel) && i <= |rel|
    ensures Walkable(fs, d, rel[..i]) && Trail(fs, d, rel)[i] == Ident(fs, d, rel[..i])
    decreases rel
  {
    hide Kept;
    if i > 0 {
      TrailAt(fs, fs[d].target[rel[0]], rel[1..], i - 1);
      assert rel[..i][1..] == rel[1..][..i - 1];
    }
  }

  /** Below a source directory other than the file system root, the upward loop finds exactly the ancestors. */
  lemma MeetsAncestor(fs: FileSystem, src: Path, d: Id, root: Path, keys: map<Path, Id>)
    requires src != [] && InTree(fs, src, d, root)
    requires Recording(fs, src, d, [root], keys)
    ensures MeetsItself(root, Stat(fs, src, d, root), keys) <==> Stat(fs, src, d, root) in Above(fs, src, d, root)
  {
    hide Kept;
    hide Walkable;
    hide Trail;
    hide Ident;
    var rel := root[|src|..];
    var key, trail := Ident(fs, d, rel), Trail(fs, d, rel);
    assert root in [root];
    forall i | 0 <= i < |rel|
      ensures root[..|src| + i] in keys && keys[root[..|src| + i]] == trail[i]
    {
      TrailAt(fs, d, rel, i);
      assert root[..|src| + i][|src|..] == rel[..i];
    }
    if MeetsItself(root, key, keys) {
      var j :| 0 <= j < |root| && Recorded(root, j, keys) && keys[root[..j]] == key;
      assert src <= root[..j];
      assert trail[j - |src|] == key && trail[j - |src|] in trail[..|rel|];
    }
    if key in Above(fs, src, d, root) {
      var i :| 0 <= i < |rel| && trail[i] == key;
      assert Recorded(root, |src| + i, keys);
    }
  }

  /** A kept child of root: one more ancestor, and one step further. */
  lemma ChildInTree(fs: FileSystem, src: Path, d: Id, root: Path, name: string)
    requires ValidFs(fs) && InTree(fs, src, d, root) && name in Kept(fs[Stat(fs, src, d, root)])
    ensures
      var here, child := Stat(fs, src, d, root), root + [name];
      && name in fs[here].dirs && InTree(fs, src, d, child)
      && Below(fs, src, d, child) ==
         Walk(fs, root[|src|..] + [name], fs[here].target[name], Above(fs, src, d, root) + {here})
  {
    hide Walkable;
    hide Ident;
    hide Walk;
    hide Kept;
    var rel, child := root[|src|..], root + [name];
    var here := Ident(fs, d, rel);
    KeptNames(fs[here]);
    WalkableExtend(fs, d, rel, name);
    assert child[|src|..] == rel + [name] && src <= child;
    hide Trail;
    var trail := Trail(fs, d, rel);
    assert Trail(fs, d, rel + [name])[..|rel| + 1] == trail[..|rel|] + [here];
    assert Above(fs, src, d, child) == Above(fs, src, d, root) + {here};
  }

  /** The children of root as they are pushed, the first name last. */
  function Children(root: Path, names: seq<string>): seq<Path> {
    if names == [] then [] else Children(root, names[1..]) + [root + [names[0]]]
  }

  /** Stacking the children of root puts their visits in front, in the order of their names. */
  lemma {:induction false} ChildrenAhead(fs: FileSystem, src: Path, d: Id, stack: seq<Path>, root: Path,
                                         names: seq<string>)
    requires ValidFs(fs) && OnStack(fs, src, d, stack) && InTree(fs, src, d, root)
    requires forall n | n in names :: n in Kept(fs[Stat(fs, src, d, root)])
    ensures
      var here := Stat(fs, src, d, root);
      && (forall n | n in names :: n in fs[here].dirs)
      && OnStack(fs, src, d, stack + Children(root, names))
      && Ahead(fs, src, d, stack + Children(root, names)) ==
         WalkAll(fs, root[|src|..], here, names, Above(fs, src, d, root) + {here}) + Ahead(fs, src, d, stack)
  {
    hide InTree;
    hide Stat;
    hide Kept;
    hide Above;
    hide Below;
    hide Walk;
    hide ValidFs;
    hide Ahead;
    hide OnStack;
    if names == [] {
      assert stack + Children(root, names) == stack;
    } else {
      ChildrenAhead(fs, src, d, stack, root, names[1..]);
      ChildInTree(fs, src, d, root, names[0]);
      var below := stack + Children(root, names[1..]);
      assert stack + Children(root, names) == below + [root + [names[0]]];
      AheadNext(fs, src, d, below, root + [names[0]]);
    }
  }

  lemma {:induction false} ChildrenOf(root: Path, names: seq<string>)
    ensures forall p | p in Children(root, names) :: |p| == |root| + 1 && root <= p
  {
    if names != [] {
      ChildrenOf(root, names[1..]);
    }
  }

  /** os.walk after the body: push the directories that are left, in reverse. */
  method PushAll(stack: seq<Path>, root: Path, dirs: seq<string>) returns (pushed: seq<Path>)
    ensures pushed == stack + Children(root, dirs)
  {
    pushed := stack;
    var i := |dirs|;
    while i > 0
      invariant 0 <= i <= |dirs|
      invariant pushed == stack + Children(root, dirs[i..])
    {
      i := i - 1;
      assert dirs[i..][1..] == dirs[i + 1..];
      pushed := pushed + [root + [dirs[i]]];
    }
    assert dirs[0..] == dirs;
  }

  /** The body of the walk for one directory that is not pruned: its files, in order. */
  method CollectFiles(src: Path, rel: Path, files: seq<string>, collected: seq<Entry>) returns (out: seq<Entry>)
    ensures out == collected + FileEntries(src, rel, Filter(files, ExcludedName()))
  {
    out := collected;
    var i := 0;
    while i < |files|
      invariant 0 <= i <= |files|
      invariant out + FileEntries(src, rel, Filter(files[i..], ExcludedName())) ==
        collected + FileEntries(src, rel, Filter(files, ExcludedName()))
    {
      ghost var later := Filter(files[i + 1..], ExcludedName());
      assert files[i..][1..] == files[i + 1..];
      if !ExcludedFile(files[i]) {
        assert FileEntries(src, rel, [files[i]] + later) ==
          [EntryFor(src, rel, files[i])] + FileEntries(src, rel, later);
        out := out + [EntryFor(src, rel, files[i])];
      } else {
        assert [] + later == later;
      }
      i := i + 1;
    }
    assert FileEntries(src, rel, Filter(files[i..], ExcludedName())) == [];
  }

  lemma PoppedRecording(fs: FileSystem, src: Path, d: Id, stack: seq<Path>, root: Path, names: seq<string>,
                        keys: map<Path, Id>)
    requires OnStack(fs, src, d, stack + [root]) && Recording(fs, src, d, stack + [root], keys)
    ensures InTree(fs, src, d, root)
    ensures
      var keys1 := keys[root := Stat(fs, src, d, root)];
      Recording(fs, src, d, [root], keys1) && Recording(fs, src, d, stack + Children(root, names), keys1)
  {
    hide InTree;
    hide Stat;
    assert root in stack + [root] && forall p | p in stack :: p in stack + [root];
    var keys1 := keys[root := Stat(fs, src, d, root)];
    ChildrenOf(root, names);
    forall p | p in stack + Children(root, names)
      ensures Ancestry(src, p, keys1)
    {
      if p in stack {
        assert Ancestry(src, p, keys);
      } else {
        assert Ancestry(src, root, keys);
        forall i | |src| <= i < |p|
          ensures p[..i] in keys1
        {
          assert p[..i] == if i < |root| then root[..i] else root;
        }
      }
    }
    assert Ancestry(src, root, keys1);
  }

  lemma BelowHead(fs: FileSystem, src: Path, d: Id, root: Path)
    requires ValidFs(fs) && InTree(fs, src, d, root)
    ensures
      var rel, here, above := root[|src|..], Stat(fs, src, d, root), Above(fs, src, d, root);
      && (forall n | n in Kept(fs[here]) :: n in fs[here].dirs)
      && Below(fs, src, d, root) ==
         if here in above then [Visit(rel, true)]
         else [Visit(rel, false)] + WalkAll(fs, rel, here, Kept(fs[here]), above + {here})
  {
    hide Walkable;
    hide Kept;
    KeptNames(fs[Stat(fs, src, d, root)]);
  }

  /** One pass of the walk: the visit of root comes off the front, and its children take its place. */
  lemma Advance(fs: FileSystem, src: Path, d: Id, stack: seq<Path>, root: Path, keys: map<Path, Id>, pruned: bool)
    requires ValidFs(fs) && OnStack(fs, src, d, stack + [root]) && Recording(fs, src, d, stack + [root], keys)
    requires InTree(fs, src, d, root)
    requires pruned <==> MeetsItself(root, Stat(fs, src, d, root), keys[root := Stat(fs, src, d, root)])
    ensures
      var after := stack + Children(root, if pruned then [] else Kept(fs[Stat(fs, src, d, root)]));
      && OnStack(fs, src, d, after)
      && Recording(fs, src, d, after, keys[root := Stat(fs, src, d, root)])
      && (src != [] ==> Ahead(fs, src, d, stack + [root]) == [Visit(root[|src|..], pruned)] + Ahead(fs, src, d, after))
      && (root == [] ==> pruned)
      && (pruned ==> after == stack)
      && (pruned ==> |Ahead(fs, src, d, after)| < |Ahead(fs, src, d, stack + [root])|)
  {
    hide InTree;
    hide Stat;
    hide ValidFs;
    hide Below;
    hide Walk;
    hide MeetsItself;
    hide Above;
    hide Recording;
    hide Kept;
    hide Ahead;
    hide OnStack;
    hide Children;
    hide WalkAll;
    var here := Stat(fs, src, d, root);
    var left := if pruned then [] else Kept(fs[here]);
    AheadNext(fs, src, d, stack, root);
    NoChildren(root);
    PoppedRecording(fs, src, d, stack, root, left, keys);
    ChildrenAhead(fs, src, d, stack, root, left);
    assert stack + [] == stack;
    BelowHead(fs, src, d, root);
    if root == [] {
      RootMeetsItself(here, keys);
    }
    if src != [] {
      MeetsAncestor(fs, src, d, root, keys[root := here]);
      if !pruned {
        LongerThanSource(fs, src, d, root);
        var rel, behind := root[|src|..], Ahead(fs, src, d, stack);
        var within := WalkAll(fs, rel, here, left, Above(fs, src, d, root) + {here});
        assert [Visit(rel, false)] + within + behind == [Visit(rel, false)] + (within + behind);
      }
    }
  }

  lemma LongerThanSource(fs: FileSystem, src: Path, d: Id, root: Path)
    requires InTree(fs, src, d, root)
    ensures |src| <= |root|
  {
  }

  lemma NoChildren(root: Path)
    ensures Children(root, []) == []
  {
  }

  lemma AheadNext(fs: FileSystem, src: Path, d: Id, stack: seq<Path>, root: Path)
    requires ValidFs(fs)
    ensures OnStack(fs, src, d, stack + [root]) <==> OnStack(fs, src, d, stack) && InTree(fs, src, d, root)
    ensures OnStack(fs, src, d, stack + [root]) ==>
      Ahead(fs, src, d, stack + [root]) == Below(fs, src, d, root) + Ahead(fs, src, d, stack)
  {
    hide InTree, Below, ValidFs;
    var all := stack + [root];
    assert all[..|stack|] == stack && root in all && forall p | p in stack :: p in all;
  }

  lemma RootMeetsItself(key: Id, keys: map<Path, Id>)
    ensures MeetsItself([], key, keys[[] := key])
  {
  }

  lemma StartAhead(fs: FileSystem, src: Path, d: Id)
    requires ValidFs(fs) && d in fs
    ensures InTree(fs, src, d, src) && OnStack(fs, src, d, [src])
    ensures Recording(fs, src, d, [src], map[])
    ensures Ahead(fs, src, d, [src]) == Walk(fs, [], d, {})
    ensures Reached(fs, d, []) && EntriesOf(fs, src, d, []) == []
  {
    assert src[|src|..] == [];
    assert Above(fs, src, d, src) == {};
    assert Ahead(fs, src, d, [src][..0]) == [];
  }

  lemma TopInTree(fs: FileSystem, src: Path, d: Id, stack: seq<Path>, root: Path)
    requires OnStack(fs, src, d, stack + [root])
    ensures InTree(fs, src, d, root) && src <= root
  {
    assert root in stack + [root];
  }

  lemma NothingAhead(fs: FileSystem, src: Path, d: Id)
    requires ValidFs(fs)
    ensures Ahead(fs, src, d, []) == []
  {
  }

  lemma EntriesStep(fs: FileSystem, src: Path, d: Id, vs: seq<Visit>, root: Path, pruned: bool)
    requires Reached(fs, d, vs) && InTree(fs, src, d, root)
    ensures
      var rel := root[|src|..];
      var more := vs + [Visit(rel, pruned)];
      && Reached(fs, d, more)
      && EntriesOf(fs, src, d, more) == EntriesOf(fs, src, d, vs) +
         if pruned then [] else FileEntries(src, rel, PackagedFiles(fs[Stat(fs, src, d, root)]))
  {
    var more := vs + [Visit(root[|src|..], pruned)];
    assert more[..|more| - 1] == vs;
  }

  /** The body of the walk for one directory: record it, prune it or collect its files, push what is left. */
  method Enter(fs: FileSystem, src: Path, d: Id, stack: seq<Path>, root: Path, keysByPath: map<Path, Id>,
               collected: seq<Entry>)
    returns (pruned: bool, keys: map<Path, Id>, out: seq<Entry>, pushed: seq<Path>)
    requires InTree(fs, src, d, root)
    ensures keys == keysByPath[root := Stat(fs, src, d, root)]
    ensures pruned <==> MeetsItself(root, Stat(fs, src, d, root), keys)
    ensures out == collected +
      if pruned then [] else FileEntries(src, root[|src|..], PackagedFiles(fs[Stat(fs, src, d, root)]))
    ensures pushed == stack + Children(root, if pruned then [] else Kept(fs[Stat(fs, src, d, root)]))
  {
    var key := Stat(fs, src, d, root);
    keys := keysByPath[root := key];
    pruned := ContainsItself(root, key, keys);
    var dirs := [];
    out := collected;
    if !pruned {
      dirs := Kept(fs[key]);
      out := CollectFiles(src, root[|src|..], Sorted(fs[key].files), out);
    }
    pushed := PushAll(stack, root, dirs);
  }

  /** `_collect`, with `src` the source directory and `top` its identity if it is one. */
  method Collect(fs: FileSystem, src: Path, top: Option<Id>) returns (r: Collected)
    requires ValidFs(fs) && (top.Some? ==> top.value in fs)
    ensures top.None? <==> r.NotADirectory?
    ensures top.Some? && src == [] ==> r == Files([])
    ensures top.Some? && src != [] ==> r == Files(Archive(fs, src, top.value))
    ensures top.Some? && (exists rel, name :: Belongs(fs, top.value, rel, name)) ==> (r == Files([]) <==> src == [])
  {
    hide *;
    if top.None? {
      return NotADirectory;
    }
    ghost var d := top.value;
    var stack, keysByPath, out := [src], map[], [];
    ghost var visited: seq<Visit> := [];
    ghost var whole := Walk(fs, [], d, {});
    StartAhead(fs, src, d);
    while stack != []
      invariant OnStack(fs, src, d, stack) && Recording(fs, src, d, stack, keysByPath)
      invariant src == [] ==> out == [] && (stack == [] || stack == [src])
      invariant Reached(fs, d, visited)
      invariant src != [] ==> out == EntriesOf(fs, src, d, visited)
      invariant src != [] ==> whole == visited + Ahead(fs, src, d, stack)
      decreases |Ahead(fs, src, d, stack)|
    {
      var root := stack[|stack| - 1];
      ghost var rest, known := stack[..|stack| - 1], keysByPath;
      assert stack == rest + [root];
      TopInTree(fs, src, d, rest, root);
      var pruned;
      pruned, keysByPath, out, stack := Enter(fs, src, top.value, stack[..|stack| - 1], root, keysByPath, out);
      Advance(fs, src, d, rest, root, known, pruned);
      EntriesStep(fs, src, d, visited, root, pruned);
      visited := visited + [Visit(root[|src|..], pruned)];
    }
    NothingAhead(fs, src, d);
    assert visited + [] == visited;
    ArchiveIs(fs, src, d);
    ArchiveEmptyIff(fs, src, d);
    r := Files(out);
  }

  /** The failing side is reached: a file system root with one file, which belongs in the archive, and nothing is
      yielded. */
  method CollectRoot() returns (fs: FileSystem, top: Id, r: Collected)
    ensures ValidFs(fs) && top in fs && Belongs(fs, top, [], "topology.py")
    ensures EntryFor([], [], "topology.py") in Archive(fs, [], top) && r == Files([])
  {
    top := (0, 0);
    fs := map[top := Listing(["topology.py"], [], map[])];
    r := Collect(fs, [], Some(top));
    OneFileBelongs(fs, top);
  }

  lemma OneFileBelongs(fs: FileSystem, top: Id)
    requires ValidFs(fs) && fs == map[top := Listing(["topology.py"], [], map[])]
    ensures Belongs(fs, top, [], "topology.py") && EntryFor([], [], "topology.py") in Archive(fs, [], top)
  {
    assert Belongs(fs, top, [], "topology.py");
    ArchiveIff(fs, [], top, EntryFor([], [], "topology.py"));
  }
}
