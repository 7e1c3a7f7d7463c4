/** The directory walk of `pystorm_a8c/cli/jar.py`. */
module JarWalk {
  import opened Names

  /** The identity of a directory, `(st_dev, st_ino)`. */
  type Id = (int, int)

  /** A directory: its files, and its subdirectories with the directory each name leads to. */
  datatype Listing = Listing(files: seq<string>, dirs: seq<string>, target: map<string, Id>)

  type FileSystem = map<Id, Listing>

  /** Components from the file system root; `dirname` of the root is the root. A relative source directory is
      not the root: its `dirname` chain ends in "", which the walk never records. */
  type Path = seq<string>

  const EXCLUDED_DIRS := {"__pycache__", ".git", ".pytest_cache", ".mypy_cache"}
  const EXCLUDED_SUFFIXES := {".pyc", ".pyo", ".pyd"}
  const EXCLUDED_NAMES := {".DS_Store"}
  const RESOURCES_ROOT := "resources"

  /** One packaged file: where it is, and its name in the archive, as components. */
  datatype Entry = Entry(path: Path, arcname: seq<string>)

  ghost predicate ValidFs(fs: FileSystem) {
    forall d | d in fs ::
      && NoDuplicates(fs[d].files) && NoDuplicates(fs[d].dirs)
      && (forall n | n in fs[d].dirs :: n in fs[d].target && fs[d].target[n] in fs)
  }

  predicate ExcludedFile(name: string) {
    name in EXCLUDED_NAMES || (|name| >= 4 && name[|name| - 4..] in EXCLUDED_SUFFIXES)
  }

  /** The elements that are not excluded, in order. */
  function Filter(names: seq<string>, excluded: string -> bool): (r: seq<string>) {
    if names == [] then []
    else (if excluded(names[0]) then [] else [names[0]]) + Filter(names[1..], excluded)
  }

  lemma {:induction false} FilterKeeps(names: seq<string>, excluded: string -> bool)
    ensures forall n :: n in Filter(names, excluded) <==> n in names && !excluded(n)
    ensures NoDuplicates(names) ==> NoDuplicates(Filter(names, excluded))
  {
    if names != [] {
      FilterKeeps(names[1..], excluded);
      assert names == [names[0]] + names[1..];
    }
  }

  function ExcludedDir(): string -> bool {
    n => n in EXCLUDED_DIRS
  }

  /** The subdirectories the walk goes into, in its order. */
  function Kept(l: Listing): seq<string> {
    Sorted(Filter(l.dirs, ExcludedDir()))
  }

  lemma KeptNames(l: Listing)
    ensures forall n :: n in Kept(l) <==> n in l.dirs && n !in EXCLUDED_DIRS
    ensures NoDuplicates(l.dirs) ==> NoDuplicates(Kept(l))
  {
    FilterKeeps(l.dirs, ExcludedDir());
    SortedIsOrdered(Filter(l.dirs, ExcludedDir()));
  }

  // ---- the specification: simple paths ----

  /** Kept subdirectory names lead from d along rel. */
  predicate Walkable(fs: FileSystem, d: Id, rel: Path)
    decreases rel
  {
    d in fs && (rel == [] ||
      (rel[0] in Kept(fs[d]) && rel[0] in fs[d].target && Walkable(fs, fs[d].target[rel[0]], rel[1..])))
  }

  /** The directory at the end of rel. */
  function Ident(fs: FileSystem, d: Id, rel: Path): (e: Id)
    requires Walkable(fs, d, rel)
    ensures e in fs
    decreases rel
  {
    if rel == [] then d else Ident(fs, fs[d].target[rel[0]], rel[1..])
  }

  /** The identities of the directories met along rel, d first. */
  function Trail(fs: FileSystem, d: Id, rel: Path): (r: seq<Id>)
    requires Walkable(fs, d, rel)
    ensures |r| == |rel| + 1 && r[0] == d && r[|rel|] == Ident(fs, d, rel)
    ensures forall x | x in r :: x in fs
    decreases rel
  {
    if rel == [] then [d] else [d] + Trail(fs, fs[d].target[rel[0]], rel[1..])
  }

  /** Kept names all the way, through pairwise distinct directories. */
  predicate SimplePath(fs: FileSystem, d: Id, rel: Path) {
    Walkable(fs, d, rel) && NoDuplicates(Trail(fs, d, rel))
  }

  lemma {:induction false} WalkableExtend(fs: FileSystem, d: Id, rel: Path, name: string)
    requires Walkable(fs, d, rel) && name in Kept(fs[Ident(fs, d, rel)])
    requires name in fs[Ident(fs, d, rel)].target && fs[Ident(fs, d, rel)].target[name] in fs
    ensures Walkable(fs, d, rel + [name])
    ensures Trail(fs, d, rel + [name]) == Trail(fs, d, rel) + [fs[Ident(fs, d, rel)].target[name]]
    decreases rel
  {
    hide Kept;
    if rel == [] {
      assert [name][1..] == [];
    } else {
      assert (rel + [name])[1..] == rel[1..] + [name];
      WalkableExtend(fs, fs[d].target[rel[0]], rel[1..], name);
    }
  }

  /** A simple path is shorter than the number of directories, so a walk along simple paths is finite. */
  lemma DepthBound(fs: FileSystem, d: Id, rel: Path)
    requires SimplePath(fs, d, rel)
    ensures |rel| < |fs.Keys|
  {
    DistinctBounded(Trail(fs, d, rel), fs.Keys);
  }

  lemma {:induction false} DistinctBounded<T>(s: seq<T>, all: set<T>)
    requires NoDuplicates(s) && forall x | x in s :: x in all
    ensures |s| <= |all|
  {
    if s != [] {
      DistinctBounded(s[1..], all - {s[0]});
    }
  }

  // ---- the walk as a recursion ----

  /** One directory that `os.walk` yields, and whether it was pruned. */
  datatype Visit = Visit(rel: Path, pruned: bool)

  ghost function Walk(fs: FileSystem, rel: Path, d: Id, seen: set<Id>): (r: seq<Visit>)
    requires ValidFs(fs) && d in fs
    ensures r != [] && r[0] == Visit(rel, d in seen)
    decreases fs.Keys - seen, 1, 0
  {
    if d in seen then [Visit(rel, true)]
    else
      KeptNames(fs[d]);
      assert d in fs.Keys - seen && d !in fs.Keys - (seen + {d});
      [Visit(rel, false)] + WalkAll(fs, rel, d, Kept(fs[d]), seen + {d})
  }

  ghost function WalkAll(fs: FileSystem, rel: Path, d: Id, names: seq<string>, seen: set<Id>): seq<Visit>
    requires ValidFs(fs) && d in fs && forall n | n in names :: n in fs[d].dirs
    decreases fs.Keys - seen, 2, |names|
  {
    if names == [] then []
    else Walk(fs, rel + [names[0]], fs[d].target[names[0]], seen) + WalkAll(fs, rel, d, names[1..], seen)
  }

  /** ext leads from d through distinct directories outside `seen`. */
  predicate SimpleFrom(fs: FileSystem, d: Id, seen: set<Id>, ext: Path) {
    Walkable(fs, d, ext) && NoDuplicates(Trail(fs, d, ext)) && forall x | x in Trail(fs, d, ext) :: x !in seen
  }

  lemma SimpleFromStep(fs: FileSystem, d: Id, seen: set<Id>, ext: Path)
    requires Walkable(fs, d, ext) && ext != []
    ensures SimpleFrom(fs, d, seen, ext) <==> d !in seen && SimpleFrom(fs, fs[d].target[ext[0]], seen + {d}, ext[1..])
  {
    hide Kept;
    var rest := Trail(fs, fs[d].target[ext[0]], ext[1..]);
    assert Trail(fs, d, ext) == [d] + rest;
    assert forall i | 0 <= i < |rest| :: ([d] + rest)[i + 1] == rest[i];
  }

  /** The walk visits, unpruned, exactly the continuations through distinct new directories. */
  lemma {:induction false} WalkIff(fs: FileSystem, rel: Path, d: Id, seen: set<Id>, ext: Path)
    requires ValidFs(fs) && d in fs
    ensures Visit(rel + ext, false) in Walk(fs, rel, d, seen) <==> SimpleFrom(fs, d, seen, ext)
    decreases fs.Keys - seen, 1, 0
  {
    if d !in seen {
      assert d in fs.Keys - seen && d !in fs.Keys - (seen + {d});
      KeptNames(fs[d]);
      WalkAllIff(fs, rel, d, Kept(fs[d]), seen + {d}, ext);
      if ext == [] {
        assert rel + ext == rel && Trail(fs, d, ext) == [d];
      } else {
        assert rel + ext != rel;
        if Walkable(fs, d, ext) {
          SimpleFromStep(fs, d, seen, ext);
        }
      }
    }
  }

  lemma NotBelow(rel: Path, name: string, ext: Path)
    requires ext == [] || ext[0] != name
    ensures !(rel + [name] <= rel + ext)
  {
    assert ext != [] ==> (rel + ext)[|rel|] == ext[0];
    assert (rel + [name])[|rel|] == name;
  }

  lemma {:induction false} WalkAllIff(fs: FileSystem, rel: Path, d: Id, names: seq<string>, seen: set<Id>, ext: Path)
    requires ValidFs(fs) && d in fs && forall n | n in names :: n in fs[d].dirs
    ensures Visit(rel + ext, false) in WalkAll(fs, rel, d, names, seen) <==>
      ext != [] && ext[0] in names && SimpleFrom(fs, fs[d].target[ext[0]], seen, ext[1..])
    decreases fs.Keys - seen, 2, |names|
  {
    hide SimpleFrom;
    hide Walk;
    if names != [] {
      WalkAllIff(fs, rel, d, names[1..], seen, ext);
      var first := rel + [names[0]];
      if ext != [] && ext[0] == names[0] {
        assert rel + ext == first + ext[1..];
        WalkIff(fs, first, fs[d].target[names[0]], seen, ext[1..]);
      } else {
        WalkBelow(fs, first, fs[d].target[names[0]], seen);
        NotBelow(rel, names[0], ext);
      }
    }
  }

  /** The walk below rel visits paths below rel, each once. */
  lemma {:induction false} WalkBelow(fs: FileSystem, rel: Path, d: Id, seen: set<Id>)
    requires ValidFs(fs) && d in fs
    ensures forall v | v in Walk(fs, rel, d, seen) :: rel <= v.rel
    ensures DistinctVisits(Walk(fs, rel, d, seen))
    decreases fs.Keys - seen, 1, 0
  {
    if d !in seen {
      assert d in fs.Keys - seen && d !in fs.Keys - (seen + {d});
      KeptNames(fs[d]);
      WalkAllBelow(fs, rel, d, Kept(fs[d]), seen + {d});
    }
  }

  predicate DistinctVisits(vs: seq<Visit>) {
    forall i, j | 0 <= i < j < |vs| :: vs[i].rel != vs[j].rel
  }

  lemma {:induction false} WalkAllBelow(fs: FileSystem, rel: Path, d: Id, names: seq<string>, seen: set<Id>)
    requires ValidFs(fs) && d in fs && NoDuplicates(names) && forall n | n in names :: n in fs[d].dirs
    ensures forall v | v in WalkAll(fs, rel, d, names, seen) :: rel < v.rel && v.rel[|rel|] in names
    ensures DistinctVisits(WalkAll(fs, rel, d, names, seen))
    decreases fs.Keys - seen, 2, |names|
  {
    if names != [] {
      var first, rest := Walk(fs, rel + [names[0]], fs[d].target[names[0]], seen),
        WalkAll(fs, rel, d, names[1..], seen);
      WalkBelow(fs, rel + [names[0]], fs[d].target[names[0]], seen);
      WalkAllBelow(fs, rel, d, names[1..], seen);
      forall v | v in first
        ensures rel < v.rel && v.rel[|rel|] == names[0]
      {
        assert v.rel[|rel|] == (rel + [names[0]])[|rel|];
      }
      assert forall v | v in rest :: v.rel[|rel|] != names[0];
    }
  }

  // ---- entries ----

  function ExcludedName(): string -> bool {
    n => ExcludedFile(n)
  }

  function PackagedFiles(l: Listing): seq<string> {
    Filter(Sorted(l.files), ExcludedName())
  }

  function EntryFor(src: Path, rel: Path, name: string): Entry {
    Entry(src + rel + [name], [RESOURCES_ROOT] + rel + [name])
  }

  function FileEntries(src: Path, rel: Path, names: seq<string>): seq<Entry> {
    seq(|names|, i requires 0 <= i < |names| => EntryFor(src, rel, names[i]))
  }

  predicate Reached(fs: FileSystem, d: Id, vs: seq<Visit>) {
    forall v | v in vs :: Walkable(fs, d, v.rel)
  }

  /** The entries of the visited directories that were not pruned, in order. */
  function EntriesOf(fs: FileSystem, src: Path, d: Id, vs: seq<Visit>): seq<Entry>
    requires Reached(fs, d, vs)
  {
    if vs == [] then []
    else
      var v := vs[|vs| - 1];
      EntriesOf(fs, src, d, vs[..|vs| - 1])
      + if v.pruned then [] else FileEntries(src, v.rel, PackagedFiles(fs[Ident(fs, d, v.rel)]))
  }

  lemma FileEntriesIff(src: Path, rel: Path, names: seq<string>, e: Entry)
    ensures e in FileEntries(src, rel, names) <==> exists name :: name in names && e == EntryFor(src, rel, name)
  {
    if e in FileEntries(src, rel, names) {
      var i :| 0 <= i < |names| && FileEntries(src, rel, names)[i] == e;
      assert names[i] in names;
    }
    forall name | name in names && e == EntryFor(src, rel, name)
      ensures e in FileEntries(src, rel, names)
    {
      var i :| 0 <= i < |names| && names[i] == name;
      assert FileEntries(src, rel, names)[i] == e;
    }
  }

  /** A packaged file of a directory that the walk visits, unpruned. */
  ghost predicate Packaged(fs: FileSystem, d: Id, vs: seq<Visit>, rel: Path, name: string)
    requires Reached(fs, d, vs)
  {
    Visit(rel, false) in vs && name in PackagedFiles(fs[Ident(fs, d, rel)])
  }

  lemma {:induction false} EntriesIff(fs: FileSystem, src: Path, d: Id, vs: seq<Visit>, e: Entry)
    requires Reached(fs, d, vs)
    ensures e in EntriesOf(fs, src, d, vs) <==>
      exists rel, name :: Packaged(fs, d, vs, rel, name) && e == EntryFor(src, rel, name)
  {
    hide PackagedFiles;
    hide Walkable;
    hide Ident;
    hide EntryFor;
    if vs != [] {
      var before, v := vs[..|vs| - 1], vs[|vs| - 1];
      EntriesIff(fs, src, d, before, e);
      assert vs == before + [v];
      FileEntriesIff(src, v.rel, PackagedFiles(fs[Ident(fs, d, v.rel)]), e);
      assert forall rel, name | Packaged(fs, d, before, rel, name) :: Packaged(fs, d, vs, rel, name);
      if !v.pruned {
        assert forall name | name in PackagedFiles(fs[Ident(fs, d, v.rel)]) :: Packaged(fs, d, vs, v.rel, name);
      }
      assert forall rel, name | Packaged(fs, d, vs, rel, name) ::
        Packaged(fs, d, before, rel, name) || v == Visit(rel, false);
    }
  }

  lemma {:induction false} WalkReached(fs: FileSystem, top: Id, rel: Path, d: Id, seen: set<Id>)
    requires ValidFs(fs) && Walkable(fs, top, rel) && Ident(fs, top, rel) == d
    ensures Reached(fs, top, Walk(fs, rel, d, seen))
    decreases fs.Keys - seen, 1, 0
  {
    hide Kept;
    if d !in seen {
      assert d in fs.Keys - seen && d !in fs.Keys - (seen + {d});
      KeptNames(fs[d]);
      WalkAllReached(fs, top, rel, d, Kept(fs[d]), seen + {d});
    }
  }

  lemma {:induction false} WalkAllReached(fs: FileSystem, top: Id, rel: Path, d: Id, names: seq<string>, seen: set<Id>)
    requires ValidFs(fs) && Walkable(fs, top, rel) && Ident(fs, top, rel) == d
    requires forall n | n in names :: n in fs[d].dirs && n in Kept(fs[d])
    ensures Reached(fs, top, WalkAll(fs, rel, d, names, seen))
    decreases fs.Keys - seen, 2, |names|
  {
    hide Kept;
    hide Walkable;
    hide Ident;
    hide Walk;
    if names != [] {
      WalkableExtend(fs, top, rel, names[0]);
      WalkReached(fs, top, rel + [names[0]], fs[d].target[names[0]], seen);
      WalkAllReached(fs, top, rel, d, names[1..], seen);
    }
  }

  // ---- what ends up in the archive ----

  /** The archive of a source tree, by the recursion. */
  ghost function Archive(fs: FileSystem, src: Path, d: Id): seq<Entry>
    requires ValidFs(fs) && d in fs
  {
    WalkReached(fs, d, [], d, {});
    EntriesOf(fs, src, d, Walk(fs, [], d, {}))
  }

  lemma {:induction false} ArchiveIs(fs: FileSystem, src: Path, d: Id)
    requires ValidFs(fs) && d in fs
    ensures Reached(fs, d, Walk(fs, [], d, {})) && Archive(fs, src, d) == EntriesOf(fs, src, d, Walk(fs, [], d, {}))
  {
    WalkReached(fs, d, [], d, {});
  }

  /** The file belongs in the archive: kept names lead to it through distinct directories, and it is not
      excluded itself. */
  predicate Belongs(fs: FileSystem, d: Id, rel: Path, name: string) {
    SimplePath(fs, d, rel) && name in fs[Ident(fs, d, rel)].files && !ExcludedFile(name)
  }

  lemma PackagedNames(l: Listing)
    ensures forall n :: n in PackagedFiles(l) <==> n in l.files && !ExcludedFile(n)
    ensures NoDuplicates(l.files) ==> NoDuplicates(PackagedFiles(l))
  {
    SortedIsOrdered(l.files);
    FilterKeeps(Sorted(l.files), ExcludedName());
  }

  lemma {:induction false} VisitedIff(fs: FileSystem, d: Id, rel: Path)
    requires ValidFs(fs) && d in fs
    ensures Visit(rel, false) in Walk(fs, [], d, {}) <==> SimplePath(fs, d, rel)
  {
    hide Walk;
    hide Walkable;
    hide Trail;
    WalkIff(fs, [], d, {}, rel);
    assert [] + rel == rel;
  }

  /** An entry is in the archive if and only if its file belongs there, under the name made of its path. */
  lemma ArchiveIff(fs: FileSystem, src: Path, d: Id, e: Entry)
    requires ValidFs(fs) && d in fs
    ensures e in Archive(fs, src, d) <==> exists rel, name :: Belongs(fs, d, rel, name) && e == EntryFor(src, rel, name)
  {
    hide Walk;
    hide PackagedFiles;
    hide SimplePath;
    var vs := Walk(fs, [], d, {});
    ArchiveIs(fs, src, d);
    EntriesIff(fs, src, d, vs, e);
    forall rel, name
      ensures Packaged(fs, d, vs, rel, name) <==> Belongs(fs, d, rel, name)
    {
      VisitedIff(fs, d, rel);
      if SimplePath(fs, d, rel) {
        PackagedNames(fs[Ident(fs, d, rel)]);
      }
    }
  }

  predicate DistinctNames(entries: seq<Entry>) {
    forall i, j | 0 <= i < j < |entries| :: entries[i].arcname != entries[j].arcname
  }

  lemma SameArcname(src: Path, rel1: Path, name1: string, rel2: Path, name2: string)
    requires EntryFor(src, rel1, name1).arcname == EntryFor(src, rel2, name2).arcname
    ensures rel1 == rel2 && name1 == name2
  {
    var a1, a2 := [RESOURCES_ROOT] + rel1 + [name1], [RESOURCES_ROOT] + rel2 + [name2];
    assert |a1| == |a2| && a1[|a1| - 1] == name1 && a2[|a2| - 1] == name2;
    assert rel1 == a1[1..|a1| - 1] && rel2 == a2[1..|a2| - 1];
  }

  lemma {:induction false} EntriesDistinct(fs: FileSystem, src: Path, d: Id, vs: seq<Visit>)
    requires ValidFs(fs) && Reached(fs, d, vs) && DistinctVisits(vs)
    ensures DistinctNames(EntriesOf(fs, src, d, vs))
  {
    hide Walkable;
    hide PackagedFiles;
    hide EntryFor;
    if vs != [] {
      var before, v := vs[..|vs| - 1], vs[|vs| - 1];
      EntriesDistinct(fs, src, d, before);
      var done, names := EntriesOf(fs, src, d, before), PackagedFiles(fs[Ident(fs, d, v.rel)]);
      var all, more := EntriesOf(fs, src, d, vs), FileEntries(src, v.rel, names);
      PackagedNames(fs[Ident(fs, d, v.rel)]);
      forall i, j | 0 <= i < j < |all|
        ensures all[i].arcname != all[j].arcname
      {
        if j >= |done| {
          var name := names[j - |done|];
          if i < |done| {
            assert done[i] in done;
            EntriesIff(fs, src, d, before, done[i]);
            var rel1, name1 :| Packaged(fs, d, before, rel1, name1) && done[i] == EntryFor(src, rel1, name1);
            var k :| 0 <= k < |before| && before[k] == Visit(rel1, false);
            assert vs[k].rel != v.rel;
            if all[i].arcname == all[j].arcname {
              SameArcname(src, rel1, name1, v.rel, name);
            }
          } else if all[i].arcname == all[j].arcname {
            SameArcname(src, v.rel, names[i - |done|], v.rel, name);
          }
        }
      }
    }
  }

  /** No archive name is yielded twice. */
  lemma ArchiveNamesDistinct(fs: FileSystem, src: Path, d: Id)
    requires ValidFs(fs) && d in fs
    ensures DistinctNames(Archive(fs, src, d))
  {
    ArchiveIs(fs, src, d);
    WalkBelow(fs, [], d, {});
    EntriesDistinct(fs, src, d, Walk(fs, [], d, {}));
  }

  /** Two links to one directory that is no ancestor of either both appear, each under its own name. */
  lemma {:induction false} BothLinksAppear(fs: FileSystem, src: Path, d: Id, rel1: Path, rel2: Path, name: string)
    requires ValidFs(fs) && d in fs && SimplePath(fs, d, rel1) && SimplePath(fs, d, rel2) && rel1 != rel2
    requires Ident(fs, d, rel1) == Ident(fs, d, rel2) && name in fs[Ident(fs, d, rel1)].files && !ExcludedFile(name)
    ensures EntryFor(src, rel1, name) in Archive(fs, src, d) && EntryFor(src, rel2, name) in Archive(fs, src, d)
    ensures EntryFor(src, rel1, name).arcname != EntryFor(src, rel2, name).arcname
  {
    assert Belongs(fs, d, rel1, name) && Belongs(fs, d, rel2, name);
    ArchiveIff(fs, src, d, EntryFor(src, rel1, name));
    ArchiveIff(fs, src, d, EntryFor(src, rel2, name));
    if EntryFor(src, rel1, name).arcname == EntryFor(src, rel2, name).arcname {
      SameArcname(src, rel1, name, rel2, name);
    }
  }

  /** The archive of a tree is empty only when no file belongs in it, so packaging the file system root, for
      which `_collect` yields nothing, loses exactly the files that belong. */
  lemma ArchiveEmptyIff(fs: FileSystem, src: Path, d: Id)
    requires ValidFs(fs) && d in fs
    ensures Archive(fs, src, d) == [] <==> !exists rel, name :: Belongs(fs, d, rel, name)
  {
    hide Belongs;
    hide Archive;
    if Archive(fs, src, d) != [] {
      ArchiveIff(fs, src, d, Archive(fs, src, d)[0]);
    }
    forall rel, name | Belongs(fs, d, rel, name)
      ensures EntryFor(src, rel, name) in Archive(fs, src, d)
    {
      ArchiveIff(fs, src, d, EntryFor(src, rel, name));
    }
  }
}
