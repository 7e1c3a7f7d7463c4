/** The order of the archive: it depends on the tree and not on how the operating system lists it. */
module JarOrder {
  import opened Names
  import opened JarWalk

  // ---- sorting forgets the listing ----

  lemma {:induction false} LeAntisymmetric(a: string, b: string)
    requires Le(a, b) && Le(b, a)
    ensures a == b
  {
    if a != [] && b != [] {
      LeAntisymmetric(a[1..], b[1..]);
      assert a == [a[0]] + a[1..] && b == [b[0]] + b[1..];
    }
  }

  /** How far two strings agree. */
  function Common(a: string, b: string): (n: nat)
    ensures n <= |a| && n <= |b| && a[..n] == b[..n]
    ensures n < |a| && n < |b| ==> a[n] != b[n]
  {
    if a == [] || b == [] || a[0] != b[0] then 0
    else
      var n := Common(a[1..], b[1..]);
      assert a[..n + 1] == [a[0]] + a[1..][..n] && b[..n + 1] == [b[0]] + b[1..][..n];
      n + 1
  }

  /** The order is the lexicographic one: the first difference decides, and a prefix comes first. */
  lemma {:induction false} LeIff(a: string, b: string)
    ensures
      var n := Common(a, b);
      Le(a, b) <==> n == |a| || (n < |b| && a[n] < b[n])
  {
    if a != [] && b != [] && a[0] == b[0] {
      LeIff(a[1..], b[1..]);
    }
  }

  lemma {:induction false} OrderedUnique(a: seq<string>, b: seq<string>)
    requires Ordered(a) && Ordered(b) && multiset(a) == multiset(b)
    ensures a == b
  {
    hide Le;
    if a == [] {
      assert |multiset(b)| == 0;
    } else {
      assert |multiset(a)| == |multiset(b)|;
      assert a[0] in multiset(b) && b[0] in multiset(a);
      HeadIsLeast(a, b[0]);
      HeadIsLeast(b, a[0]);
      LeAntisymmetric(a[0], b[0]);
      TailCount(a);
      TailCount(b);
      OrderedUnique(a[1..], b[1..]);
      assert a == [a[0]] + a[1..] && b == [b[0]] + b[1..];
    }
  }

  lemma HeadIsLeast(a: seq<string>, x: string)
    requires Ordered(a) && x in a
    ensures Le(a[0], x)
  {
    var i :| 0 <= i < |a| && a[i] == x;
    LeReflexive(x);
  }

  lemma TailCount(a: seq<string>)
    requires a != []
    ensures multiset(a[1..]) == multiset(a) - multiset{a[0]}
  {
    assert a == [a[0]] + a[1..];
  }

  lemma {:induction false} LeReflexive(a: string)
    ensures Le(a, a)
  {
    if a != [] {
      LeReflexive(a[1..]);
    }
  }

  lemma SortedPermuted(a: seq<string>, b: seq<string>)
    requires multiset(a) == multiset(b)
    ensures Sorted(a) == Sorted(b)
  {
    SortedIsOrdered(a);
    SortedIsOrdered(b);
    OrderedUnique(Sorted(a), Sorted(b));
  }

  lemma {:induction false} FilterCount(names: seq<string>, excluded: string -> bool, x: string)
    ensures multiset(Filter(names, excluded))[x] == if excluded(x) then 0 else multiset(names)[x]
  {
    if names != [] {
      FilterCount(names[1..], excluded, x);
      assert names == [names[0]] + names[1..];
      assert multiset(names) == multiset{names[0]} + multiset(names[1..]);
      var head := if excluded(names[0]) then [] else [names[0]];
      assert multiset(Filter(names, excluded)) == multiset(head) + multiset(Filter(names[1..], excluded));
    }
  }

  lemma KeptPermuted(l: Listing, k: Listing)
    requires multiset(l.dirs) == multiset(k.dirs)
    ensures Kept(l) == Kept(k)
  {
    hide Filter, Sorted;
    forall x
      ensures multiset(Filter(l.dirs, ExcludedDir()))[x] == multiset(Filter(k.dirs, ExcludedDir()))[x]
    {
      FilterCount(l.dirs, ExcludedDir(), x);
      FilterCount(k.dirs, ExcludedDir(), x);
    }
    assert multiset(Filter(l.dirs, ExcludedDir())) == multiset(Filter(k.dirs, ExcludedDir()));
    SortedPermuted(Filter(l.dirs, ExcludedDir()), Filter(k.dirs, ExcludedDir()));
  }

  // ---- two listings of one tree ----

  /** The same directories with the same files and subdirectories, listed in whatever order. */
  ghost predicate SameTree(fs: FileSystem, gs: FileSystem) {
    && fs.Keys == gs.Keys
    && forall d | d in fs ::
      && multiset(fs[d].files) == multiset(gs[d].files)
      && multiset(fs[d].dirs) == multiset(gs[d].dirs)
      && fs[d].target == gs[d].target
  }

  lemma SameNames(fs: FileSystem, gs: FileSystem, d: Id)
    requires SameTree(fs, gs) && d in fs
    ensures Kept(fs[d]) == Kept(gs[d]) && PackagedFiles(fs[d]) == PackagedFiles(gs[d])
    ensures forall n :: n in fs[d].dirs <==> n in gs[d].dirs
  {
    hide Kept, Filter, Sorted;
    KeptPermuted(fs[d], gs[d]);
    SortedPermuted(fs[d].files, gs[d].files);
    forall n
      ensures n in fs[d].dirs <==> n in gs[d].dirs
    {
      assert n in multiset(fs[d].dirs) <==> n in multiset(gs[d].dirs);
    }
  }

  lemma {:induction false} SameWalk(fs: FileSystem, gs: FileSystem, rel: Path, d: Id, seen: set<Id>)
    requires ValidFs(fs) && ValidFs(gs) && SameTree(fs, gs) && d in fs
    ensures Walk(fs, rel, d, seen) == Walk(gs, rel, d, seen)
    decreases fs.Keys - seen, 1, 0
  {
    hide Kept, ValidFs, WalkAll;
    if d !in seen {
      assert d in fs.Keys - seen && d !in fs.Keys - (seen + {d});
      KeptNames(fs[d]);
      KeptNames(gs[d]);
      SameNames(fs, gs, d);
      SameWalkAll(fs, gs, rel, d, Kept(fs[d]), seen + {d});
    }
  }

  lemma {:induction false} SameWalkAll(fs: FileSystem, gs: FileSystem, rel: Path, d: Id, names: seq<string>,
                                       seen: set<Id>)
    requires ValidFs(fs) && ValidFs(gs) && SameTree(fs, gs) && d in fs
    requires forall n | n in names :: n in fs[d].dirs && n in gs[d].dirs
    ensures WalkAll(fs, rel, d, names, seen) == WalkAll(gs, rel, d, names, seen)
    decreases fs.Keys - seen, 2, |names|
  {
    hide Walk;
    if names != [] {
      SameWalk(fs, gs, rel + [names[0]], fs[d].target[names[0]], seen);
      SameWalkAll(fs, gs, rel, d, names[1..], seen);
    }
  }

  lemma {:induction false} SamePath(fs: FileSystem, gs: FileSystem, d: Id, rel: Path)
    requires SameTree(fs, gs) && Walkable(fs, d, rel) && Walkable(gs, d, rel)
    ensures Ident(fs, d, rel) == Ident(gs, d, rel)
    decreases rel
  {
    hide Kept;
    if rel != [] {
      SamePath(fs, gs, fs[d].target[rel[0]], rel[1..]);
    }
  }

  lemma {:induction false} SameEntries(fs: FileSystem, gs: FileSystem, src: Path, d: Id, vs: seq<Visit>)
    requires SameTree(fs, gs) && Reached(fs, d, vs) && Reached(gs, d, vs)
    ensures EntriesOf(fs, src, d, vs) == EntriesOf(gs, src, d, vs)
  {
    hide Walkable, Ident, PackagedFiles, FileEntries;
    if vs != [] {
      var v := vs[|vs| - 1];
      SameEntries(fs, gs, src, d, vs[..|vs| - 1]);
      SamePath(fs, gs, d, v.rel);
      SameNames(fs, gs, Ident(fs, d, v.rel));
    }
  }

  /** Two file systems that differ only in the order of their listings have the same archive, entry by entry. */
  lemma ListingOrderIsForgotten(fs: FileSystem, gs: FileSystem, src: Path, d: Id)
    requires ValidFs(fs) && ValidFs(gs) && SameTree(fs, gs) && d in fs
    ensures Archive(fs, src, d) == Archive(gs, src, d)
  {
    hide Walk, EntriesOf, Archive, ValidFs;
    ArchiveIs(fs, src, d);
    ArchiveIs(gs, src, d);
    SameWalk(fs, gs, [], d, {});
    SameEntries(fs, gs, src, d, Walk(fs, [], d, {}));
  }

  // ---- the order itself ----

  /** Directories in the order of the walk: a directory before what is below it, and siblings, with all that is
      below them, in the order of their names. */
  predicate Precedes(a: Path, b: Path) {
    a == [] || (b != [] && if a[0] == b[0] then Precedes(a[1..], b[1..]) else Le(a[0], b[0]))
  }

  /** Files in the order of the archive, by their paths: the files of a directory in the order of their names, then
      what is in its subdirectories, those in the order of theirs. */
  predicate Earlier(a: Path, b: Path)
    requires a != [] && b != []
  {
    if |a| == 1 then |b| > 1 || Le(a[0], b[0])
    else |b| > 1 && if a[0] == b[0] then Earlier(a[1..], b[1..]) else Le(a[0], b[0])
  }

  lemma {:induction false} PrecedesBelow(rel: Path, a: Path, b: Path)
    requires Precedes(a, b)
    ensures Precedes(rel + a, rel + b)
  {
    if rel == [] {
      assert rel + a == a && rel + b == b;
    } else {
      assert (rel + a)[1..] == rel[1..] + a && (rel + b)[1..] == rel[1..] + b;
      PrecedesBelow(rel[1..], a, b);
    }
  }

  ghost predicate InOrder(vs: seq<Visit>) {
    forall i, j | 0 <= i < j < |vs| :: Precedes(vs[i].rel, vs[j].rel)
  }

  lemma InOrderConcat(a: seq<Visit>, b: seq<Visit>)
    requires InOrder(a) && InOrder(b) && forall v, w | v in a && w in b :: Precedes(v.rel, w.rel)
    ensures InOrder(a + b)
  {
    hide Precedes;
    forall i, j | 0 <= i < j < |a + b|
      ensures Precedes((a + b)[i].rel, (a + b)[j].rel)
    {
      if i < |a| <= j {
        assert a[i] in a && b[j - |a|] in b;
      }
    }
  }

  lemma {:induction false} WalkInOrder(fs: FileSystem, rel: Path, d: Id, seen: set<Id>)
    requires ValidFs(fs) && d in fs
    ensures InOrder(Walk(fs, rel, d, seen))
    decreases fs.Keys - seen, 1, 0
  {
    hide WalkAll, Kept, Precedes, ValidFs;
    if d !in seen {
      assert d in fs.Keys - seen && d !in fs.Keys - (seen + {d});
      KeptNames(fs[d]);
      KeptOrdered(fs[d]);
      UniqueDirs(fs, d);
      WalkAllInOrder(fs, rel, d, Kept(fs[d]), seen + {d});
      WalkAllBelow(fs, rel, d, Kept(fs[d]), seen + {d});
      var head := [Visit(rel, false)];
      forall v, w | v in head && w in WalkAll(fs, rel, d, Kept(fs[d]), seen + {d})
        ensures Precedes(v.rel, w.rel)
      {
        PrecedesItself(rel, w.rel);
      }
      InOrderConcat(head, WalkAll(fs, rel, d, Kept(fs[d]), seen + {d}));
    }
  }

  lemma UniqueDirs(fs: FileSystem, d: Id)
    requires ValidFs(fs) && d in fs
    ensures NoDuplicates(fs[d].dirs)
  {
  }

  lemma KeptOrdered(l: Listing)
    ensures Ordered(Kept(l))
  {
    SortedIsOrdered(Filter(l.dirs, ExcludedDir()));
  }

  lemma PrecedesItself(rel: Path, longer: Path)
    requires rel <= longer
    ensures Precedes(rel, longer)
  {
    PrecedesBelow(rel, [], longer[|rel|..]);
    assert rel + [] == rel && rel + longer[|rel|..] == longer;
  }

  lemma SiblingsPrecede(rel: Path, a: Path, b: Path)
    requires rel < a && rel < b && a[|rel|] != b[|rel|] && Le(a[|rel|], b[|rel|])
    ensures Precedes(a, b)
  {
    PrecedesBelow(rel, a[|rel|..], b[|rel|..]);
    assert rel + a[|rel|..] == a && rel + b[|rel|..] == b;
  }

  lemma {:induction false} WalkAllInOrder(fs: FileSystem, rel: Path, d: Id, names: seq<string>, seen: set<Id>)
    requires ValidFs(fs) && d in fs && Ordered(names) && NoDuplicates(names)
    requires forall n | n in names :: n in fs[d].dirs
    ensures InOrder(WalkAll(fs, rel, d, names, seen))
    decreases fs.Keys - seen, 2, |names|
  {
    hide Walk, Precedes;
    if names != [] {
      var child := fs[d].target[names[0]];
      var first, rest := Walk(fs, rel + [names[0]], child, seen), WalkAll(fs, rel, d, names[1..], seen);
      WalkInOrder(fs, rel + [names[0]], child, seen);
      WalkAllInOrder(fs, rel, d, names[1..], seen);
      WalkBelow(fs, rel + [names[0]], child, seen);
      WalkAllBelow(fs, rel, d, names[1..], seen);
      forall v, w | v in first && w in rest
        ensures Precedes(v.rel, w.rel)
      {
        assert v.rel[|rel|] == (rel + [names[0]])[|rel|];
        assert w.rel[|rel|] in names[1..];
        SiblingsPrecede(rel, v.rel, w.rel);
      }
      InOrderConcat(first, rest);
    }
  }

  lemma {:induction false} EarlierByDirectory(a: Path, m: string, b: Path, n: string)
    requires Precedes(a, b) && a != b
    ensures Earlier(a + [m], b + [n])
  {
    if a == [] {
      assert a + [m] == [m];
    } else if a[0] == b[0] {
      assert (a + [m])[1..] == a[1..] + [m] && (b + [n])[1..] == b[1..] + [n];
      assert a == [a[0]] + a[1..] && b == [b[0]] + b[1..];
      EarlierByDirectory(a[1..], m, b[1..], n);
    }
  }

  lemma {:induction false} EarlierByName(a: Path, m: string, n: string)
    requires Le(m, n)
    ensures Earlier(a + [m], a + [n])
  {
    if a == [] {
      assert a + [m] == [m] && a + [n] == [n];
    } else {
      assert (a + [m])[1..] == a[1..] + [m] && (a + [n])[1..] == a[1..] + [n];
      EarlierByName(a[1..], m, n);
    }
  }

  /** Earlier entries come earlier. */
  ghost predicate EntriesInOrder(entries: seq<Entry>) {
    && (forall e | e in entries :: |e.arcname| > 1)
    && forall i, j | 0 <= i < j < |entries| :: Earlier(entries[i].arcname[1..], entries[j].arcname[1..])
  }

  lemma {:induction false} FilterOrdered(names: seq<string>, excluded: string -> bool)
    requires Ordered(names)
    ensures Ordered(Filter(names, excluded))
  {
    hide Le;
    if names != [] {
      FilterOrdered(names[1..], excluded);
      FilterKeeps(names[1..], excluded);
      var rest := Filter(names[1..], excluded);
      forall i | 0 <= i < |rest|
        ensures Le(names[0], rest[i])
      {
        assert rest[i] in rest;
      }
    }
  }

  lemma PackagedOrdered(l: Listing)
    ensures Ordered(PackagedFiles(l))
  {
    hide Filter, Sorted;
    SortedIsOrdered(l.files);
    FilterOrdered(Sorted(l.files), ExcludedName());
  }

  lemma RelativeName(src: Path, rel: Path, name: string)
    ensures |EntryFor(src, rel, name).arcname| > 1 && EntryFor(src, rel, name).arcname[1..] == rel + [name]
  {
    assert ([RESOURCES_ROOT] + rel + [name])[1..] == rel + [name];
  }

  lemma {:induction false} EntriesOrdered(fs: FileSystem, src: Path, d: Id, vs: seq<Visit>)
    requires Reached(fs, d, vs) && InOrder(vs) && DistinctVisits(vs)
    ensures EntriesInOrder(EntriesOf(fs, src, d, vs))
  {
    hide Walkable, Ident, PackagedFiles, EntryFor, Precedes, Earlier, Le;
    if vs != [] {
      var before, v := vs[..|vs| - 1], vs[|vs| - 1];
      EntriesOrdered(fs, src, d, before);
      var names := PackagedFiles(fs[Ident(fs, d, v.rel)]);
      PackagedOrdered(fs[Ident(fs, d, v.rel)]);
      var done, more := EntriesOf(fs, src, d, before), FileEntries(src, v.rel, names);
      forall n
        ensures |EntryFor(src, v.rel, n).arcname| > 1 && EntryFor(src, v.rel, n).arcname[1..] == v.rel + [n]
      {
        RelativeName(src, v.rel, n);
      }
      if !v.pruned {
        OneDirectory(src, v.rel, names);
        forall e, i | e in done && 0 <= i < |names|
          ensures Earlier(e.arcname[1..], more[i].arcname[1..])
        {
          EntriesIff(fs, src, d, before, e);
          var rel, name :| Packaged(fs, d, before, rel, name) && e == EntryFor(src, rel, name);
          RelativeName(src, rel, name);
          var k :| 0 <= k < |before| && before[k] == Visit(rel, false);
          assert vs[k] == before[k] && Precedes(vs[k].rel, v.rel) && vs[k].rel != v.rel;
          EarlierByDirectory(rel, name, v.rel, names[i]);
        }
      }
    }
  }

  lemma OneDirectory(src: Path, rel: Path, names: seq<string>)
    requires Ordered(names)
    ensures EntriesInOrder(FileEntries(src, rel, names))
  {
    hide EntryFor, Earlier, Le;
    var entries := FileEntries(src, rel, names);
    forall n
      ensures |EntryFor(src, rel, n).arcname| > 1 && EntryFor(src, rel, n).arcname[1..] == rel + [n]
    {
      RelativeName(src, rel, n);
    }
    forall i, j | 0 <= i < j < |entries|
      ensures Earlier(entries[i].arcname[1..], entries[j].arcname[1..])
    {
      EarlierByName(rel, names[i], names[j]);
    }
  }

  /** The archive is in order: the files of a directory by name, then what is in its subdirectories, one after the
      other by name. */
  lemma ArchiveInOrder(fs: FileSystem, src: Path, d: Id)
    requires ValidFs(fs) && d in fs
    ensures EntriesInOrder(Archive(fs, src, d))
  {
    hide Walk, EntriesOf, ValidFs;
    ArchiveIs(fs, src, d);
    WalkInOrder(fs, [], d, {});
    WalkBelow(fs, [], d, {});
    EntriesOrdered(fs, src, d, Walk(fs, [], d, {}));
  }

  // ---- names and exclusions, spelled out ----

  predicate EndsWith(name: string, suffix: string) {
    |suffix| <= |name| && name[|name| - |suffix|..] == suffix
  }

  /** What an entry is: the file below the source directory, and `resources/` with the same relative path; and which
      files are never in. */
  lemma EntriesSpelledOut(fs: FileSystem, src: Path, d: Id, e: Entry)
    requires ValidFs(fs) && d in fs && e in Archive(fs, src, d)
    ensures src <= e.path && e.arcname == ["resources"] + e.path[|src|..] && |e.path| > |src|
    ensures
      var name := e.path[|e.path| - 1];
      name != ".DS_Store" && !EndsWith(name, ".pyc") && !EndsWith(name, ".pyo") && !EndsWith(name, ".pyd")
    ensures forall i | |src| <= i < |e.path| - 1 ::
      e.path[i] !in {"__pycache__", ".git", ".pytest_cache", ".mypy_cache"}
  {
    hide Archive, Ident, Trail, Kept;
    ArchiveIff(fs, src, d, e);
    var rel, name :| Belongs(fs, d, rel, name) && e == EntryFor(src, rel, name);
    assert e.path[|src|..] == rel + [name];
    assert ["resources"] + (rel + [name]) == ["resources"] + rel + [name];
    forall i | |src| <= i < |e.path| - 1
      ensures e.path[i] !in EXCLUDED_DIRS
    {
      WalkableKept(fs, d, rel, i - |src|);
      assert e.path[i] == rel[i - |src|];
    }
  }

  lemma {:induction false} WalkableKept(fs: FileSystem, d: Id, rel: Path, i: nat)
    requires Walkable(fs, d, rel) && i < |rel|
    ensures rel[i] !in EXCLUDED_DIRS
    decreases i
  {
    hide Kept;
    KeptNames(fs[d]);
    if i > 0 {
      WalkableKept(fs, fs[d].target[rel[0]], rel[1..], i - 1);
    }
  }
}
