/** The blobs of a submission: `check_blobs` and `blobstore_map` of `pystorm_a8c/cli/submit.py`. */
module Blobs {
  import opened Names

  const VIRTUALENV_NAME := "venv"

  /** The extra blobs: the keys in the order given, each with its local name. */
  datatype Blobs = Blobs(keys: seq<string>, localname: map<string, string>)

  ghost predicate Valid(blobs: Blobs) {
    NoDuplicates(blobs.keys) && blobs.localname.Keys == set k <- blobs.keys
  }

  datatype Problem = IsVenv(key: string) | NotPlain(key: string) | Shared(key: string, other: string)

  datatype Outcome = Accepted | Refused(problems: seq<Problem>)

  /** One entry of the blobstore map. */
  datatype Placement = Placement(localname: string, uncompress: bool)

  predicate IsPlain(name: string) {
    name !in {"", ".", "..", VIRTUALENV_NAME} && '/' !in name
  }

  ghost predicate LocalNamesApart(blobs: Blobs)
    requires Valid(blobs)
  {
    forall k, l | k in blobs.localname && l in blobs.localname && k != l :: blobs.localname[k] != blobs.localname[l]
  }

  /** The keys among the first n that have the local name, in order. */
  function Holders(localname: map<string, string>, keys: seq<string>, n: nat, name: string): seq<string>
    requires n <= |keys|
  {
    if n == 0 then []
    else
      Holders(localname, keys, n - 1, name)
      + if keys[n - 1] in localname && localname[keys[n - 1]] == name then [keys[n - 1]] else []
  }

  /** What is said of the key at i. */
  function Report(venv: string, localname: map<string, string>, keys: seq<string>, i: nat): seq<Problem>
    requires i < |keys| && keys[i] in localname
  {
    var key, name := keys[i], localname[keys[i]];
    var others := Holders(localname, keys, i, name);
    (if key == venv then [IsVenv(key)] else [])
    + (if !IsPlain(name) then [NotPlain(key)] else if others != [] then [Shared(key, others[0])] else [])
  }

  function Reports(venv: string, localname: map<string, string>, keys: seq<string>, n: nat): seq<Problem>
    requires n <= |keys| && forall k | k in keys :: k in localname
  {
    if n == 0 then [] else Reports(venv, localname, keys, n - 1) + Report(venv, localname, keys, n - 1)
  }

  /** `check_blobs`: the keys are gone through in sorted order, and every problem found is reported. */
  method CheckBlobs(venv: string, blobs: Blobs) returns (r: Outcome)
    requires Valid(blobs)
    ensures
      var keys := Sorted(blobs.keys);
      && (forall k | k in keys :: k in blobs.localname)
      && var problems := Reports(venv, blobs.localname, keys, |keys|);
         r == if problems == [] then Accepted else Refused(problems)
  {
    hide Sorted, Reports, Holders;
    var problems: seq<Problem> := [];
    var keysByLocalname: map<string, string> := map[];
    var sorted := Sorted(blobs.keys);
    SortedIsOrdered(blobs.keys);
    assert forall k | k in sorted :: k in blobs.localname;
    Start(venv, blobs.localname, sorted);
    var i := 0;
    while i < |sorted|
      invariant 0 <= i <= |sorted|
      invariant problems == Reports(venv, blobs.localname, sorted, i)
      invariant forall n | n in keysByLocalname :: IsPlain(n)
      invariant forall n | IsPlain(n) ::
                  var holders := Holders(blobs.localname, sorted, i, n);
                  if holders == [] then n !in keysByLocalname
                  else n in keysByLocalname && keysByLocalname[n] == holders[0]
    {
      var key := sorted[i];
      assert key in sorted;
      var localname := blobs.localname[key];
      Next(venv, blobs.localname, sorted, i);
      if key == venv {
        problems := problems + [IsVenv(key)];
      }
      if !IsPlain(localname) {
        problems := problems + [NotPlain(key)];
      } else if localname in keysByLocalname {
        var other := keysByLocalname[localname];
        problems := problems + [Shared(key, other)];
      } else {
        keysByLocalname := keysByLocalname[localname := key];
      }
      i := i + 1;
    }
    return if problems == [] then Accepted else Refused(problems);
  }

  lemma Start(venv: string, localname: map<string, string>, keys: seq<string>)
    requires forall k | k in keys :: k in localname
    ensures Reports(venv, localname, keys, 0) == []
    ensures forall n :: Holders(localname, keys, 0, n) == []
  {
  }

  lemma Next(venv: string, localname: map<string, string>, keys: seq<string>, i: nat)
    requires i < |keys| && forall k | k in keys :: k in localname
    ensures Reports(venv, localname, keys, i + 1) ==
      Reports(venv, localname, keys, i) + Report(venv, localname, keys, i)
    ensures forall n :: Holders(localname, keys, i + 1, n) ==
                        Holders(localname, keys, i, n) + if localname[keys[i]] == n then [keys[i]] else []
  {
  }

  lemma {:induction false} HoldersAre(localname: map<string, string>, keys: seq<string>, n: nat, name: string)
    requires n <= |keys|
    ensures forall k :: k in Holders(localname, keys, n, name) <==>
      k in keys[..n] && k in localname && localname[k] == name
  {
    if n > 0 {
      HoldersAre(localname, keys, n - 1, name);
      assert keys[..n] == keys[..n - 1] + [keys[n - 1]];
    }
  }

  /** Nothing is wrong with the key at i. */
  ghost predicate Fine(venv: string, localname: map<string, string>, keys: seq<string>, i: nat)
    requires i < |keys| && forall k | k in keys :: k in localname
  {
    keys[i] != venv && IsPlain(localname[keys[i]]) && forall j | 0 <= j < i :: localname[keys[j]] != localname[keys[i]]
  }

  lemma ReportIs(venv: string, localname: map<string, string>, keys: seq<string>, i: nat)
    requires i < |keys| && forall k | k in keys :: k in localname
    ensures Report(venv, localname, keys, i) == [] <==> Fine(venv, localname, keys, i)
  {
    var others := Holders(localname, keys, i, localname[keys[i]]);
    HoldersAre(localname, keys, i, localname[keys[i]]);
    if others != [] {
      assert others[0] in others;
      var j :| 0 <= j < i && keys[j] == others[0];
      assert !Fine(venv, localname, keys, i);
    } else {
      forall j | 0 <= j < i
        ensures localname[keys[j]] != localname[keys[i]]
      {
        assert keys[j] in keys[..i] && keys[j] !in others;
      }
    }
  }

  lemma {:induction false} ReportsNone(venv: string, localname: map<string, string>, keys: seq<string>, n: nat)
    requires n <= |keys| && forall k | k in keys :: k in localname
    ensures Reports(venv, localname, keys, n) == [] <==> forall i | 0 <= i < n :: Fine(venv, localname, keys, i)
  {
    hide Report, Fine;
    if n > 0 {
      ReportsNone(venv, localname, keys, n - 1);
      ReportIs(venv, localname, keys, n - 1);
    }
  }

  /** No extra blob is the venv blob, every local name is plain, and no two are the same. */
  ghost predicate Acceptable(venv: string, blobs: Blobs)
    requires Valid(blobs)
  {
    venv !in blobs.localname && (forall k | k in blobs.localname :: IsPlain(blobs.localname[k]))
      && LocalNamesApart(blobs)
  }

  /** The blobs are accepted if and only if they are acceptable. */
  lemma {:induction false} AcceptedIff(venv: string, blobs: Blobs)
    requires Valid(blobs)
    ensures forall k | k in Sorted(blobs.keys) :: k in blobs.localname
    ensures Reports(venv, blobs.localname, Sorted(blobs.keys), |Sorted(blobs.keys)|) == [] <==> Acceptable(venv, blobs)
  {
    hide Sorted, Reports;
    var keys := Sorted(blobs.keys);
    SortedIsOrdered(blobs.keys);
    assert forall k | k in keys :: k in blobs.localname;
    ReportsNone(venv, blobs.localname, keys, |keys|);
    if Acceptable(venv, blobs) {
      forall i | 0 <= i < |keys|
        ensures Fine(venv, blobs.localname, keys, i)
      {
        assert keys[i] in keys;
        assert forall j | 0 <= j < i :: keys[j] in keys;
      }
    }
    if forall i | 0 <= i < |keys| :: Fine(venv, blobs.localname, keys, i) {
      FineIsAcceptable(venv, blobs, keys);
    }
  }

  lemma FineIsAcceptable(venv: string, blobs: Blobs, keys: seq<string>)
    requires Valid(blobs) && forall k :: k in keys <==> k in blobs.localname
    requires forall i | 0 <= i < |keys| :: Fine(venv, blobs.localname, keys, i)
    ensures Acceptable(venv, blobs)
  {
    forall k | k in blobs.localname
      ensures k != venv && IsPlain(blobs.localname[k])
    {
      var i :| 0 <= i < |keys| && keys[i] == k;
      assert Fine(venv, blobs.localname, keys, i);
    }
    forall k, l | k in blobs.localname && l in blobs.localname && k != l
      ensures blobs.localname[k] != blobs.localname[l]
    {
      var i :| 0 <= i < |keys| && keys[i] == k;
      var j :| 0 <= j < |keys| && keys[j] == l;
      assert Fine(venv, blobs.localname, keys, i) && Fine(venv, blobs.localname, keys, j);
    }
  }

  /** The map that `blobstore_map` is to return. */
  function Placements(venv: string, blobs: Blobs): map<string, Placement> {
    map k | k in blobs.localname.Keys + {venv} ::
      if k in blobs.localname then Placement(blobs.localname[k], false) else Placement(VIRTUALENV_NAME, true)
  }

  /** `blobstore_map`: an extra blob under the key of the venv takes its place. */
  method BlobstoreMap(venv: string, blobs: Blobs) returns (blobMap: map<string, Placement>)
    requires Valid(blobs)
    ensures blobMap == Placements(venv, blobs)
  {
    blobMap := map[venv := Placement(VIRTUALENV_NAME, true)];
    ghost var done: set<string> := {};
    var i := 0;
    while i < |blobs.keys|
      invariant 0 <= i <= |blobs.keys|
      invariant blobMap.Keys == done + {venv} && done <= blobs.localname.Keys
      invariant forall j | 0 <= j < i :: blobs.keys[j] in done
      invariant forall k | k in blobMap ::
                  blobMap[k] == if k in done then Placement(blobs.localname[k], false)
                    else Placement(VIRTUALENV_NAME, true)
    {
      var key := blobs.keys[i];
      assert key in blobs.keys;
      blobMap := blobMap[key := Placement(blobs.localname[key], false)];
      done := done + {key};
      i := i + 1;
    }
    assert done == blobs.localname.Keys;
  }

  /** The venv blob alone is at its own name, alone unpacked, and every blob has its own place there,
      if and only if the blobs are acceptable. */
  lemma PlacedApartIff(venv: string, blobs: Blobs)
    requires Valid(blobs)
    ensures
      var placed := Placements(venv, blobs);
      && (placed[venv] == Placement(VIRTUALENV_NAME, true)
          && (forall k | k in placed && k != venv :: IsPlain(placed[k].localname) && !placed[k].uncompress)
          && (forall k, l | k in placed && l in placed && k != l :: placed[k].localname != placed[l].localname)
          <==> Acceptable(venv, blobs))
  {
    hide IsPlain;
    var placed := Placements(venv, blobs);
    VenvIsNotPlain();
    forall k | k in blobs.localname
      ensures k in placed && placed[k] == Placement(blobs.localname[k], false)
    {
    }
    if venv !in blobs.localname {
      assert forall k | k in placed && k != venv :: k in blobs.localname;
    }
  }

  lemma VenvIsNotPlain()
    ensures !IsPlain(VIRTUALENV_NAME)
  {
  }

  // ---- plain names, by where they lead ----

  /** The components of a path. */
  function Parts(path: string): seq<string> {
    if path == [] then [""]
    else if path[0] == '/' then [""] + Parts(path[1..])
    else
      var rest := Parts(path[1..]);
      if rest == [] then [path[..1]] else [[path[0]] + rest[0]] + rest[1..]
  }

  /** Where a path leads, followed from a directory given by its components. */
  function Resolve(dir: seq<string>, parts: seq<string>): seq<string>
    decreases |parts|
  {
    if parts == [] then dir
    else if parts[0] == "" || parts[0] == "." then Resolve(dir, parts[1..])
    else if parts[0] == ".." then Resolve(if dir == [] then [] else dir[..|dir| - 1], parts[1..])
    else Resolve(dir + [parts[0]], parts[1..])
  }

  predicate Slashless(parts: seq<string>) {
    forall p | p in parts :: '/' !in p
  }

  lemma {:induction false} PartsAre(path: string)
    ensures Parts(path) != [] && Slashless(Parts(path))
    ensures '/' !in path ==> Parts(path) == [path]
  {
    if path != [] {
      PartsAre(path[1..]);
      assert path == [path[0]] + path[1..];
      var rest := Parts(path[1..]);
      assert rest[0] in rest && forall p | p in rest[1..] :: p in rest;
    }
  }

  lemma {:induction false} ResolveSlashless(dir: seq<string>, parts: seq<string>)
    requires Slashless(dir) && Slashless(parts)
    ensures Slashless(Resolve(dir, parts))
    decreases |parts|
  {
    if parts != [] {
      assert parts[0] in parts && forall p | p in parts[1..] :: p in parts;
      var next :=
        if parts[0] == "" || parts[0] == "." then dir
        else if parts[0] == ".." then if dir == [] then [] else dir[..|dir| - 1]
        else dir + [parts[0]];
      ResolveSlashless(next, parts[1..]);
    }
  }

  lemma ResolveOne(dir: seq<string>, name: string)
    ensures Resolve(dir, [name]) ==
      if name == "" || name == "." then dir
      else if name == ".." then if dir == [] then [] else dir[..|dir| - 1]
      else dir + [name]
  {
    assert [name][1..] == [];
  }

  /** A local name is plain if and only if it is not the venv's and leads, from whatever directory the worker puts
      its blobs in, to the file of that name in this directory. */
  lemma PlainIff(dir: seq<string>, name: string)
    requires Slashless(dir)
    ensures IsPlain(name) <==> name != VIRTUALENV_NAME && Resolve(dir, Parts(name)) == dir + [name]
  {
    hide Parts, Resolve;
    PartsAre(name);
    ResolveSlashless(dir, Parts(name));
    ResolveOne(dir, name);
    if Resolve(dir, Parts(name)) == dir + [name] {
      assert (dir + [name])[|dir|] == name;
      assert name in dir + [name];
      assert |dir + [name]| == |dir| + 1;
    }
  }

  // ---- the problems, spelled out ----

  /** What a problem says is so. */
  ghost predicate Holds(problem: Problem, venv: string, localname: map<string, string>) {
    && problem.key in localname
    && match problem
       case IsVenv(key) => key == venv
       case NotPlain(key) => !IsPlain(localname[key])
       case Shared(key, other) =>
         && IsPlain(localname[key]) && other in localname && other != key
         && localname[other] == localname[key] && Le(other, key)
  }

  lemma {:induction false} FirstHolder(localname: map<string, string>, keys: seq<string>, n: nat, name: string)
    requires n <= |keys| && Ordered(keys) && Holders(localname, keys, n, name) != []
    requires forall k | k in keys :: k in localname
    ensures forall k | k in keys && localname[k] == name :: Le(Holders(localname, keys, n, name)[0], k)
  {
    hide Le, Holders, Report;
    if n == 0 {
      Start("", localname, keys);
    } else {
      Next("", localname, keys, n - 1);
      if Holders(localname, keys, n - 1, name) != [] {
        FirstHolder(localname, keys, n - 1, name);
      } else {
        HoldersAre(localname, keys, n - 1, name);
        forall k | k in keys && localname[k] == name
          ensures Le(keys[n - 1], k)
        {
          NotEarlier(localname, keys, n - 1, name, k);
        }
      }
    }
  }

  lemma NotEarlier(localname: map<string, string>, keys: seq<string>, n: nat, name: string, k: string)
    requires n < |keys| && Ordered(keys) && k in keys && k in localname && localname[k] == name
    requires forall l :: !(l in keys[..n] && l in localname && localname[l] == name)
    ensures Le(keys[n], k)
  {
    hide Le;
    var i :| 0 <= i < |keys| && keys[i] == k;
    assert i >= n;
    LeTotal(k, k);
  }

  /** Every problem reported is one; the other blob of a shared name comes earlier, and is the first with it. */
  lemma {:induction false} ReportsHold(venv: string, localname: map<string, string>, keys: seq<string>, n: nat)
    requires n <= |keys| && Ordered(keys) && NoDuplicates(keys) && forall k | k in keys :: k in localname
    ensures forall p | p in Reports(venv, localname, keys, n) :: Holds(p, venv, localname)
    ensures forall key, other, k | Shared(key, other) in Reports(venv, localname, keys, n) && k in keys ::
              key in localname && (localname[k] == localname[key] ==> Le(other, k))
  {
    hide IsPlain, Le, Holders;
    if n > 0 {
      var key := keys[n - 1];
      ReportsHold(venv, localname, keys, n - 1);
      HoldersAre(localname, keys, n - 1, localname[key]);
      var others := Holders(localname, keys, n - 1, localname[key]);
      if others != [] {
        assert others[0] in others;
        var j :| 0 <= j < n - 1 && keys[j] == others[0];
        assert keys[j] != keys[n - 1] && Le(keys[j], keys[n - 1]);
        FirstHolder(localname, keys, n - 1, localname[key]);
      }
      assert forall p | p in Report(venv, localname, keys, n - 1) :: Holds(p, venv, localname);
    }
  }

  lemma {:induction false} ReportIn(venv: string, localname: map<string, string>, keys: seq<string>, n: nat, i: nat)
    requires i < n <= |keys| && forall k | k in keys :: k in localname
    ensures forall p | p in Report(venv, localname, keys, i) :: p in Reports(venv, localname, keys, n)
  {
    hide Report;
    if i < n - 1 {
      ReportIn(venv, localname, keys, n - 1, i);
    }
  }

  /** The key at i shares its local name with an earlier one. */
  predicate SharesEarlier(localname: map<string, string>, keys: seq<string>, i: nat)
    requires i < |keys| && forall k | k in keys :: k in localname
  {
    exists j | 0 <= j < i :: localname[keys[j]] == localname[keys[i]]
  }

  lemma SharesIff(localname: map<string, string>, keys: seq<string>, i: nat)
    requires i < |keys| && forall k | k in keys :: k in localname
    ensures SharesEarlier(localname, keys, i) <==> Holders(localname, keys, i, localname[keys[i]]) != []
  {
    hide Holders;
    var others := Holders(localname, keys, i, localname[keys[i]]);
    HoldersAre(localname, keys, i, localname[keys[i]]);
    if others != [] {
      assert others[0] in others;
      var j :| 0 <= j < i && keys[j] == others[0];
    }
    forall j | 0 <= j < i && localname[keys[j]] == localname[keys[i]]
      ensures others != []
    {
      assert keys[j] in keys[..i] && keys[j] in others;
    }
  }

  /** And every blob at fault is reported for it. */
  lemma ReportsComplete(venv: string, localname: map<string, string>, keys: seq<string>, n: nat, i: nat)
    requires i < n <= |keys| && forall k | k in keys :: k in localname
    ensures
      var reports := Reports(venv, localname, keys, n);
      && (keys[i] == venv ==> IsVenv(keys[i]) in reports)
      && (!IsPlain(localname[keys[i]]) ==> NotPlain(keys[i]) in reports)
      && (IsPlain(localname[keys[i]]) && SharesEarlier(localname, keys, i) ==>
            exists other :: Shared(keys[i], other) in reports)
  {
    hide IsPlain, Holders, Reports, SharesEarlier;
    ReportIn(venv, localname, keys, n, i);
    SharesIff(localname, keys, i);
    var others, report := Holders(localname, keys, i, localname[keys[i]]), Report(venv, localname, keys, i);
    if IsPlain(localname[keys[i]]) && others != [] {
      assert Shared(keys[i], others[0]) in report;
    }
  }
}
